/** The text of a deleted tweet's card (components/tweet/DeletedTweetCard.tsx):
    the tombstone's text cut into plain and link segments by its entities. */
module DeletedCard {
  import opened Wrappers
  import opened Text
  import opened TweetTypes
  import Sorting

  /** Shown when the tombstone carries no text. */
  const DeletedText := "此推文已删除。"

  datatype Segment = TextSegment(value: string) | LinkSegment(value: string, url: string)

  /** An entity with both indices as numbers, the end not before the
      start. */
  datatype Span = Span(start: int, stop: int, url: Option<string>)

  predicate Usable(e: TombstoneEntity) {
    e.fromIndex.Some? && e.toIndex.Some? && e.toIndex.value >= e.fromIndex.value
  }

  function SpanOf(e: TombstoneEntity): Span
    requires Usable(e)
  {
    Span(e.fromIndex.value, e.toIndex.value, e.url)
  }

  /** The entity filter: the usable entities, in order, as spans. */
  function Usables(es: seq<TombstoneEntity>): (r: seq<Span>)
    ensures |r| <= |es|
    ensures forall s :: s in r <==> exists e :: e in es && Usable(e) && SpanOf(e) == s
    ensures forall i :: 0 <= i < |r| ==> r[i].start <= r[i].stop
  {
    if es == [] then []
    else
      var rest := Usables(es[1..]);
      assert forall e :: e in es <==> e == es[0] || e in es[1..];
      if Usable(es[0]) then [SpanOf(es[0])] + rest else rest
  }

  function StartOf(s: Span): int { s.start }

  /** The spans sorted by start. */
  function SortedSpans(es: seq<TombstoneEntity>): (r: seq<Span>)
    ensures multiset(r) == multiset(Usables(es))
    ensures Sorting.SortedBy(r, StartOf)
  {
    Sorting.SortBy(Usables(es), StartOf)
  }

  function Min(a: int, b: int): int {
    if a < b then a else b
  }

  /** The trailing segment: the rest of the text after the cursor, when the
      cursor is before its end. */
  function Trailing(text: string, cursor: int): (r: seq<Segment>)
    ensures cursor < |text| ==> r == [TextSegment(Slice(text, cursor, |text|))]
    ensures cursor >= |text| ==> r == []
  {
    if cursor < |text| then [TextSegment(Slice(text, cursor, |text|))] else []
  }

  /** The plain segment before a span, when the cursor lies before it. */
  function Gap(text: string, cursor: int, start: int): (r: seq<Segment>)
    ensures |r| <= 1 && forall i :: 0 <= i < |r| ==> r[i].TextSegment?
    ensures cursor < start ==> r == [TextSegment(Slice(text, cursor, start))]
    ensures cursor >= start ==> r == []
  {
    if cursor < start then [TextSegment(Slice(text, cursor, start))] else []
  }

  /** A span's own segment: nothing for an empty slice, a link when the span
      has a non-empty url, plain text otherwise. */
  function Piece(text: string, s: Span, end: int): (r: seq<Segment>)
    ensures |r| <= 1
    ensures Slice(text, s.start, end) == "" <==> r == []
    ensures forall i :: 0 <= i < |r| ==> r[i].value == Slice(text, s.start, end)
    ensures forall i :: 0 <= i < |r| ==> (r[i].LinkSegment? <==> Truthy(s.url))
    ensures forall i :: 0 <= i < |r| && r[i].LinkSegment? ==> Some(r[i].url) == s.url
  {
    var value := Slice(text, s.start, end);
    if |value| == 0 then []
    else if Truthy(s.url) then [LinkSegment(value, s.url.value)]
    else [TextSegment(value)]
  }

  /** The loop over the sorted spans from `cursor` on, then the trailing
      segment. Each span adds the gap before it when the cursor lies before
      its start, then its own slice (up to the text's end) when that is not
      empty: a link when the span has a non-empty url, plain text
      otherwise. The cursor moves to the span's clamped end. */
  function Walk(text: string, spans: seq<Span>, cursor: int): (r: seq<Segment>)
    ensures LinksFilled(r)
    decreases |spans|
  {
    if spans == [] then Trailing(text, cursor)
    else
      var s := spans[0];
      var end := Min(s.stop, |text|);
      var gap := Gap(text, cursor, s.start);
      var piece := Piece(text, s, end);
      var rest := Walk(text, spans[1..], end);
      assert LinksFilled(gap) && LinksFilled(piece);
      LinksFilledAppend(gap, piece);
      LinksFilledAppend(gap + piece, rest);
      gap + piece + rest
  }

  /** Every link segment has text and a url. */
  predicate LinksFilled(segs: seq<Segment>) {
    forall i :: 0 <= i < |segs| && segs[i].LinkSegment? ==> segs[i].value != "" && segs[i].url != ""
  }

  lemma LinksFilledAppend(a: seq<Segment>, b: seq<Segment>)
    requires LinksFilled(a) && LinksFilled(b)
    ensures LinksFilled(a + b)
  {
    forall i | 0 <= i < |a + b| && (a + b)[i].LinkSegment?
      ensures (a + b)[i].value != "" && (a + b)[i].url != ""
    {
      if i >= |a| {
        assert (a + b)[i] == b[i - |a|];
      }
    }
  }

  /** `buildSegments`: the whole text as one plain segment when there are no
      entities, otherwise the walk over the sorted usable spans from 0. */
  function BuildSegments(text: string, entities: Option<seq<TombstoneEntity>>): (r: seq<Segment>)
    ensures entities.None? || entities.value == [] ==> r == [TextSegment(text)]
    ensures forall i :: 0 <= i < |r| && r[i].LinkSegment? ==> r[i].value != "" && r[i].url != ""
  {
    if entities.None? || |entities.value| == 0 then [TextSegment(text)]
    else Walk(text, SortedSpans(entities.value), 0)
  }

  /** The text the card shows: the tombstone's own text when there is one,
      even an empty one, else the fixed notice. */
  function CardText(t: Option<TombstoneText>): (r: string)
    ensures t.Some? && t.value.text.Some? ==> r == t.value.text.value
    ensures t.None? || t.value.text.None? ==> r == DeletedText
  {
    if t.Some? && t.value.text.Some? then t.value.text.value else DeletedText
  }

  /** The segments' text, end to end. */
  function Concat(segs: seq<Segment>): string {
    if segs == [] then "" else segs[0].value + Concat(segs[1..])
  }

  lemma {:induction false} ConcatAppend(a: seq<Segment>, b: seq<Segment>)
    ensures Concat(a + b) == Concat(a) + Concat(b)
  {
    if a != [] {
      assert (a + b)[1..] == a[1..] + b;
      assert (a + b)[0] == a[0];
      ConcatAppend(a[1..], b);
      assert Concat(a + b) == a[0].value + Concat(a[1..] + b);
      assert Concat(a) == a[0].value + Concat(a[1..]);
    } else {
      assert a + b == b;
    }
  }

  /** Spans inside the text, each ending before the next begins. */
  predicate Tiled(text: string, spans: seq<Span>) {
    (forall i :: 0 <= i < |spans| ==> 0 <= spans[i].start <= spans[i].stop <= |text|)
    && (forall i :: 0 <= i < |spans| - 1 ==> spans[i].stop <= spans[i + 1].start)
  }

  /** Over tiled spans from a cursor not past the first start, the segments
      spell out the text from the cursor on. */
  lemma {:induction false} WalkSpellsText(text: string, spans: seq<Span>, cursor: int)
    requires Tiled(text, spans) && 0 <= cursor <= |text|
    requires spans != [] ==> cursor <= spans[0].start
    ensures Concat(Walk(text, spans, cursor)) == text[cursor..]
    decreases |spans|
  {
    if spans == [] {
      assert Slice(text, cursor, |text|) == text[cursor..];
      assert Concat([TextSegment(text[cursor..])]) == text[cursor..] + Concat([]);
    } else {
      assert 0 <= spans[0].start <= spans[0].stop <= |text|;
      assert spans[1..] != [] ==> spans[0].stop <= spans[1..][0].start;
      assert Tiled(text, spans[1..]);
      WalkSpellsText(text, spans[1..], spans[0].stop);
      StepSpells(text, spans, cursor);
    }
  }

  /** The first span's gap and piece, then what the rest of the walk
      spells, give the text from the cursor on. */
  lemma StepSpells(text: string, spans: seq<Span>, cursor: int)
    requires spans != [] && 0 <= cursor <= spans[0].start <= spans[0].stop <= |text|
    requires Concat(Walk(text, spans[1..], spans[0].stop)) == text[spans[0].stop..]
    ensures Concat(Walk(text, spans, cursor)) == text[cursor..]
  {
    var s := spans[0];
    var gap, piece, rest := Gap(text, cursor, s.start), Piece(text, s, s.stop), Walk(text, spans[1..], s.stop);
    assert Concat(Walk(text, spans, cursor)) == Concat(gap) + Concat(piece) + Concat(rest) by {
      WalkUnfold(text, spans, cursor);
      ConcatThree(gap, piece, rest);
    }
    assert Concat(gap) == text[cursor..s.start] by {
      ConcatOne(gap, text[cursor..s.start]);
    }
    assert Concat(piece) == text[s.start..s.stop] by {
      ConcatOne(piece, text[s.start..s.stop]);
    }
    SplitThree(text, cursor, s.start, s.stop);
  }

  /** One step of the walk over a span inside the text. */
  lemma WalkUnfold(text: string, spans: seq<Span>, cursor: int)
    requires spans != [] && spans[0].stop <= |text|
    ensures Walk(text, spans, cursor)
            == Gap(text, cursor, spans[0].start) + Piece(text, spans[0], spans[0].stop) + Walk(text, spans[1..], spans[0].stop)
  {
  }

  lemma ConcatThree(a: seq<Segment>, b: seq<Segment>, c: seq<Segment>)
    ensures Concat(a + b + c) == Concat(a) + Concat(b) + Concat(c)
  {
    ConcatAppend(a + b, c);
    ConcatAppend(a, b);
  }

  /** At most one segment, spelling `t` when there is one and `t` is empty
      otherwise. */
  lemma ConcatOne(segs: seq<Segment>, t: string)
    requires |segs| <= 1
    requires segs == [] ==> t == ""
    requires forall i :: 0 <= i < |segs| ==> segs[i].value == t
    ensures Concat(segs) == t
  {
    if segs != [] {
      assert Concat(segs) == segs[0].value + Concat([]);
    }
  }

  /** Entities that are all usable, inside the text and in order without
      overlap give back the whole text when their segments are joined. */
  lemma {:induction false} SegmentsSpellText(text: string, entities: seq<TombstoneEntity>)
    requires forall i :: 0 <= i < |entities| ==> Usable(entities[i])
    requires Tiled(text, Usables(entities))
    ensures Concat(BuildSegments(text, Some(entities))) == text
  {
    if entities != [] {
      var spans := Usables(entities);
      TiledSorted(text, spans);
      Sorting.SortSorted(spans, StartOf);
      AllUsable(entities);
      WalkSpellsText(text, spans, 0);
    }
  }

  /** Spans that tile the text are already in order of their start. */
  lemma TiledSorted(text: string, spans: seq<Span>)
    requires Tiled(text, spans)
    ensures Sorting.SortedBy(spans, StartOf)
  {
    forall i, j | 0 <= i < j < |spans| ensures spans[i].start <= spans[j].start {
      TiledOrdered(text, spans, i, j);
    }
  }

  lemma {:induction false} AllUsable(es: seq<TombstoneEntity>)
    requires forall i :: 0 <= i < |es| ==> Usable(es[i])
    ensures |Usables(es)| == |es|
  {
    if es != [] {
      AllUsable(es[1..]);
    }
  }

  lemma {:induction false} TiledOrdered(text: string, spans: seq<Span>, i: nat, j: nat)
    requires Tiled(text, spans) && i < j < |spans|
    ensures spans[i].start <= spans[j].start
    decreases j - i
  {
    if j > i + 1 {
      TiledOrdered(text, spans, i + 1, j);
    }
  }
}
