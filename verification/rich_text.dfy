/** A tweet's text as nodes (components/tweet/tweetText.tsx): which text and
    entities are shown, the entities as links (url, mention, hashtag,
    cashtag) or as skipped ranges, and the plain text between them inside
    the display range. Also the author's name and the relative-time bucket.
    `encodeURIComponent` is a parameter; the twemoji rendering is left
    out. */
module RichText {
  import opened Wrappers
  import opened Text
  import opened TweetTypes
  import Sorting
  import TweetCard

  /** What `getFullTextAndEntities` returns. */
  datatype Source = Source(
    text: string,
    entities: Option<Entities>,
    range: Span,
    quoteUrl: Option<string>,
    media: Option<seq<MediaEntity>>)

  /** `getFullTextAndEntities`: a note tweet with non-empty text wins, shown
      whole, with its own entities or else the legacy ones; otherwise the
      legacy full text with its display range, or the whole text. The quote
      link and the media come from the legacy tweet either way, the
      extended media first. */
  function FullTextAndEntities(t: Tweet): (r: Source)
    ensures NoteText(t).Some? ==> r.text == NoteText(t).value && r.range == (0, |r.text|)
                                  && r.entities == Or(t.noteTweet.value.entitySet, LegacyEntities(t))
    ensures NoteText(t).None? ==> r.entities == LegacyEntities(t)
    ensures NoteText(t).None? && t.legacy.None? ==> r.text == "" && r.range == (0, 0)
    ensures NoteText(t).None? && t.legacy.Some? ==>
              r.text == t.legacy.value.fullText.GetOr("")
              && r.range == t.legacy.value.displayTextRange.GetOr((0, |r.text|))
    ensures r.quoteUrl == (if t.legacy.Some? then t.legacy.value.quotedPermalinkUrl else None)
    ensures r.media == Or(if t.legacy.Some? then t.legacy.value.extendedMedia else None,
                          if LegacyEntities(t).Some? then LegacyEntities(t).value.media else None)
  {
    var legacy := t.legacy;
    var quote := if legacy.Some? then legacy.value.quotedPermalinkUrl else None;
    var media := Or(if legacy.Some? then legacy.value.extendedMedia else None,
                    if LegacyEntities(t).Some? then LegacyEntities(t).value.media else None);
    match NoteText(t)
    case Some(text) =>
      Source(text, Or(t.noteTweet.value.entitySet, LegacyEntities(t)), (0, |text|), quote, media)
    case None =>
      var text := if legacy.Some? then legacy.value.fullText.GetOr("") else "";
      var range := if legacy.Some? then legacy.value.displayTextRange.GetOr((0, |text|)) else (0, |text|);
      Source(text, LegacyEntities(t), range, quote, media)
  }

  /** The note tweet's text when it is non-empty. */
  function NoteText(t: Tweet): (r: Option<string>)
    ensures r.Some? ==> r.value != "" && t.noteTweet.Some?
  {
    if t.noteTweet.Some? && Truthy(t.noteTweet.value.text) then t.noteTweet.value.text else None
  }

  function LegacyEntities(t: Tweet): Option<Entities> {
    if t.legacy.Some? then t.legacy.value.entities else None
  }

  datatype Kind = UrlKind | MentionKind | HashtagKind | CashtagKind | SkipKind

  /** An entity with a non-empty forward range. */
  datatype Entity = Entity(kind: Kind, start: int, end: int, href: Option<string>, display: Option<string>)

  function EntityStart(e: Entity): int { e.start }

  /** `pushEntity`: missing indices read as [0, 0]; a range that does not
      move forward is dropped. */
  function Push(kind: Kind, indices: Option<Span>, href: Option<string>, display: Option<string>): (r: seq<Entity>)
    ensures |r| <= 1
    ensures r != [] <==> indices.Some? && indices.value.1 > indices.value.0
    ensures r != [] ==> r[0] == Entity(kind, indices.value.0, indices.value.1, href, display)
  {
    var span := indices.GetOr((0, 0));
    if span.1 <= span.0 then [] else [Entity(kind, span.0, span.1, href, display)]
  }

  /** Whether a url entity names something shown elsewhere: one of its four
      urls, when non-empty, is in the skip set. */
  predicate ShouldSkip(u: UrlEntity, skip: set<string>) {
    (Truthy(u.url) && u.url.value in skip) || (Truthy(u.expandedUrl) && u.expandedUrl.value in skip)
    || (Truthy(u.unwoundUrl) && u.unwoundUrl.value in skip) || (Truthy(u.displayUrl) && u.displayUrl.value in skip)
  }

  /** A url entity: skipped, or a link to the expanded url (else the
      display url, else the url) showing the display url (else the expanded
      url, else the url). */
  function UrlEntry(u: UrlEntity, skip: set<string>): (r: seq<Entity>)
    ensures ShouldSkip(u, skip) ==> r == Push(SkipKind, u.indices, None, None)
    ensures !ShouldSkip(u, skip) ==>
              r == Push(UrlKind, u.indices, Or(u.expandedUrl, Or(u.displayUrl, u.url)), Or(u.displayUrl, Or(u.expandedUrl, u.url)))
  {
    if ShouldSkip(u, skip) then Push(SkipKind, u.indices, None, None)
    else Push(UrlKind, u.indices, Or(u.expandedUrl, Or(u.displayUrl, u.url)), Or(u.displayUrl, Or(u.expandedUrl, u.url)))
  }

  /** The url entries, one per url entity in order. */
  function UrlEntries(us: seq<UrlEntity>, skip: set<string>): (r: seq<Entity>)
    ensures |r| <= |us|
    ensures forall i :: 0 <= i < |r| ==> r[i].kind == UrlKind || r[i].kind == SkipKind
  {
    if us == [] then [] else UrlEntry(us[0], skip) + UrlEntries(us[1..], skip)
  }

  /** A mention links to the user's page (an empty screen name when it has
      none) and carries no label of its own. */
  function MentionEntry(m: MentionEntity): (r: seq<Entity>)
    ensures r != [] <==> m.indices.Some? && m.indices.value.1 > m.indices.value.0
    ensures r != [] ==>
              r == [Entity(MentionKind, m.indices.value.0, m.indices.value.1,
                           Some("https://twitter.com/" + m.screenName.GetOr("")), None)]
  {
    Push(MentionKind, m.indices, Some("https://twitter.com/" + m.screenName.GetOr("")), None)
  }

  function MentionEntries(ms: seq<MentionEntity>): (r: seq<Entity>)
    ensures |r| <= |ms|
    ensures forall i :: 0 <= i < |r| ==> r[i].kind == MentionKind && r[i].display.None?
  {
    if ms == [] then [] else MentionEntry(ms[0]) + MentionEntries(ms[1..])
  }

  /** A hashtag links to the hashtag's page, its text encoded. */
  function HashtagEntry(h: HashtagEntity, encode: string -> string): (r: seq<Entity>)
    ensures r != [] <==> h.indices.Some? && h.indices.value.1 > h.indices.value.0
    ensures r != [] ==>
              r == [Entity(HashtagKind, h.indices.value.0, h.indices.value.1,
                           Some("https://twitter.com/hashtag/" + encode(h.text) + "?src=hashtag_click"), None)]
  {
    Push(HashtagKind, h.indices, Some("https://twitter.com/hashtag/" + encode(h.text) + "?src=hashtag_click"), None)
  }

  function HashtagEntries(hs: seq<HashtagEntity>, encode: string -> string): (r: seq<Entity>)
    ensures |r| <= |hs|
    ensures forall i :: 0 <= i < |r| ==> r[i].kind == HashtagKind
  {
    if hs == [] then [] else HashtagEntry(hs[0], encode) + HashtagEntries(hs[1..], encode)
  }

  /** A symbol without indices is passed over; otherwise it links to a
      search for the cashtag, its text (empty when missing) encoded. */
  function CashtagEntry(s: SymbolEntity, encode: string -> string): (r: seq<Entity>)
    ensures r != [] <==> s.indices.Some? && s.indices.value.1 > s.indices.value.0
    ensures r != [] ==>
              r == [Entity(CashtagKind, s.indices.value.0, s.indices.value.1,
                           Some("https://twitter.com/search?q=%24" + encode(s.text.GetOr("")) + "&src=cashtag_click"), None)]
  {
    if s.indices.None? then []
    else Push(CashtagKind, s.indices, Some("https://twitter.com/search?q=%24" + encode(s.text.GetOr("")) + "&src=cashtag_click"), None)
  }

  function CashtagEntries(ss: seq<SymbolEntity>, encode: string -> string): (r: seq<Entity>)
    ensures |r| <= |ss|
    ensures forall i :: 0 <= i < |r| ==> r[i].kind == CashtagKind
  {
    if ss == [] then [] else CashtagEntry(ss[0], encode) + CashtagEntries(ss[1..], encode)
  }

  /* Each builder visits its entities in order: it distributes over
     concatenation, and one entity gives exactly its own entry. */

  lemma {:induction false} UrlEntriesAppend(a: seq<UrlEntity>, b: seq<UrlEntity>, skip: set<string>)
    ensures UrlEntries(a + b, skip) == UrlEntries(a, skip) + UrlEntries(b, skip)
    ensures |a| == 1 ==> UrlEntries(a, skip) == UrlEntry(a[0], skip)
  {
    if a == [] {
      assert a + b == b;
    } else {
      assert (a + b)[1..] == a[1..] + b;
      UrlEntriesAppend(a[1..], b, skip);
    }
  }

  lemma {:induction false} MentionEntriesAppend(a: seq<MentionEntity>, b: seq<MentionEntity>)
    ensures MentionEntries(a + b) == MentionEntries(a) + MentionEntries(b)
    ensures |a| == 1 ==> MentionEntries(a) == MentionEntry(a[0])
  {
    if a == [] {
      assert a + b == b;
    } else {
      assert (a + b)[1..] == a[1..] + b;
      MentionEntriesAppend(a[1..], b);
    }
  }

  lemma {:induction false} HashtagEntriesAppend(a: seq<HashtagEntity>, b: seq<HashtagEntity>, encode: string -> string)
    ensures HashtagEntries(a + b, encode) == HashtagEntries(a, encode) + HashtagEntries(b, encode)
    ensures |a| == 1 ==> HashtagEntries(a, encode) == HashtagEntry(a[0], encode)
  {
    if a == [] {
      assert a + b == b;
    } else {
      assert (a + b)[1..] == a[1..] + b;
      HashtagEntriesAppend(a[1..], b, encode);
    }
  }

  lemma {:induction false} CashtagEntriesAppend(a: seq<SymbolEntity>, b: seq<SymbolEntity>, encode: string -> string)
    ensures CashtagEntries(a + b, encode) == CashtagEntries(a, encode) + CashtagEntries(b, encode)
    ensures |a| == 1 ==> CashtagEntries(a, encode) == CashtagEntry(a[0], encode)
  {
    if a == [] {
      assert a + b == b;
    } else {
      assert (a + b)[1..] == a[1..] + b;
      CashtagEntriesAppend(a[1..], b, encode);
    }
  }

  /** The entities whose kind is one of `kinds`, in order. */
  function OfKind(es: seq<Entity>, kinds: set<Kind>): (r: seq<Entity>)
    ensures |r| <= |es|
  {
    if es == [] then []
    else (if es[0].kind in kinds then [es[0]] else []) + OfKind(es[1..], kinds)
  }

  lemma {:induction false} OfKindAppend(a: seq<Entity>, b: seq<Entity>, kinds: set<Kind>)
    ensures OfKind(a + b, kinds) == OfKind(a, kinds) + OfKind(b, kinds)
  {
    if a == [] {
      assert a + b == b;
    } else {
      assert (a + b)[0] == a[0] && (a + b)[1..] == a[1..] + b;
      OfKindAppend(a[1..], b, kinds);
      var head := if a[0].kind in kinds then [a[0]] else [];
      assert OfKind(a + b, kinds) == head + (OfKind(a[1..], kinds) + OfKind(b, kinds));
    }
  }

  /** A list all of whose kinds are in `kinds` is kept whole. */
  lemma {:induction false} OfKindAll(es: seq<Entity>, kinds: set<Kind>)
    requires forall i :: 0 <= i < |es| ==> es[i].kind in kinds
    ensures OfKind(es, kinds) == es
  {
    if es != [] {
      OfKindAll(es[1..], kinds);
    }
  }

  /** A list none of whose kinds are in `kinds` is dropped whole. */
  lemma {:induction false} OfKindNone(es: seq<Entity>, kinds: set<Kind>)
    requires forall i :: 0 <= i < |es| ==> es[i].kind !in kinds
    ensures OfKind(es, kinds) == []
  {
    if es != [] {
      OfKindNone(es[1..], kinds);
    }
  }

  /** The urls the text does not link because the tweet shows them another
      way: the quote link, the media links, and the card's raw url, link and
      display url. */
  function SkipUrls(src: Source, card: TweetCard.Outcome): (r: set<string>)
    ensures Truthy(src.quoteUrl) ==> src.quoteUrl.value in r
    ensures forall x :: x in r ==> x != ""
  {
    var quote := if Truthy(src.quoteUrl) then {src.quoteUrl.value} else {};
    var media := MediaUrls(src.media.GetOr([]));
    var fromCard := if card.Found? then
                      (if Truthy(card.info.rawUrl) then {card.info.rawUrl.value} else {})
                      + (if card.info.url != "" then {card.info.url} else {})
                      + (if Truthy(card.info.displayUrl) then {card.info.displayUrl.value} else {})
                    else {};
    quote + media + fromCard
  }

  function MediaUrls(ms: seq<MediaEntity>): (r: set<string>)
    ensures forall x :: x in r <==> exists i :: 0 <= i < |ms| && ms[i].url == Some(x) && x != ""
  {
    if ms == [] then {}
    else
      var rest := MediaUrls(ms[1..]);
      assert forall i :: 1 <= i < |ms| ==> ms[i] == ms[1..][i - 1];
      (if Truthy(ms[0].url) then {ms[0].url.value} else {}) + rest
  }

  /** The kinds a url entity can give. */
  const UrlKinds: set<Kind> := {UrlKind, SkipKind}

  /** The entities in push order: urls, mentions, hashtags, cashtags. The
      list falls into one block per kind in that order, and each block is
      exactly what its builder makes of the tweet's entities of that kind. */
  function Collected(es: Option<Entities>, skip: set<string>, encode: string -> string): (r: seq<Entity>)
    ensures forall i :: 0 <= i < |r| ==> r[i].start < r[i].end
    ensures es.None? ==> r == []
    ensures r == OfKind(r, UrlKinds) + OfKind(r, {MentionKind}) + OfKind(r, {HashtagKind}) + OfKind(r, {CashtagKind})
  {
    if es.None? then []
    else
      var urls := UrlEntries(es.value.urls.GetOr([]), skip);
      var mentions := MentionEntries(es.value.mentions.GetOr([]));
      var hashtags := HashtagEntries(es.value.hashtags.GetOr([]), encode);
      var cashtags := CashtagEntries(es.value.symbols.GetOr([]), encode);
      PushedForward(es.value, skip, encode);
      KindBlocks(urls, mentions, hashtags, cashtags);
      urls + mentions + hashtags + cashtags
  }

  /** Each kind's block of the collected list is exactly what its builder
      makes of the tweet's entities of that kind, in their order. */
  lemma CollectedByKind(es: Entities, skip: set<string>, encode: string -> string)
    ensures OfKind(Collected(Some(es), skip, encode), UrlKinds) == UrlEntries(es.urls.GetOr([]), skip)
    ensures OfKind(Collected(Some(es), skip, encode), {MentionKind}) == MentionEntries(es.mentions.GetOr([]))
    ensures OfKind(Collected(Some(es), skip, encode), {HashtagKind}) == HashtagEntries(es.hashtags.GetOr([]), encode)
    ensures OfKind(Collected(Some(es), skip, encode), {CashtagKind}) == CashtagEntries(es.symbols.GetOr([]), encode)
  {
    KindBlocks(UrlEntries(es.urls.GetOr([]), skip), MentionEntries(es.mentions.GetOr([])),
               HashtagEntries(es.hashtags.GetOr([]), encode), CashtagEntries(es.symbols.GetOr([]), encode));
  }

  /** Four lists, each of one kind group, concatenated: filtering by a
      group gives back its list. */
  lemma KindBlocks(a: seq<Entity>, b: seq<Entity>, c: seq<Entity>, d: seq<Entity>)
    requires forall i :: 0 <= i < |a| ==> a[i].kind == UrlKind || a[i].kind == SkipKind
    requires forall i :: 0 <= i < |b| ==> b[i].kind == MentionKind
    requires forall i :: 0 <= i < |c| ==> c[i].kind == HashtagKind
    requires forall i :: 0 <= i < |d| ==> d[i].kind == CashtagKind
    ensures OfKind(a + b + c + d, UrlKinds) == a
    ensures OfKind(a + b + c + d, {MentionKind}) == b
    ensures OfKind(a + b + c + d, {HashtagKind}) == c
    ensures OfKind(a + b + c + d, {CashtagKind}) == d
  {
    UrlBlock(a, b, c, d);
    MentionBlock(a, b, c, d);
    HashtagBlock(a, b, c, d);
    CashtagBlock(a, b, c, d);
  }

  lemma UrlBlock(a: seq<Entity>, b: seq<Entity>, c: seq<Entity>, d: seq<Entity>)
    requires forall i :: 0 <= i < |a| ==> a[i].kind == UrlKind || a[i].kind == SkipKind
    requires forall i :: 0 <= i < |b| ==> b[i].kind == MentionKind
    requires forall i :: 0 <= i < |c| ==> c[i].kind == HashtagKind
    requires forall i :: 0 <= i < |d| ==> d[i].kind == CashtagKind
    ensures OfKind(a + b + c + d, UrlKinds) == a
  {
    OfKindAll(a, UrlKinds); OfKindNone(b, UrlKinds); OfKindNone(c, UrlKinds); OfKindNone(d, UrlKinds);
    KindBlock(a, b, c, d, UrlKinds);
    assert a + [] + [] + [] == a;
  }

  lemma MentionBlock(a: seq<Entity>, b: seq<Entity>, c: seq<Entity>, d: seq<Entity>)
    requires forall i :: 0 <= i < |a| ==> a[i].kind == UrlKind || a[i].kind == SkipKind
    requires forall i :: 0 <= i < |b| ==> b[i].kind == MentionKind
    requires forall i :: 0 <= i < |c| ==> c[i].kind == HashtagKind
    requires forall i :: 0 <= i < |d| ==> d[i].kind == CashtagKind
    ensures OfKind(a + b + c + d, {MentionKind}) == b
  {
    OfKindNone(a, {MentionKind}); OfKindAll(b, {MentionKind}); OfKindNone(c, {MentionKind}); OfKindNone(d, {MentionKind});
    KindBlock(a, b, c, d, {MentionKind});
    assert [] + b + [] + [] == b;
  }

  lemma HashtagBlock(a: seq<Entity>, b: seq<Entity>, c: seq<Entity>, d: seq<Entity>)
    requires forall i :: 0 <= i < |a| ==> a[i].kind == UrlKind || a[i].kind == SkipKind
    requires forall i :: 0 <= i < |b| ==> b[i].kind == MentionKind
    requires forall i :: 0 <= i < |c| ==> c[i].kind == HashtagKind
    requires forall i :: 0 <= i < |d| ==> d[i].kind == CashtagKind
    ensures OfKind(a + b + c + d, {HashtagKind}) == c
  {
    OfKindNone(a, {HashtagKind}); OfKindNone(b, {HashtagKind}); OfKindAll(c, {HashtagKind}); OfKindNone(d, {HashtagKind});
    KindBlock(a, b, c, d, {HashtagKind});
    assert [] + [] + c + [] == c;
  }

  lemma CashtagBlock(a: seq<Entity>, b: seq<Entity>, c: seq<Entity>, d: seq<Entity>)
    requires forall i :: 0 <= i < |a| ==> a[i].kind == UrlKind || a[i].kind == SkipKind
    requires forall i :: 0 <= i < |b| ==> b[i].kind == MentionKind
    requires forall i :: 0 <= i < |c| ==> c[i].kind == HashtagKind
    requires forall i :: 0 <= i < |d| ==> d[i].kind == CashtagKind
    ensures OfKind(a + b + c + d, {CashtagKind}) == d
  {
    OfKindNone(a, {CashtagKind}); OfKindNone(b, {CashtagKind}); OfKindNone(c, {CashtagKind}); OfKindAll(d, {CashtagKind});
    KindBlock(a, b, c, d, {CashtagKind});
    assert [] + [] + [] + d == d;
  }

  lemma KindBlock(a: seq<Entity>, b: seq<Entity>, c: seq<Entity>, d: seq<Entity>, kinds: set<Kind>)
    ensures OfKind(a + b + c + d, kinds) == OfKind(a, kinds) + OfKind(b, kinds) + OfKind(c, kinds) + OfKind(d, kinds)
  {
    OfKindAppend(a + b + c, d, kinds);
    OfKindAppend(a + b, c, kinds);
    OfKindAppend(a, b, kinds);
  }

  lemma PushedForward(es: Entities, skip: set<string>, encode: string -> string)
    ensures forall e :: e in UrlEntries(es.urls.GetOr([]), skip) ==> e.start < e.end
    ensures forall e :: e in MentionEntries(es.mentions.GetOr([])) ==> e.start < e.end
    ensures forall e :: e in HashtagEntries(es.hashtags.GetOr([]), encode) ==> e.start < e.end
    ensures forall e :: e in CashtagEntries(es.symbols.GetOr([]), encode) ==> e.start < e.end
  {
    UrlsForward(es.urls.GetOr([]), skip);
    MentionsForward(es.mentions.GetOr([]));
    HashtagsForward(es.hashtags.GetOr([]), encode);
    CashtagsForward(es.symbols.GetOr([]), encode);
  }

  lemma {:induction false} UrlsForward(us: seq<UrlEntity>, skip: set<string>)
    ensures forall e :: e in UrlEntries(us, skip) ==> e.start < e.end
  {
    if us != [] { UrlsForward(us[1..], skip); }
  }

  lemma {:induction false} MentionsForward(ms: seq<MentionEntity>)
    ensures forall e :: e in MentionEntries(ms) ==> e.start < e.end
  {
    if ms != [] { MentionsForward(ms[1..]); }
  }

  lemma {:induction false} HashtagsForward(hs: seq<HashtagEntity>, encode: string -> string)
    ensures forall e :: e in HashtagEntries(hs, encode) ==> e.start < e.end
  {
    if hs != [] { HashtagsForward(hs[1..], encode); }
  }

  lemma {:induction false} CashtagsForward(ss: seq<SymbolEntity>, encode: string -> string)
    ensures forall e :: e in CashtagEntries(ss, encode) ==> e.start < e.end
  {
    if ss != [] { CashtagsForward(ss[1..], encode); }
  }

  /** A node: plain text numbered in order, or an entity's link keyed by
      its place in the sorted list, with the characters it covers. */
  datatype Node =
    | TextNode(key: nat, text: string)
    | EntityNode(key: nat, kind: Kind, href: Option<string>, content: string, covered: string)

  function Max(a: int, b: int): int { if a < b then b else a }
  function Min(a: int, b: int): int { if a < b then a else b }

  /** `pushPlain`. */
  function Plain(chars: string, from: int, to: int, keyIndex: nat): (r: (seq<Node>, nat))
    ensures to <= from || Slice(chars, from, to) == "" ==> r == ([], keyIndex)
    ensures to > from && Slice(chars, from, to) != "" ==> r == ([TextNode(keyIndex, Slice(chars, from, to))], keyIndex + 1)
  {
    if to <= from then ([], keyIndex)
    else
      var value := Slice(chars, from, to);
      if value == "" then ([], keyIndex) else ([TextNode(keyIndex, value)], keyIndex + 1)
  }

  /** The loop over the sorted entities, the `index`-th first, inside the
      display range [lo, hi): an entity wholly outside it is passed over;
      otherwise it is clipped to it, the gap before it is added, then its
      link unless it is skipped, and the cursor moves to its clipped end.
      The trailing plain text runs to `hi`. */
  function Walk(chars: string, es: seq<Entity>, index: nat, lo: int, hi: int, cursor: int, keyIndex: nat): (r: seq<Node>)
    ensures forall i :: 0 <= i < |r| && r[i].TextNode? ==> r[i].text != ""
    ensures forall i :: 0 <= i < |r| && r[i].EntityNode? ==> r[i].kind != SkipKind && index <= r[i].key < index + |es|
    decreases |es|
  {
    if es == [] then Plain(chars, cursor, hi, keyIndex).0
    else
      var e := es[0];
      if e.end <= lo || e.start >= hi then Walk(chars, es[1..], index + 1, lo, hi, cursor, keyIndex)
      else
        var s := Max(e.start, lo);
        var t := Min(e.end, hi);
        var gap := Plain(chars, cursor, s, keyIndex);
        var covered := Slice(chars, s, t);
        var link := if e.kind == SkipKind then [] else [EntityNode(index, e.kind, e.href, e.display.GetOr(covered), covered)];
        var rest := Walk(chars, es[1..], index + 1, lo, hi, t, gap.1);
        var r := gap.0 + link + rest;
        assert forall i :: |gap.0| + |link| <= i < |r| ==> r[i] == rest[i - |gap.0| - |link|];
        r
  }

  /** One step of `Walk` over an entity that overlaps the display range. */
  lemma WalkOverlap(chars: string, es: seq<Entity>, index: nat, lo: int, hi: int, cursor: int, keyIndex: nat)
    requires es != [] && es[0].end > lo && es[0].start < hi
    ensures Walk(chars, es, index, lo, hi, cursor, keyIndex)
      == Plain(chars, cursor, Max(es[0].start, lo), keyIndex).0 + LinkFor(chars, es[0], index, lo, hi)
         + Walk(chars, es[1..], index + 1, lo, hi, Min(es[0].end, hi), Plain(chars, cursor, Max(es[0].start, lo), keyIndex).1)
  {
  }

  /** The link `Walk` emits for an entity overlapping the display range:
      none for a skipped one. */
  function LinkFor(chars: string, e: Entity, index: nat, lo: int, hi: int): seq<Node> {
    var covered := Slice(chars, Max(e.start, lo), Min(e.end, hi));
    if e.kind == SkipKind then [] else [EntityNode(index, e.kind, e.href, e.display.GetOr(covered), covered)]
  }

  /** A link node names the entity at its key, counted from `index`: same
      kind and target, and the entity overlaps the display range. */
  predicate NamesEntity(n: Node, es: seq<Entity>, index: nat, lo: int, hi: int) {
    n.EntityNode? && index <= n.key < index + |es|
    && var e := es[n.key - index];
    e.kind == n.kind && e.href == n.href && e.end > lo && e.start < hi
  }

  /** `n` is the link node keyed `key`. */
  predicate LinkKeyed(n: Node, key: int) {
    n.EntityNode? && n.key == key
  }

  /** Some node of `r` is the link keyed `key`. */
  predicate HasLink(r: seq<Node>, key: int) {
    exists i :: 0 <= i < |r| && LinkKeyed(r[i], key)
  }

  lemma ShiftNames(n: Node, es: seq<Entity>, index: nat, lo: int, hi: int)
    requires n.EntityNode? && es != [] && NamesEntity(n, es[1..], index + 1, lo, hi)
    ensures NamesEntity(n, es, index, lo, hi)
  {
    assert es[1..][n.key - index - 1] == es[n.key - index];
  }

  /** Every link node is keyed by the position of the entity it renders. */
  lemma {:induction false} WalkLinksSound(chars: string, es: seq<Entity>, index: nat, lo: int, hi: int, cursor: int, keyIndex: nat)
    ensures var r := Walk(chars, es, index, lo, hi, cursor, keyIndex);
      forall i :: 0 <= i < |r| && r[i].EntityNode? ==> NamesEntity(r[i], es, index, lo, hi)
  {
    var r := Walk(chars, es, index, lo, hi, cursor, keyIndex);
    forall i | 0 <= i < |r| && r[i].EntityNode? ensures NamesEntity(r[i], es, index, lo, hi) {
      WalkLinkAt(chars, es, index, lo, hi, cursor, keyIndex, i);
    }
  }

  lemma {:induction false} WalkLinkAt(chars: string, es: seq<Entity>, index: nat, lo: int, hi: int, cursor: int, keyIndex: nat, i: nat)
    requires i < |Walk(chars, es, index, lo, hi, cursor, keyIndex)|
    requires Walk(chars, es, index, lo, hi, cursor, keyIndex)[i].EntityNode?
    ensures NamesEntity(Walk(chars, es, index, lo, hi, cursor, keyIndex)[i], es, index, lo, hi)
    decreases |es|
  {
    var r := Walk(chars, es, index, lo, hi, cursor, keyIndex);
    if es != [] {
      var e := es[0];
      if e.end <= lo || e.start >= hi {
        assert r == Walk(chars, es[1..], index + 1, lo, hi, cursor, keyIndex);
        WalkLinkAt(chars, es[1..], index + 1, lo, hi, cursor, keyIndex, i);
        ShiftNames(r[i], es, index, lo, hi);
      } else {
        var t := Min(e.end, hi);
        var gap := Plain(chars, cursor, Max(e.start, lo), keyIndex);
        var link := LinkFor(chars, e, index, lo, hi);
        var rest := Walk(chars, es[1..], index + 1, lo, hi, t, gap.1);
        WalkOverlap(chars, es, index, lo, hi, cursor, keyIndex);
        var k := |gap.0| + |link|;
        if i >= k {
          assert r[i] == rest[i - k];
          WalkLinkAt(chars, es[1..], index + 1, lo, hi, t, gap.1, i - k);
          ShiftNames(rest[i - k], es, index, lo, hi);
        } else if i >= |gap.0| {
          assert r[i] == link[i - |gap.0|];
        }
      }
    }
  }

  /** Every entity that is not skipped and overlaps the display range gets
      a link node keyed by its position. */
  lemma {:induction false} WalkLinksComplete(chars: string, es: seq<Entity>, index: nat, lo: int, hi: int, cursor: int, keyIndex: nat)
    ensures forall j :: 0 <= j < |es| && es[j].kind != SkipKind && es[j].end > lo && es[j].start < hi ==>
      HasLink(Walk(chars, es, index, lo, hi, cursor, keyIndex), index + j)
  {
    forall j | 0 <= j < |es| && es[j].kind != SkipKind && es[j].end > lo && es[j].start < hi
      ensures HasLink(Walk(chars, es, index, lo, hi, cursor, keyIndex), index + j)
    {
      WalkLinkFor(chars, es, index, lo, hi, cursor, keyIndex, j);
    }
  }

  /** The `j`-th entity, when it overlaps and is not skipped, has its link. */
  lemma {:induction false} WalkLinkFor(chars: string, es: seq<Entity>, index: nat, lo: int, hi: int, cursor: int, keyIndex: nat, j: nat)
    requires j < |es| && es[j].kind != SkipKind && es[j].end > lo && es[j].start < hi
    ensures HasLink(Walk(chars, es, index, lo, hi, cursor, keyIndex), index + j)
    decreases |es|
  {
    if es[0].end <= lo || es[0].start >= hi {
      assert j > 0 && es[1..][j - 1] == es[j];
      WalkLinkFor(chars, es[1..], index + 1, lo, hi, cursor, keyIndex, j - 1);
      assert Walk(chars, es, index, lo, hi, cursor, keyIndex) == Walk(chars, es[1..], index + 1, lo, hi, cursor, keyIndex);
    } else if j == 0 {
      WalkLinkHere(chars, es, index, lo, hi, cursor, keyIndex);
    } else {
      assert es[1..][j - 1] == es[j];
      var t := Min(es[0].end, hi);
      var k := Plain(chars, cursor, Max(es[0].start, lo), keyIndex).1;
      WalkLinkFor(chars, es[1..], index + 1, lo, hi, t, k, j - 1);
      WalkLinkLater(chars, es, index, lo, hi, cursor, keyIndex, index + j);
    }
  }

  /** The link of the first entity, when it overlaps and is not skipped. */
  lemma WalkLinkHere(chars: string, es: seq<Entity>, index: nat, lo: int, hi: int, cursor: int, keyIndex: nat)
    requires es != [] && es[0].kind != SkipKind && es[0].end > lo && es[0].start < hi
    ensures HasLink(Walk(chars, es, index, lo, hi, cursor, keyIndex), index)
  {
    var gap := Plain(chars, cursor, Max(es[0].start, lo), keyIndex);
    var link := LinkFor(chars, es[0], index, lo, hi);
    var rest := Walk(chars, es[1..], index + 1, lo, hi, Min(es[0].end, hi), gap.1);
    WalkOverlap(chars, es, index, lo, hi, cursor, keyIndex);
    KeyedAfter(gap.0, link + rest, 0, index);
    assert gap.0 + (link + rest) == gap.0 + link + rest;
    assert LinkKeyed(Walk(chars, es, index, lo, hi, cursor, keyIndex)[|gap.0|], index);
  }

  /** A link of the entities after an overlapping first one keeps its key,
      shifted past the first one's gap and link. */
  lemma WalkLinkLater(chars: string, es: seq<Entity>, index: nat, lo: int, hi: int, cursor: int, keyIndex: nat, key: int)
    requires es != [] && es[0].end > lo && es[0].start < hi
    requires HasLink(Walk(chars, es[1..], index + 1, lo, hi, Min(es[0].end, hi), Plain(chars, cursor, Max(es[0].start, lo), keyIndex).1), key)
    ensures HasLink(Walk(chars, es, index, lo, hi, cursor, keyIndex), key)
  {
    var gap := Plain(chars, cursor, Max(es[0].start, lo), keyIndex);
    var link := LinkFor(chars, es[0], index, lo, hi);
    var rest := Walk(chars, es[1..], index + 1, lo, hi, Min(es[0].end, hi), gap.1);
    var k :| 0 <= k < |rest| && LinkKeyed(rest[k], key);
    WalkOverlap(chars, es, index, lo, hi, cursor, keyIndex);
    KeyedAfter(gap.0 + link, rest, k, key);
    assert LinkKeyed(Walk(chars, es, index, lo, hi, cursor, keyIndex)[|gap.0 + link| + k], key);
  }

  lemma KeyedAfter(a: seq<Node>, b: seq<Node>, i: nat, key: int)
    requires i < |b| && LinkKeyed(b[i], key)
    ensures |a| + i < |a + b| && LinkKeyed((a + b)[|a| + i], key)
  {
  }

  /** `buildRichTextNodes`. The card is read first, so a card that throws
      makes the whole call throw, unless the text is empty. */
  function BuildRichTextNodes(t: Tweet, encode: string -> string): (r: Result<seq<Node>>)
    ensures FullTextAndEntities(t).text == "" ==> r == Ok([])
    ensures FullTextAndEntities(t).text != "" ==> (r.Err? <==> TweetCard.ExtractCardInfo(t).Throws?)
    ensures r.Ok? ==> forall i :: 0 <= i < |r.value| && r.value[i].TextNode? ==> r.value[i].text != ""
  {
    var src := FullTextAndEntities(t);
    if src.text == "" then Ok([])
    else
      var card := TweetCard.ExtractCardInfo(t);
      if card.Throws? then Err("TypeError")
      else Ok(NodesOf(src, card, encode))
  }

  /** The sorted entities of a source. */
  function SortedEntities(src: Source, card: TweetCard.Outcome, encode: string -> string): (r: seq<Entity>)
    ensures Sorting.SortedBy(r, EntityStart)
    ensures multiset(r) == multiset(Collected(src.entities, SkipUrls(src, card), encode))
  {
    Sorting.SortBy(Collected(src.entities, SkipUrls(src, card), encode), EntityStart)
  }

  function NodesOf(src: Source, card: TweetCard.Outcome, encode: string -> string): (r: seq<Node>)
    ensures forall i :: 0 <= i < |r| && r[i].TextNode? ==> r[i].text != ""
  {
    var chars := src.text;
    var lo := Max(0, src.range.0);
    var hi := Min(|chars|, src.range.1);
    Walk(chars, SortedEntities(src, card, encode), 0, lo, hi, lo, 0)
  }

  /** The visible characters as a reference: the text from the cursor to
      `hi` with the ranges of skipped entities cut out. */
  function Visible(chars: string, es: seq<Entity>, cursor: nat, hi: nat): string
    requires InsideFrom(es, cursor, hi) && hi <= |chars|
    decreases |es|
  {
    if es == [] then chars[cursor..hi]
    else
      chars[cursor..es[0].start] + (if es[0].kind == SkipKind then "" else chars[es[0].start..es[0].end])
      + Visible(chars, es[1..], es[0].end, hi)
  }

  /** Entities in order from the cursor, inside [cursor, hi], none
      overlapping, each non-empty. */
  predicate InsideFrom(es: seq<Entity>, cursor: int, hi: int) {
    cursor <= hi
    && (forall i :: 0 <= i < |es| ==> cursor <= es[i].start < es[i].end <= hi)
    && (forall i, j :: 0 <= i < j < |es| ==> es[i].end <= es[j].start)
  }

  /** The characters the nodes stand for: plain text and each link's covered
      characters. */
  function Spelled(nodes: seq<Node>): string {
    if nodes == [] then ""
    else (match nodes[0] case TextNode(_, x) => x case EntityNode(_, _, _, _, x) => x) + Spelled(nodes[1..])
  }

  lemma {:induction false} SpelledAppend(a: seq<Node>, b: seq<Node>)
    ensures Spelled(a + b) == Spelled(a) + Spelled(b)
  {
    if a == [] {
      assert a + b == b;
    } else {
      assert (a + b)[0] == a[0] && (a + b)[1..] == a[1..] + b;
      SpelledAppend(a[1..], b);
    }
  }

  lemma PlainSpells(chars: string, from: nat, to: nat, keyIndex: nat)
    requires from <= to <= |chars|
    ensures Spelled(Plain(chars, from, to, keyIndex).0) == chars[from..to]
  {
    var p := Plain(chars, from, to, keyIndex).0;
    if p != [] {
      assert Spelled(p) == chars[from..to] + Spelled([]);
    }
  }

  /** Over entities inside the display range, in order and not
      overlapping, the nodes spell the visible characters: the text with
      only the skipped ranges left out. */
  lemma {:induction false} WalkSpellsVisible(chars: string, es: seq<Entity>, index: nat, lo: nat, hi: nat, cursor: nat, keyIndex: nat)
    requires hi <= |chars| && lo <= cursor && InsideFrom(es, cursor, hi)
    ensures Spelled(Walk(chars, es, index, lo, hi, cursor, keyIndex)) == Visible(chars, es, cursor, hi)
    decreases |es|
  {
    if es == [] {
      PlainSpells(chars, cursor, hi, keyIndex);
    } else {
      var e := es[0];
      var gap := Plain(chars, cursor, e.start, keyIndex);
      InsideRest(es, cursor, hi);
      var rest := Walk(chars, es[1..], index + 1, lo, hi, e.end, gap.1);
      WalkSpellsVisible(chars, es[1..], index + 1, lo, hi, e.end, gap.1);
      StepSpells(chars, e, index, cursor, keyIndex, rest, Visible(chars, es[1..], e.end, hi));
      WalkStep(chars, es, index, lo, hi, cursor, keyIndex);
    }
  }

  lemma InsideRest(es: seq<Entity>, cursor: int, hi: int)
    requires es != [] && InsideFrom(es, cursor, hi)
    ensures InsideFrom(es[1..], es[0].end, hi)
  {
    assert forall i :: 0 <= i < |es| - 1 ==> es[1..][i] == es[i + 1];
  }

  /** An entity inside the range takes the step that clips nothing. */
  lemma WalkStep(chars: string, es: seq<Entity>, index: nat, lo: int, hi: int, cursor: int, keyIndex: nat)
    requires es != [] && lo <= cursor <= es[0].start < es[0].end <= hi
    ensures var e := es[0];
            var gap := Plain(chars, cursor, e.start, keyIndex);
            var covered := Slice(chars, e.start, e.end);
            var link := if e.kind == SkipKind then [] else [EntityNode(index, e.kind, e.href, e.display.GetOr(covered), covered)];
            Walk(chars, es, index, lo, hi, cursor, keyIndex) == gap.0 + link + Walk(chars, es[1..], index + 1, lo, hi, e.end, gap.1)
  {
  }

  /** One entity step inside the range. */
  lemma StepSpells(chars: string, e: Entity, index: nat, cursor: nat, keyIndex: nat, rest: seq<Node>, tail: string)
    requires cursor <= e.start < e.end <= |chars|
    requires Spelled(rest) == tail
    ensures var gap := Plain(chars, cursor, e.start, keyIndex);
            var covered := Slice(chars, e.start, e.end);
            var link := if e.kind == SkipKind then [] else [EntityNode(index, e.kind, e.href, e.display.GetOr(covered), covered)];
            Spelled(gap.0 + link + rest)
              == chars[cursor..e.start] + (if e.kind == SkipKind then "" else chars[e.start..e.end]) + tail
  {
    var gap := Plain(chars, cursor, e.start, keyIndex);
    var covered := Slice(chars, e.start, e.end);
    var link := if e.kind == SkipKind then [] else [EntityNode(index, e.kind, e.href, e.display.GetOr(covered), covered)];
    SpelledAppend(gap.0 + link, rest);
    SpelledAppend(gap.0, link);
    PlainSpells(chars, cursor, e.start, keyIndex);
    if link != [] {
      assert Spelled(link) == chars[e.start..e.end] + Spelled([]);
    }
  }

  /** With no entity skipped, the visible characters are the whole stretch
      from the cursor. */
  lemma {:induction false} VisibleWithoutSkips(chars: string, es: seq<Entity>, cursor: nat, hi: nat)
    requires InsideFrom(es, cursor, hi) && hi <= |chars|
    requires forall i :: 0 <= i < |es| ==> es[i].kind != SkipKind
    ensures Visible(chars, es, cursor, hi) == chars[cursor..hi]
    decreases |es|
  {
    if es != [] {
      assert InsideFrom(es[1..], es[0].end, hi);
      VisibleWithoutSkips(chars, es[1..], es[0].end, hi);
      assert chars[cursor..hi] == chars[cursor..es[0].start] + chars[es[0].start..es[0].end] + chars[es[0].end..hi];
    }
  }

  /** For a tweet whose entities lie inside the display range without
      overlapping, the nodes spell the displayed text with the skipped
      entities cut out, and the whole displayed text when none is
      skipped. */
  lemma NodesSpellDisplay(src: Source, card: TweetCard.Outcome, encode: string -> string)
    requires 0 <= src.range.0 <= src.range.1 <= |src.text|
    requires InsideFrom(SortedEntities(src, card, encode), src.range.0, src.range.1)
    ensures Spelled(NodesOf(src, card, encode))
              == Visible(src.text, SortedEntities(src, card, encode), src.range.0, src.range.1)
    ensures (forall e :: e in SortedEntities(src, card, encode) ==> e.kind != SkipKind) ==>
              Spelled(NodesOf(src, card, encode)) == src.text[src.range.0..src.range.1]
  {
    var es := SortedEntities(src, card, encode);
    assert NodesOf(src, card, encode) == Walk(src.text, es, 0, src.range.0, src.range.1, src.range.0, 0);
    DisplaySpelled(src.text, es, src.range.0, src.range.1);
  }

  lemma DisplaySpelled(chars: string, es: seq<Entity>, lo: nat, hi: nat)
    requires hi <= |chars| && InsideFrom(es, lo, hi)
    ensures Spelled(Walk(chars, es, 0, lo, hi, lo, 0)) == Visible(chars, es, lo, hi)
    ensures (forall e :: e in es ==> e.kind != SkipKind) ==> Spelled(Walk(chars, es, 0, lo, hi, lo, 0)) == chars[lo..hi]
  {
    WalkSpellsVisible(chars, es, 0, lo, hi, lo, 0);
    if forall e :: e in es ==> e.kind != SkipKind {
      VisibleWithoutSkips(chars, es, lo, hi);
    }
  }

  /** `extractName`: the legacy name, else the core's, else a placeholder;
      the screen name likewise, else "unknown". */
  function ExtractName(t: Tweet): (r: (string, string))
    ensures t.user.None? ==> r == ("未知用户", "unknown")
    ensures t.user.Some? && t.user.value.legacy.Some? && t.user.value.legacy.value.name.Some? ==>
              r.0 == t.user.value.legacy.value.name.value
    ensures t.user.Some? && t.user.value.legacy.Some? && t.user.value.legacy.value.screenName.Some? ==>
              r.1 == t.user.value.legacy.value.screenName.value
    ensures (t.user.None? || ((t.user.value.legacy.None? || t.user.value.legacy.value.name.None?)
                              && (t.user.value.core.None? || t.user.value.core.value.name.None?))) ==> r.0 == "未知用户"
  {
    if t.user.None? then ("未知用户", "unknown")
    else
      var l := t.user.value.legacy;
      var c := t.user.value.core;
      (Or(if l.Some? then l.value.name else None, if c.Some? then c.value.name else None).GetOr("未知用户"),
       Or(if l.Some? then l.value.screenName else None, if c.Some? then c.value.screenName else None).GetOr("unknown"))
  }

  datatype Unit = Seconds | Minutes | Hours | Days

  /** `Math.round(n / d)` for n >= 0 and d > 0: half rounds up. */
  function RoundDiv(n: nat, d: nat): (r: nat)
    requires d > 0
    ensures 2 * d * r <= 2 * n + d < 2 * d * r + 2 * d
  {
    (2 * n + d) / (2 * d)
  }

  /** `dateDiff` on two instants in milliseconds: whole seconds (floored)
      apart, then the largest unit under which the gap is not below one,
      rounded to the nearest whole. */
  function DateDiff(a: int, b: int): (r: (Unit, nat))
    ensures var diff := Abs(a / 1000 - b / 1000);
            (r.0 == Seconds <==> diff < 60)
            && (r.0 == Minutes <==> 60 <= diff < 3600)
            && (r.0 == Hours <==> 3600 <= diff < 86400)
            && (r.0 == Days <==> diff >= 86400)
            && (r.0 == Seconds ==> r.1 == diff)
    ensures r.0 == Minutes ==> 1 <= r.1 <= 60
    ensures r.0 == Hours ==> 1 <= r.1 <= 24
    ensures r.0 == Days ==> r.1 >= 1
    ensures var diff := Abs(a / 1000 - b / 1000);
            var unit := match r.0 case Seconds => 1 case Minutes => 60 case Hours => 3600 case Days => 86400;
            2 * unit * r.1 <= 2 * diff + unit < 2 * unit * r.1 + 2 * unit
  {
    var diff := Abs(a / 1000 - b / 1000);
    if diff < 60 then (Seconds, diff)
    else if diff < 3600 then (Minutes, RoundDiv(diff, 60))
    else if diff < 86400 then (Hours, RoundDiv(diff, 3600))
    else (Days, RoundDiv(diff, 86400))
  }

  function Abs(x: int): nat { if x < 0 then -x else x }

  /** The gap is symmetric in its two instants. */
  lemma DateDiffSymmetric(a: int, b: int)
    ensures DateDiff(a, b) == DateDiff(b, a)
  {
  }

  /** The relative form of `formatDateTime` for a parsed date: "now" under a
      minute, the count and unit up to three days, else the calendar date
      (whose `Intl` text is left out). */
  datatype Relative = Now | Ago(value: nat, unit: Unit) | CalendarDate

  function RelativeTime(now: int, date: int): (r: Relative)
    ensures r == Now <==> Abs(now / 1000 - date / 1000) < 60
    ensures r.Ago? ==> r.unit != Seconds && 1 <= r.value && (r.unit == Days ==> r.value <= 3)
    ensures r == CalendarDate <==> DateDiff(now, date).0 == Days && DateDiff(now, date).1 > 3
    ensures r.Ago? ==> DateDiff(now, date) == (r.unit, r.value)
  {
    var d := DateDiff(now, date);
    match d.0
    case Seconds => Now
    case Days => if d.1 <= 3 then Ago(d.1, Days) else CalendarDate
    case _ => Ago(d.1, d.0)
  }
}
