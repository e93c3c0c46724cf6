/** The relation graph of store/tweetsStore.ts: one record per tweet id with
    its reply, quote and retweet links in both directions. Records are
    created lazily the first time an edge touches an id. The two `Set`s of a
    record are kept as insertion-ordered sequences; an absent `Set` and an
    empty one are both `[]` (a `Set` is only ever created together with its
    first element, so the store never holds an empty one). */
module RelationStore {
  import opened Wrappers
  import opened Ordered

  datatype Relation = Relation(
    replyTo: Option<string>,
    quote: Option<string>,
    quoteBy: Option<string>,
    retweet: Option<string>,
    replies: seq<string>,
    retweetBy: seq<string>)

  const EmptyRelation: Relation := Relation(None, None, None, None, [], [])

  type Relations = map<string, Relation>

  datatype EdgeKind = Reply | Quote | Retweet

  function Get(rs: Relations, id: string): (r: Option<Relation>)
    ensures r.Some? <==> id in rs
    ensures r.Some? ==> r.value == rs[id]
  {
    if id in rs then Some(rs[id]) else None
  }

  /** `getOrCreateRelation`: the record of `id`, created empty if missing. */
  function GetOrCreate(rs: Relations, id: string): (r: Relations)
    ensures r.Keys == rs.Keys + {id}
    ensures id in rs ==> r == rs
    ensures id !in rs ==> r[id] == EmptyRelation
    ensures forall k :: k in rs ==> r[k] == rs[k]
  {
    if id in rs then rs else rs[id := EmptyRelation]
  }

  /** `addBidirectionalRelation(source, target, kind)`. Both records are
      created first; the source record is updated, then the target record is
      read back, so that a tweet linked to itself gets both updates on its
      single record, as the shared object does in the source. */
  function AddEdge(rs: Relations, src: string, tgt: string, kind: EdgeKind): (r: Relations)
    ensures r.Keys == rs.Keys + {src, tgt}
    ensures kind == Reply ==> r[src].replyTo == Some(tgt) && src in r[tgt].replies
    ensures kind == Quote ==> r[src].quote == Some(tgt) && r[tgt].quoteBy == Some(src)
    ensures kind == Retweet ==> r[src].retweet == Some(tgt) && src in r[tgt].retweetBy
    ensures forall k :: k in rs && k != src && k != tgt ==> r[k] == rs[k]
    ensures Grows(rs, r)
  {
    var rs1 := GetOrCreate(GetOrCreate(rs, src), tgt);
    match kind
    case Reply => AddReply(rs, rs1, src, tgt)
    case Quote => AddQuote(rs, rs1, src, tgt)
    case Retweet => AddRetweet(rs, rs1, src, tgt)
  }

  /** The three branches of `AddEdge`, on the map with both records
      created. */
  function AddReply(rs: Relations, rs1: Relations, src: string, tgt: string): (r: Relations)
    requires rs1.Keys == rs.Keys + {src, tgt} && forall k :: k in rs ==> rs1[k] == rs[k]
    ensures r.Keys == rs.Keys + {src, tgt}
    ensures r[src].replyTo == Some(tgt) && src in r[tgt].replies
    ensures forall k :: k in rs && k != src && k != tgt ==> r[k] == rs[k]
    ensures Grows(rs, r)
  {
    var rs2 := rs1[src := rs1[src].(replyTo := Some(tgt))];
    var t := rs2[tgt];
    rs2[tgt := t.(replies := SetAdd(t.replies, src))]
  }

  function AddQuote(rs: Relations, rs1: Relations, src: string, tgt: string): (r: Relations)
    requires rs1.Keys == rs.Keys + {src, tgt} && forall k :: k in rs ==> rs1[k] == rs[k]
    ensures r.Keys == rs.Keys + {src, tgt}
    ensures r[src].quote == Some(tgt) && r[tgt].quoteBy == Some(src)
    ensures forall k :: k in rs && k != src && k != tgt ==> r[k] == rs[k]
    ensures Grows(rs, r)
  {
    var rs2 := rs1[src := rs1[src].(quote := Some(tgt))];
    var t := rs2[tgt];
    rs2[tgt := t.(quoteBy := Some(src))]
  }

  function AddRetweet(rs: Relations, rs1: Relations, src: string, tgt: string): (r: Relations)
    requires rs1.Keys == rs.Keys + {src, tgt} && forall k :: k in rs ==> rs1[k] == rs[k]
    ensures r.Keys == rs.Keys + {src, tgt}
    ensures r[src].retweet == Some(tgt) && src in r[tgt].retweetBy
    ensures forall k :: k in rs && k != src && k != tgt ==> r[k] == rs[k]
    ensures Grows(rs, r)
  {
    var rs2 := rs1[src := rs1[src].(retweet := Some(tgt))];
    var t := rs2[tgt];
    rs2[tgt := t.(retweetBy := SetAdd(t.retweetBy, src))]
  }

  /** The links a record's own tweet sets: what it replies to, quotes and
      retweets (all absent without a record). Only storing that tweet
      writes them; an edge into a record touches its back-links only. */
  datatype OwnLinks = OwnLinks(replyTo: Option<string>, quote: Option<string>, retweet: Option<string>)

  function LinksOf(rs: Relations, id: string): OwnLinks {
    if id in rs then OwnLinks(rs[id].replyTo, rs[id].quote, rs[id].retweet) else OwnLinks(None, None, None)
  }

  /** The source's own link of the given kind set to `v`. */
  function SetLink(o: OwnLinks, kind: EdgeKind, v: string): OwnLinks {
    match kind
    case Reply => o.(replyTo := Some(v))
    case Quote => o.(quote := Some(v))
    case Retweet => o.(retweet := Some(v))
  }

  /** An edge sets one own link of its source and no own link of any other
      record, its target included. */
  lemma AddEdgeLinks(rs: Relations, src: string, tgt: string, kind: EdgeKind)
    ensures LinksOf(AddEdge(rs, src, tgt, kind), src) == SetLink(LinksOf(rs, src), kind, tgt)
    ensures LinksKept(rs, AddEdge(rs, src, tgt, kind), {src})
  {
    AddEdgeShape(rs, src, tgt, kind);
  }

  /** No own link of a record outside `ids` differs between the two
      graphs. */
  ghost predicate LinksKept(before: Relations, after: Relations, ids: set<string>) {
    forall k :: k !in ids ==> LinksOf(after, k) == LinksOf(before, k)
  }

  lemma LinksKeptTrans(a: Relations, b: Relations, c: Relations, ids1: set<string>, ids2: set<string>, ids: set<string>)
    requires LinksKept(a, b, ids1) && LinksKept(b, c, ids2) && ids1 + ids2 <= ids
    ensures LinksKept(a, c, ids)
  {
  }

  /** No record disappears and no reply or retweeter is forgotten. */
  ghost predicate Grows(before: Relations, after: Relations) {
    forall k :: k in before ==>
      k in after
      && (forall c :: c in before[k].replies ==> c in after[k].replies)
      && (forall c :: c in before[k].retweetBy ==> c in after[k].retweetBy)
      && (before[k].replyTo.Some? ==> after[k].replyTo.Some?)
      && (before[k].retweet.Some? ==> after[k].retweet.Some?)
  }

  /** Every reply link is mirrored: a tweet that replies to `p` is listed
      among the replies of `p`'s record. */
  ghost predicate RepliesMirrored(rs: Relations) {
    forall x :: x in rs && rs[x].replyTo.Some? ==>
      rs[x].replyTo.value in rs && x in rs[rs[x].replyTo.value].replies
  }

  /** Every retweet link is mirrored in the target's `retweetBy`. */
  ghost predicate RetweetsMirrored(rs: Relations) {
    forall x :: x in rs && rs[x].retweet.Some? ==>
      rs[x].retweet.value in rs && x in rs[rs[x].retweet.value].retweetBy
  }

  ghost predicate Mirrored(rs: Relations) {
    RepliesMirrored(rs) && RetweetsMirrored(rs)
  }

  /** Adding any edge keeps reply and retweet links mirrored. */
  lemma AddEdgeKeepsMirrored(rs: Relations, src: string, tgt: string, kind: EdgeKind)
    ensures Mirrored(rs) ==> Mirrored(AddEdge(rs, src, tgt, kind))
  {
    if !Mirrored(rs) { return; }
    var r := AddEdge(rs, src, tgt, kind);
    forall x | x in r && r[x].replyTo.Some?
      ensures r[x].replyTo.value in r && x in r[r[x].replyTo.value].replies
    {
      ReplyLinkKept(rs, src, tgt, kind, x);
    }
    forall x | x in r && r[x].retweet.Some?
      ensures r[x].retweet.value in r && x in r[r[x].retweet.value].retweetBy
    {
      RetweetLinkKept(rs, src, tgt, kind, x);
    }
  }

  /** One reply link after an edge: the new one is mirrored by the edge
      itself, an old one by the record it was already mirrored in. */
  lemma ReplyLinkKept(rs: Relations, src: string, tgt: string, kind: EdgeKind, x: string)
    requires RepliesMirrored(rs)
    requires var r := AddEdge(rs, src, tgt, kind); x in r && r[x].replyTo.Some?
    ensures var r := AddEdge(rs, src, tgt, kind); r[x].replyTo.value in r && x in r[r[x].replyTo.value].replies
  {
    var r := AddEdge(rs, src, tgt, kind);
    if !(x == src && kind == Reply) {
      assert x in rs && r[x].replyTo == rs[x].replyTo;
      var p := rs[x].replyTo.value;
      assert p in rs && x in rs[p].replies;
      assert Grows(rs, r);
      assert x in r[p].replies;
    }
  }

  /** One retweet link after an edge, likewise. */
  lemma RetweetLinkKept(rs: Relations, src: string, tgt: string, kind: EdgeKind, x: string)
    requires RetweetsMirrored(rs)
    requires var r := AddEdge(rs, src, tgt, kind); x in r && r[x].retweet.Some?
    ensures var r := AddEdge(rs, src, tgt, kind); r[x].retweet.value in r && x in r[r[x].retweet.value].retweetBy
  {
    var r := AddEdge(rs, src, tgt, kind);
    if !(x == src && kind == Retweet) {
      assert x in rs && r[x].retweet == rs[x].retweet;
      var p := rs[x].retweet.value;
      assert p in rs && x in rs[p].retweetBy;
      assert Grows(rs, r);
      assert x in r[p].retweetBy;
    }
  }

  /** `quoteBy` holds one quoter: a second quote of the same tweet
      overwrites the first, so the first quoter's `quote` link is no longer
      mirrored. */
  lemma QuoteByLastWriterWins(a: string, b: string, q: string)
    requires a != b && a != q && b != q
    ensures var rs := AddEdge(AddEdge(map[], a, q, Quote), b, q, Quote);
      rs[a].quote == Some(q) && rs[q].quoteBy == Some(b)
  {
  }

  /** A tweet linked to itself gets both ends of the edge on one record. */
  lemma SelfReplyEdge(rs: Relations, id: string)
    ensures AddEdge(rs, id, id, Reply)[id].replyTo == Some(id)
    ensures id in AddEdge(rs, id, id, Reply)[id].replies
  {
  }

  /* ----------------------- edits, one record each ---------------------- */

  /** The scalar fields of a record. */
  datatype Scalar = ReplyToField | QuoteField | QuoteByField | RetweetField

  /** The two `Set` fields of a record. */
  datatype Collection = RepliesField | RetweetByField

  /** The single-record edits an edge or a refresh consists of. An
      assignment or an insertion creates the record first if it is
      missing. */
  datatype CellOp =
    | Reset
    | Assign(field: Scalar, value: string)
    | Insert(coll: Collection, value: string)

  datatype RelOp = RelOp(cell: string, op: CellOp)

  function SetScalar(r: Relation, f: Scalar, v: string): Relation {
    match f
    case ReplyToField => r.(replyTo := Some(v))
    case QuoteField => r.(quote := Some(v))
    case QuoteByField => r.(quoteBy := Some(v))
    case RetweetField => r.(retweet := Some(v))
  }

  function AddTo(r: Relation, c: Collection, v: string): Relation {
    match c
    case RepliesField => r.(replies := SetAdd(r.replies, v))
    case RetweetByField => r.(retweetBy := SetAdd(r.retweetBy, v))
  }

  function ApplyCell(x: Option<Relation>, op: CellOp): (r: Option<Relation>)
    ensures op.Reset? <==> r.None?
  {
    match op
    case Reset => None
    case Assign(f, v) => Some(SetScalar(x.GetOr(EmptyRelation), f, v))
    case Insert(c, v) => Some(AddTo(x.GetOr(EmptyRelation), c, v))
  }

  /** Stores `x` as the record of `id`, or removes the record when `x` is
      `None`. */
  function Put(rs: Relations, id: string, x: Option<Relation>): (r: Relations)
    ensures Get(r, id) == x
    ensures forall k :: k != id ==> Get(r, k) == Get(rs, k)
  {
    if x.Some? then rs[id := x.value] else rs - {id}
  }

  function ApplyRelOp(rs: Relations, o: RelOp): Relations {
    Put(rs, o.cell, ApplyCell(Get(rs, o.cell), o.op))
  }

  function ApplyRelOps(rs: Relations, ops: seq<RelOp>): Relations
    decreases |ops|
  {
    if ops == [] then rs else ApplyRelOps(ApplyRelOp(rs, ops[0]), ops[1..])
  }

  /** The edits of one edge: set the source's link, then add the source to
      (or set it as) the target's back-link. */
  function EdgeOps(src: string, tgt: string, kind: EdgeKind): seq<RelOp> {
    match kind
    case Reply => [RelOp(src, Assign(ReplyToField, tgt)), RelOp(tgt, Insert(RepliesField, src))]
    case Quote => [RelOp(src, Assign(QuoteField, tgt)), RelOp(tgt, Assign(QuoteByField, src))]
    case Retweet => [RelOp(src, Assign(RetweetField, tgt)), RelOp(tgt, Insert(RetweetByField, src))]
  }

  /** An edge is exactly its two single-record edits. */
  lemma AddEdgeAsOps(rs: Relations, src: string, tgt: string, kind: EdgeKind)
    ensures AddEdge(rs, src, tgt, kind) == ApplyRelOps(rs, EdgeOps(src, tgt, kind))
  {
    var ops := EdgeOps(src, tgt, kind);
    TwoOps(rs, ops[0], ops[1]);
    var q := ApplyRelOp(ApplyRelOp(rs, ops[0]), ops[1]);
    var r := AddEdge(rs, src, tgt, kind);
    forall id ensures Get(r, id) == Get(q, id) {
      EdgeCell(rs, src, tgt, kind, id);
    }
    RelationsEqual(r, q);
  }

  lemma TwoOps(rs: Relations, o1: RelOp, o2: RelOp)
    ensures ApplyRelOps(rs, [o1, o2]) == ApplyRelOp(ApplyRelOp(rs, o1), o2)
  {
    var a := ApplyRelOp(rs, o1);
    assert [o1, o2][1..] == [o2];
    assert ApplyRelOps(rs, [o1, o2]) == ApplyRelOps(a, [o2]);
    assert [o2][1..] == [];
    assert ApplyRelOps(a, [o2]) == ApplyRelOps(ApplyRelOp(a, o2), []);
  }

  lemma EdgeCell(rs: Relations, src: string, tgt: string, kind: EdgeKind, id: string)
    ensures var ops := EdgeOps(src, tgt, kind);
      Get(AddEdge(rs, src, tgt, kind), id) == Get(ApplyRelOp(ApplyRelOp(rs, ops[0]), ops[1]), id)
  {
    var f := SourceField(kind);
    var op := TargetEdit(kind, src);
    AddEdgeShape(rs, src, tgt, kind);
    EdgeCellGeneric(rs, src, tgt, f, op, id);
  }

  function SourceField(kind: EdgeKind): Scalar {
    match kind
    case Reply => ReplyToField
    case Quote => QuoteField
    case Retweet => RetweetField
  }

  function TargetEdit(kind: EdgeKind, src: string): CellOp {
    match kind
    case Reply => Insert(RepliesField, src)
    case Quote => Assign(QuoteByField, src)
    case Retweet => Insert(RetweetByField, src)
  }

  /** An edge sets the source's field on the map with both records
      created, then edits the target's record as it now stands. */
  lemma AddEdgeShape(rs: Relations, src: string, tgt: string, kind: EdgeKind)
    ensures EdgeOps(src, tgt, kind) == [RelOp(src, Assign(SourceField(kind), tgt)), RelOp(tgt, TargetEdit(kind, src))]
    ensures var rs1 := GetOrCreate(GetOrCreate(rs, src), tgt);
      var rs2 := rs1[src := SetScalar(rs1[src], SourceField(kind), tgt)];
      AddEdge(rs, src, tgt, kind) == rs2[tgt := ApplyCell(Some(rs2[tgt]), TargetEdit(kind, src)).value]
  {
    match kind
    case Reply =>
    case Quote =>
    case Retweet =>
  }

  /** An assignment to the source, then an edit of the target, on the map
      with both records created is the same as the two edits. */
  lemma EdgeCellGeneric(rs: Relations, src: string, tgt: string, f: Scalar, op: CellOp, id: string)
    requires !op.Reset?
    ensures var rs1 := GetOrCreate(GetOrCreate(rs, src), tgt);
      var rs2 := rs1[src := SetScalar(rs1[src], f, tgt)];
      Get(rs2[tgt := ApplyCell(Some(rs2[tgt]), op).value], id)
      == Get(ApplyRelOp(ApplyRelOp(rs, RelOp(src, Assign(f, tgt))), RelOp(tgt, op)), id)
  {
    var rs1 := GetOrCreate(GetOrCreate(rs, src), tgt);
    var rs2 := rs1[src := SetScalar(rs1[src], f, tgt)];
    var a := ApplyRelOp(rs, RelOp(src, Assign(f, tgt)));
    assert Get(a, src) == Some(rs2[src]);
    assert Get(a, tgt).GetOr(EmptyRelation) == rs2[tgt];
    if id == tgt {
    } else if id == src {
    } else {
      assert Get(a, id) == Get(rs, id);
    }
  }

  lemma {:induction false} ApplyRelOpsAppend(rs: Relations, a: seq<RelOp>, b: seq<RelOp>)
    ensures ApplyRelOps(rs, a + b) == ApplyRelOps(ApplyRelOps(rs, a), b)
    decreases |a|
  {
    if a != [] {
      assert (a + b)[1..] == a[1..] + b;
      ApplyRelOpsAppend(ApplyRelOp(rs, a[0]), a[1..], b);
    } else {
      assert a + b == b;
    }
  }

  /* ------------------------- summarised effects ------------------------ */

  /** What a run of edits does to one record: whether it was reset (only
      the edits after the last reset matter), whether an edit after that
      touched (created) it, the last value written to each scalar field and
      the elements inserted into each collection, in order. */
  datatype CellEffect =
    | Untouched(reset: bool)
    | Touched(
        reset: bool,
        replyTo: Option<string>,
        quote: Option<string>,
        quoteBy: Option<string>,
        retweet: Option<string>,
        replies: seq<string>,
        retweetBy: seq<string>)

  const NoEffect: CellEffect := Untouched(false)

  function Overlay(r: Relation, e: CellEffect): Relation
    requires e.Touched?
  {
    Relation(
      Or(e.replyTo, r.replyTo), Or(e.quote, r.quote), Or(e.quoteBy, r.quoteBy), Or(e.retweet, r.retweet),
      SetAddAll(r.replies, e.replies), SetAddAll(r.retweetBy, e.retweetBy))
  }

  function ApplyEffect(x: Option<Relation>, e: CellEffect): Option<Relation> {
    var base := if e.reset then None else x;
    if e.Touched? then Some(Overlay(base.GetOr(EmptyRelation), e)) else base
  }

  /** The effect as a touching one, with nothing written yet if it did not
      touch the record. */
  function Touch(e: CellEffect): (t: CellEffect)
    ensures t.Touched? && t.reset == e.reset
  {
    if e.Touched? then e else Touched(e.reset, None, None, None, None, [], [])
  }

  /** The effect of the edits so far followed by one more edit. */
  function Extend(e: CellEffect, op: CellOp): (r: CellEffect)
    ensures !op.Reset? ==> r.Touched? && r.reset == e.reset
  {
    match op
    case Reset => Untouched(true)
    case Assign(f, v) => Written(Touch(e), f, v)
    case Insert(c, v) => Inserted(Touch(e), c, v)
  }

  function Written(t: CellEffect, f: Scalar, v: string): (r: CellEffect)
    requires t.Touched?
    ensures r.Touched? && r.reset == t.reset
  {
    match f
    case ReplyToField => t.(replyTo := Some(v))
    case QuoteField => t.(quote := Some(v))
    case QuoteByField => t.(quoteBy := Some(v))
    case RetweetField => t.(retweet := Some(v))
  }

  function Inserted(t: CellEffect, c: Collection, v: string): (r: CellEffect)
    requires t.Touched?
    ensures r.Touched? && r.reset == t.reset
  {
    match c
    case RepliesField => t.(replies := t.replies + [v])
    case RetweetByField => t.(retweetBy := t.retweetBy + [v])
  }

  lemma NoEffectIsIdentity(x: Option<Relation>)
    ensures ApplyEffect(x, NoEffect) == x
  {
  }

  /** Touching changes nothing by itself but the creation of the record. */
  lemma TouchSound(x: Option<Relation>, e: CellEffect)
    ensures ApplyEffect(x, Touch(e)) == Some(ApplyEffect(x, e).GetOr(EmptyRelation))
  {
    if !e.Touched? {
      var base := (if e.reset then None else x).GetOr(EmptyRelation);
      assert SetAddAll(base.replies, []) == base.replies;
      assert SetAddAll(base.retweetBy, []) == base.retweetBy;
    }
  }

  lemma OverlayAssign(r: Relation, t: CellEffect, f: Scalar, v: string)
    requires t.Touched?
    ensures Overlay(r, Written(t, f, v)) == SetScalar(Overlay(r, t), f, v)
  {
  }

  lemma OverlayInsert(r: Relation, t: CellEffect, c: Collection, v: string)
    requires t.Touched?
    ensures Overlay(r, Inserted(t, c, v)) == AddTo(Overlay(r, t), c, v)
  {
    SetAddAllSnoc(r.replies, t.replies, v);
    SetAddAllSnoc(r.retweetBy, t.retweetBy, v);
  }

  /** Applying an extended effect is applying the effect, then the edit. */
  lemma ExtendSound(x: Option<Relation>, e: CellEffect, op: CellOp)
    ensures ApplyEffect(x, Extend(e, op)) == ApplyCell(ApplyEffect(x, e), op)
  {
    TouchSound(x, e);
    var t := Touch(e);
    var base := (if e.reset then None else x).GetOr(EmptyRelation);
    assert ApplyEffect(x, e).GetOr(EmptyRelation) == Overlay(base, t);
    match op
    case Reset =>
    case Assign(f, v) =>
      OverlayAssign(base, t, f, v);
    case Insert(c, v) =>
      OverlayInsert(base, t, c, v);
  }

  /** A summarised effect is idempotent: the scalar writes are final and the
      insertions are already present the second time. */
  lemma ApplyEffectIdempotent(x: Option<Relation>, e: CellEffect)
    ensures ApplyEffect(ApplyEffect(x, e), e) == ApplyEffect(x, e)
  {
    if e.Touched? && !e.reset {
      var r := x.GetOr(EmptyRelation);
      SetAddAllIdempotent(r.replies, e.replies);
      SetAddAllIdempotent(r.retweetBy, e.retweetBy);
    }
  }

  /* The summary of a run of edits over the whole graph: one effect per
     record the run mentions. */
  type RelSummary = map<string, CellEffect>

  function EffectOf(s: RelSummary, id: string): CellEffect {
    if id in s then s[id] else NoEffect
  }

  function ExtendSummary(s: RelSummary, o: RelOp): RelSummary {
    s[o.cell := Extend(EffectOf(s, o.cell), o.op)]
  }

  function CellAfter(rs: Relations, s: RelSummary, id: string): Option<Relation> {
    ApplyEffect(Get(rs, id), EffectOf(s, id))
  }

  function ApplySummary(rs: Relations, s: RelSummary): (r: Relations)
    ensures forall id :: Get(r, id) == CellAfter(rs, s, id)
  {
    var r := map id | id in rs.Keys + s.Keys && CellAfter(rs, s, id).Some? :: CellAfter(rs, s, id).value;
    assert forall id :: id !in rs.Keys + s.Keys ==> CellAfter(rs, s, id) == None by {
      forall id | id !in rs.Keys + s.Keys { NoEffectIsIdentity(Get(rs, id)); }
    }
    r
  }

  lemma RelationsEqual(a: Relations, b: Relations)
    requires forall id :: Get(a, id) == Get(b, id)
    ensures a == b
  {
    assert a.Keys == b.Keys by {
      forall id ensures id in a <==> id in b { assert Get(a, id).Some? == Get(b, id).Some?; }
    }
    forall id | id in a ensures a[id] == b[id] { assert Get(a, id) == Get(b, id); }
  }

  lemma ExtendSummarySound(rs: Relations, s: RelSummary, o: RelOp)
    ensures ApplySummary(rs, ExtendSummary(s, o)) == ApplyRelOp(ApplySummary(rs, s), o)
  {
    var lhs := ApplySummary(rs, ExtendSummary(s, o));
    var rhs := ApplyRelOp(ApplySummary(rs, s), o);
    forall id ensures Get(lhs, id) == Get(rhs, id) {
      if id == o.cell {
        ExtendSound(Get(rs, id), EffectOf(s, id), o.op);
      }
    }
    RelationsEqual(lhs, rhs);
  }

  lemma ApplySummaryIdempotent(rs: Relations, s: RelSummary)
    ensures ApplySummary(ApplySummary(rs, s), s) == ApplySummary(rs, s)
  {
    var once := ApplySummary(rs, s);
    var twice := ApplySummary(once, s);
    forall id ensures Get(twice, id) == Get(once, id) {
      ApplyEffectIdempotent(Get(rs, id), EffectOf(s, id));
    }
    RelationsEqual(twice, once);
  }
}
