/** The request/response correlation every API file of the content script
    keeps (api/twitterGraphql.ts, api/friendships.ts, api/followingList.ts,
    api/twitterPoll.ts, api/twitterUpload.ts, handlers/tweetDetailHandler.ts):
    a table of pending requests keyed by request id, filled just before a
    request envelope is posted and emptied when its answer arrives. */
module Correlation {
  import opened Wrappers

  /** A pending entry: its resolver pair, and whether a progress callback
      was registered with it. */
  datatype Waiter = Waiter(onProgress: bool)

  type Pending = map<string, Waiter>

  /** The observable steps of a handler, in the order it takes them. */
  datatype Event<Q, T> =
    | Registered(id: string)
    | Posted(id: string, request: Q)
    | Deleted(id: string)
    | Resolved(id: string, value: T)
    | Rejected(id: string, message: string)
    | Forwarded(id: string, value: T)
  {
    predicate Settles(x: string) {
      (Resolved? || Rejected?) && id == x
    }
  }

  datatype Step<Q, T> = Step(pending: Pending, events: seq<Event<Q, T>>)

  /** How an answer is read: a value to resolve with, or an error text
      that may be missing. */
  datatype Answer<T> = Success(value: T) | Failure(error: Option<string>)

  /** Nothing settles before its entry is gone from the table. */
  predicate DeletedBeforeSettled<Q, T>(events: seq<Event<Q, T>>) {
    forall j :: 0 <= j < |events| && (events[j].Resolved? || events[j].Rejected?) ==>
      exists i :: 0 <= i < j && events[i] == Deleted(events[j].id)
  }

  /** Nothing is posted before its entry is in the table. */
  predicate RegisteredBeforePosted<Q, T>(events: seq<Event<Q, T>>) {
    forall j :: 0 <= j < |events| && events[j].Posted? ==>
      exists i :: 0 <= i < j && events[i] == Registered(events[j].id)
  }

  /** The number of settlements of request `x`. */
  function Settlements<Q, T>(events: seq<Event<Q, T>>, x: string): nat {
    if events == [] then 0
    else (if events[0].Settles(x) then 1 else 0) + Settlements(events[1..], x)
  }

  lemma SettlementsPair<Q, T>(a: Event<Q, T>, b: Event<Q, T>, x: string)
    ensures Settlements([a, b], x) == (if a.Settles(x) then 1 else 0) + (if b.Settles(x) then 1 else 0)
  {
    assert [a, b][1..] == [b];
    assert [b][1..] == [];
    assert Settlements([b], x) == (if b.Settles(x) then 1 else 0) + Settlements([b][1..], x);
  }

  /** The request a send posted. */
  function PostedRequest<Q, T>(s: Step<Q, T>): Option<Q> {
    if |s.events| == 2 && s.events[1].Posted? then Some(s.events[1].request) else None
  }

  /** Registering `id` and posting its request. */
  function Send<Q, T>(pending: Pending, id: string, w: Waiter, request: Q): (r: Step<Q, T>)
    ensures r.pending.Keys == pending.Keys + {id} && r.pending[id] == w
    ensures forall x :: x in pending && x != id ==> r.pending[x] == pending[x]
    ensures RegisteredBeforePosted(r.events)
    ensures |r.events| == 2 && r.events[1] == Posted(id, request)
    ensures forall x :: Settlements(r.events, x) == 0
  {
    var events: seq<Event<Q, T>> := [Registered(id), Posted(id, request)];
    assert events[0] == Registered(events[1].id);
    forall x ensures Settlements(events, x) == 0 {
      SettlementsPair(events[0], events[1], x);
    }
    Step(pending[id := w], events)
  }

  /** An answer for request `id`: dropped when the id is unknown;
      otherwise the entry is deleted and then the promise is resolved, or
      rejected with the error text or `fallback` when it is missing. */
  function Settle<Q, T>(pending: Pending, id: string, answer: Answer<T>, fallback: string): (r: Step<Q, T>)
    ensures id !in pending ==> r == Step(pending, [])
    ensures id in pending ==> r.pending == pending - {id}
    ensures DeletedBeforeSettled(r.events)
    ensures Settlements(r.events, id) == (if id in pending then 1 else 0)
    ensures forall x :: x != id ==> Settlements(r.events, x) == 0
    ensures forall e :: e in r.events && e.Resolved? ==> answer == Success(e.value)
    ensures forall e :: e in r.events && e.Rejected? ==>
              answer.Failure? && e.message == answer.error.GetOr(fallback)
  {
    if id !in pending then Step(pending, [])
    else
      var last: Event<Q, T> := match answer
        case Success(v) => Resolved(id, v)
        case Failure(err) => Rejected(id, err.GetOr(fallback));
      var events := [Deleted(id), last];
      assert events[0] == Deleted(events[1].id);
      forall x ensures Settlements(events, x) == (if x == id then 1 else 0) {
        SettlementsPair(events[0], events[1], x);
      }
      Step(pending - {id}, events)
  }

  /** A progress report for `id`: handed to the callback when the entry is
      known and has one; the table is never touched. */
  function Forward<Q, T>(pending: Pending, id: string, value: T): (r: Step<Q, T>)
    ensures r.pending == pending
    ensures r.events == [] || r.events == [Forwarded(id, value)]
    ensures r.events != [] <==> id in pending && pending[id].onProgress
  {
    if id in pending && pending[id].onProgress then Step(pending, [Forwarded(id, value)])
    else Step(pending, [])
  }

  /** A message arriving for some request: an answer, or progress. */
  datatype Incoming<T> = Answered(id: string, answer: Answer<T>) | Progress(id: string, value: T)

  function Receive<Q, T>(pending: Pending, m: Incoming<T>, fallback: string): (r: Step<Q, T>)
    ensures r.pending.Keys <= pending.Keys
    ensures forall x :: x in r.pending ==> r.pending[x] == pending[x]
  {
    match m
    case Answered(id, a) => Settle(pending, id, a, fallback)
    case Progress(id, v) => Forward(pending, id, v)
  }

  /** A run of incoming messages, each handled against the table the
      previous one left. */
  function ReceiveAll<Q, T>(pending: Pending, ms: seq<Incoming<T>>, fallback: string): (r: Step<Q, T>)
    decreases |ms|
  {
    if ms == [] then Step(pending, [])
    else
      var first := Receive<Q, T>(pending, ms[0], fallback);
      var rest := ReceiveAll<Q, T>(first.pending, ms[1..], fallback);
      Step(rest.pending, first.events + rest.events)
  }

  lemma {:induction false} SettlementsAppend<Q, T>(a: seq<Event<Q, T>>, b: seq<Event<Q, T>>, x: string)
    ensures Settlements(a + b, x) == Settlements(a, x) + Settlements(b, x)
    decreases |a|
  {
    if a == [] {
      assert a + b == b;
    } else {
      assert (a + b)[0] == a[0];
      assert (a + b)[1..] == a[1..] + b;
      SettlementsAppend(a[1..], b, x);
    }
  }

  /** However the answers for a request are duplicated or interleaved with
      other traffic, its promise settles at most once, and only if it was
      pending; an unknown id never settles anything. */
  lemma {:induction false} SettledAtMostOnce<Q, T>(pending: Pending, ms: seq<Incoming<T>>, fallback: string, x: string)
    ensures Settlements(ReceiveAll<Q, T>(pending, ms, fallback).events, x) <= (if x in pending then 1 else 0)
    ensures ReceiveAll<Q, T>(pending, ms, fallback).pending.Keys <= pending.Keys
    decreases |ms|
  {
    if ms != [] {
      var first := Receive<Q, T>(pending, ms[0], fallback);
      var rest := ReceiveAll<Q, T>(first.pending, ms[1..], fallback);
      SettledAtMostOnce<Q, T>(first.pending, ms[1..], fallback, x);
      SettlementsAppend(first.events, rest.events, x);
      match ms[0]
      case Answered(id, a) =>
        if id == x && x in pending {
          assert x !in first.pending;
        }
      case Progress(id, v) =>
        assert Settlements(first.events, x) == 0 by {
          if first.events != [] {
            assert first.events[1..] == [];
          }
        }
    }
  }

  /** Progress reports never consume an entry: after any number of them
      the final answer still settles the request. */
  lemma {:induction false} ProgressKeepsEntry<Q, T>(pending: Pending, id: string, reports: seq<T>, answer: Answer<T>, fallback: string)
    requires id in pending
    ensures var ms := seq(|reports|, i requires 0 <= i < |reports| => Progress(id, reports[i])) + [Answered(id, answer)];
            var r := ReceiveAll<Q, T>(pending, ms, fallback);
            Settlements(r.events, id) == 1 && r.pending == pending - {id}
    decreases |reports|
  {
    var ms := seq(|reports|, i requires 0 <= i < |reports| => Progress(id, reports[i])) + [Answered(id, answer)];
    if reports == [] {
      assert ms == [Answered(id, answer)];
      var first := Receive<Q, T>(pending, ms[0], fallback);
      assert ms[1..] == [];
      assert ReceiveAll<Q, T>(first.pending, ms[1..], fallback).events == [];
      assert first.events + [] == first.events;
    } else {
      var tail := reports[1..];
      var ms' := seq(|tail|, i requires 0 <= i < |tail| => Progress(id, tail[i])) + [Answered(id, answer)];
      assert ms[1..] == ms';
      var first := Receive<Q, T>(pending, ms[0], fallback);
      assert first.pending == pending;
      ProgressKeepsEntry<Q, T>(pending, id, tail, answer, fallback);
      var rest := ReceiveAll<Q, T>(pending, ms', fallback);
      SettlementsAppend(first.events, rest.events, id);
      assert Settlements(first.events, id) == 0 by {
        if first.events != [] {
          assert first.events[1..] == [];
        }
      }
    }
  }

  /** A request sent with a fresh id and then answered leaves the table as
      it found it and settles exactly that request, once. */
  lemma RequestAnswered<Q, T>(pending: Pending, id: string, w: Waiter, request: Q, answer: Answer<T>, fallback: string)
    requires id !in pending
    ensures var s := Send<Q, T>(pending, id, w, request);
            var a := Settle<Q, T>(s.pending, id, answer, fallback);
            a.pending == pending && Settlements(s.events + a.events, id) == 1
            && RegisteredBeforePosted(s.events + a.events) && DeletedBeforeSettled(s.events + a.events)
  {
    var s := Send<Q, T>(pending, id, w, request);
    var a := Settle<Q, T>(s.pending, id, answer, fallback);
    SettlementsAppend(s.events, a.events, id);
    var all := s.events + a.events;
    assert all[2..] == a.events;
    assert forall j :: 2 <= j < |all| ==> all[j] == a.events[j - 2];
  }
}
