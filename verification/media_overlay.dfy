/** The full-screen media viewer (components/mediaOverlayProvider.tsx): which
    group of items it shows, the current position with its wrap-around
    navigation, the zoom step, and the item an open event asks for. Image
    sizes, the zoom factors themselves, panning and preloading are left out;
    only the number of zoom levels enters. */
module MediaOverlay {
  import opened Wrappers
  import Ordered
  import opened ResponseData

  /** The viewer's state: the items, the current position, the zoom step
      and whether the sidebar is collapsed behind the viewer. */
  datatype Overlay = Overlay(items: seq<OverlayItem>, index: nat, zoomIndex: nat, collapsed: bool)

  /** The position is inside the items, or 0 when there are none. */
  predicate InRange(o: Overlay) {
    if |o.items| == 0 then o.index == 0 else o.index < |o.items|
  }

  /** `findIndex` by key: the first position holding the key, or -1. */
  function FindKey(items: seq<OverlayItem>, key: string): (r: int)
    ensures -1 <= r < |items|
    ensures r == -1 <==> forall j :: 0 <= j < |items| ==> items[j].Key() != key
    ensures r >= 0 ==> items[r].Key() == key && forall j :: 0 <= j < r ==> items[j].Key() != key
  {
    if items == [] then -1
    else if items[0].Key() == key then 0
    else
      var rest := FindKey(items[1..], key);
      assert forall j :: 1 <= j < |items| ==> items[j] == items[1..][j - 1];
      if rest == -1 then -1 else rest + 1
  }

  /** `openMedia`: the group when it is given and not empty, else the
      payload alone; the position of the payload's key in it, or 0; zoom
      reset and the sidebar collapsed. */
  function OpenMedia(payload: OverlayItem, group: Option<seq<OverlayItem>>): (o: Overlay)
    ensures group.Some? && |group.value| > 0 ==> o.items == group.value
    ensures group.None? || |group.value| == 0 ==> o.items == [payload]
    ensures o.zoomIndex == 0 && o.collapsed
    ensures InRange(o)
    ensures forall j :: 0 <= j < o.index ==> o.items[j].Key() != payload.Key()
  {
    var base := if group.Some? && |group.value| > 0 then group.value else [payload];
    var found := FindKey(base, payload.Key());
    Overlay(base, if found < 0 then 0 else found, 0, true)
  }

  /** `closeMedia`: no items, position and zoom back to 0, the sidebar
      shown again. */
  function CloseMedia(): (o: Overlay)
    ensures o.items == [] && InRange(o) && !o.collapsed && o.zoomIndex == 0
  {
    Overlay([], 0, 0, false)
  }

  /** The effect that keeps the position valid: 0 with no items, the last
      item when the position ran past the end, otherwise unchanged. */
  function Settle(o: Overlay): (r: Overlay)
    ensures InRange(r)
    ensures r.items == o.items && r.zoomIndex == o.zoomIndex && r.collapsed == o.collapsed
    ensures InRange(o) ==> r == o
  {
    if |o.items| == 0 then o.(index := 0)
    else if o.index >= |o.items| then o.(index := |o.items| - 1)
    else o
  }

  /** `showNext`: only with more than one item; one step forward, wrapping
      from the last item to the first, and the zoom reset. */
  function ShowNext(o: Overlay): (r: Overlay)
    ensures |o.items| <= 1 ==> r == o
    ensures |o.items| > 1 && InRange(o) ==>
              r.index == (if o.index == |o.items| - 1 then 0 else o.index + 1)
              && r.zoomIndex == 0
    ensures r.items == o.items && r.collapsed == o.collapsed
    ensures InRange(o) ==> InRange(r)
  {
    var n := |o.items|;
    if n <= 1 then o else o.(index := (o.index + 1) % n, zoomIndex := 0)
  }

  /** `showPrevious`: one step back, wrapping from the first item to the
      last. The left operand stays non-negative, so the remainder is the
      program's. */
  function ShowPrevious(o: Overlay): (r: Overlay)
    ensures |o.items| <= 1 ==> r == o
    ensures |o.items| > 1 && InRange(o) ==>
              r.index == (if o.index == 0 then |o.items| - 1 else o.index - 1)
              && r.zoomIndex == 0
    ensures r.items == o.items && r.collapsed == o.collapsed
    ensures InRange(o) ==> InRange(r)
  {
    var n := |o.items|;
    if n <= 1 then o else o.(index := (o.index - 1 + n) % n, zoomIndex := 0)
  }

  /** `activeMedia`: the item at the position, held to the last item, or
      nothing when the viewer is closed. */
  function ActiveMedia(o: Overlay): (r: Option<OverlayItem>)
    ensures r.None? <==> |o.items| == 0
    ensures r.Some? && InRange(o) ==> r.value == o.items[o.index]
    ensures r.Some? ==> r.value in o.items
  {
    if |o.items| == 0 then None
    else Some(o.items[if o.index < |o.items| - 1 then o.index else |o.items| - 1])
  }

  /** The sidebar hides only while something is shown. */
  predicate SidebarCollapsed(o: Overlay) {
    o.collapsed && |o.items| > 0
  }

  /** A step forward undoes a step back and the other way round. */
  lemma NextUndoesPrevious(o: Overlay)
    requires InRange(o)
    ensures ShowNext(ShowPrevious(o)).index == o.index
    ensures ShowPrevious(ShowNext(o)).index == o.index
  {
  }

  /** `k` steps forward from a valid position land `k` places further on,
      counted round the items. */
  lemma {:induction false} NextSteps(o: Overlay, k: nat)
    requires InRange(o) && |o.items| > 1
    ensures StepsForward(o, k).index == Wrap(o.index + k, |o.items|)
    ensures InRange(StepsForward(o, k))
  {
    if k > 0 {
      NextSteps(o, k - 1);
      var before := StepsForward(o, k - 1);
      assert StepsForward(o, k) == ShowNext(before);
      assert before.items == o.items by { StepsKeepItems(o, k - 1); }
      WrapStep(o.index + k - 1, |o.items|);
    }
  }

  /** `x` counted round `n` places, by repeated subtraction. */
  function Wrap(x: nat, n: nat): (r: nat)
    requires n > 0
    ensures r < n
    decreases x
  {
    if x < n then x else Wrap(x - n, n)
  }

  lemma {:induction false} WrapStep(x: nat, n: nat)
    requires n > 0
    ensures Wrap(x + 1, n) == (if Wrap(x, n) == n - 1 then 0 else Wrap(x, n) + 1)
    decreases x
  {
    if x >= n {
      WrapStep(x - n, n);
    }
  }

  lemma {:induction false} StepsKeepItems(o: Overlay, k: nat)
    ensures StepsForward(o, k).items == o.items
  {
    if k > 0 { StepsKeepItems(o, k - 1); }
  }

  function StepsForward(o: Overlay, k: nat): Overlay {
    if k == 0 then o else ShowNext(StepsForward(o, k - 1))
  }

  /** Going forward once per item comes back to the item one started at. */
  lemma RoundTrip(o: Overlay)
    requires InRange(o) && |o.items| > 1
    ensures StepsForward(o, |o.items|).index == o.index
  {
    NextSteps(o, |o.items|);
  }

  /** Opening an item shows that item: the first item of the group with its
      key, which is the payload itself when the keys are distinct; a payload
      whose key the group lacks shows the group's first item. */
  lemma OpenShowsPayload(payload: OverlayItem, group: Option<seq<OverlayItem>>)
    ensures var o := OpenMedia(payload, group);
            var a := ActiveMedia(o);
            a.Some?
            && ((exists j :: 0 <= j < |o.items| && o.items[j].Key() == payload.Key()) ==> a.value.Key() == payload.Key())
            && ((forall j :: 0 <= j < |o.items| ==> o.items[j].Key() != payload.Key()) ==> a.value == o.items[0])
  {
  }

  /** `cycleZoom`: the next zoom step, wrapping after the last. There is
      always at least one zoom level. */
  function CycleZoom(zoomIndex: nat, levels: nat): (r: nat)
    requires levels > 0
    ensures r < levels
    ensures zoomIndex + 1 < levels ==> r == zoomIndex + 1
    ensures zoomIndex == levels - 1 ==> r == 0
  {
    (zoomIndex + 1) % levels
  }

  /** The effect run when the number of zoom levels changes: the step is
      held to the last level. */
  function ClampZoom(zoomIndex: nat, levels: nat): (r: nat)
    requires levels > 0
    ensures r < levels && r <= zoomIndex
    ensures zoomIndex < levels ==> r == zoomIndex
  {
    if zoomIndex < levels - 1 then zoomIndex else levels - 1
  }

  /** The open event: missing entries are dropped; nothing happens when none
      is left; otherwise the entry with the requested key, else the first,
      is opened with all the remaining entries as its group. */
  function OpenEventTarget(entries: Option<seq<Option<OverlayItem>>>, activeKey: Option<string>): (r: Option<OverlayItem>)
    ensures r.None? <==> Present(entries.GetOr([])) == []
    ensures r.Some? ==> r.value in Present(entries.GetOr([]))
    ensures r.Some? && activeKey.Some? && (exists it :: it in Present(entries.GetOr([])) && it.Key() == activeKey.value) ==>
              r.value.Key() == activeKey.value
  {
    var items := Present(entries.GetOr([]));
    if items == [] then None
    else
      var i := if activeKey.None? then -1 else FindKey(items, activeKey.value);
      Some(if i >= 0 then items[i] else items[0])
  }

  /** `filter(Boolean)` over the entries. */
  function Present(entries: seq<Option<OverlayItem>>): (r: seq<OverlayItem>)
    ensures forall it :: it in r <==> Some(it) in entries
    ensures |r| <= |entries|
  {
    if entries == [] then []
    else
      var rest := Present(entries[1..]);
      assert forall x :: x in entries <==> x == entries[0] || x in entries[1..];
      if entries[0].Some? then [entries[0].value] + rest else rest
  }

  /** Filtering commutes with concatenation, and one entry is kept exactly
      when it is present: so the kept items appear in their original order
      and number. */
  lemma {:induction false} PresentAppend(a: seq<Option<OverlayItem>>, b: seq<Option<OverlayItem>>)
    ensures Present(a + b) == Present(a) + Present(b)
    ensures |a| == 1 ==> Present(a) == (if a[0].Some? then [a[0].value] else [])
    decreases |a|
  {
    if a == [] {
      assert a + b == b;
    } else {
      var head := if a[0].Some? then [a[0].value] else [];
      assert (a + b)[0] == a[0] && (a + b)[1..] == a[1..] + b;
      assert Present(a + b) == head + Present(a[1..] + b);
      assert Present(a) == head + Present(a[1..]);
      PresentAppend(a[1..], b);
      Ordered.ConcatAssoc(head, Present(a[1..]), Present(b));
      if |a| == 1 {
        assert a[1..] == [];
      }
    }
  }

  /** The open event's effect on the viewer. */
  function HandleOpen(o: Overlay, entries: Option<seq<Option<OverlayItem>>>, activeKey: Option<string>): (r: Overlay)
    ensures OpenEventTarget(entries, activeKey).None? ==> r == o
    ensures OpenEventTarget(entries, activeKey).Some? ==>
              r.items == Present(entries.GetOr([])) && r.collapsed && r.zoomIndex == 0
  {
    match OpenEventTarget(entries, activeKey)
    case None => o
    case Some(target) => OpenMedia(target, Some(Present(entries.GetOr([]))))
  }

  /** An open event whose requested key is among its entries shows an item
      with that key; with no such key it shows the first entry. */
  lemma OpenEventShowsRequested(o: Overlay, entries: seq<Option<OverlayItem>>, key: string)
    requires exists it :: it in Present(entries) && it.Key() == key
    ensures var a := ActiveMedia(HandleOpen(o, Some(entries), Some(key)));
            a.Some? && a.value.Key() == key
  {
    var target := OpenEventTarget(Some(entries), Some(key));
    OpenShowsPayload(target.value, Some(Present(entries)));
    var items := Present(entries);
    assert target.value in items;
  }
}
