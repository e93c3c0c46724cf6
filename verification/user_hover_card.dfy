/** The card shown when hovering a user (components/tweet/UserHoverCard.tsx):
    the avatar, the names, the description cut into plain and link nodes,
    the counters, and the follow button. Number formatting (`Intl`), the
    hover timers and the following-list preview fetch are left out. */
module UserHoverCard {
  import opened Wrappers
  import opened Text
  import opened TweetTypes
  import Sorting
  import ResponseData
  import FriendshipsApi

  const UnknownName := "未知用户"

  /** `getAvatar`: the first avatar url the user has, in the larger size;
      nothing when there is none or it is empty. */
  function Avatar(user: Option<User>): (r: Option<string>)
    ensures r.None? <==> !Truthy(ResponseData.AvatarFromUser(user))
    ensures r.Some? ==> r.value == ReplaceFirst(ResponseData.AvatarFromUser(user).value, "_normal", "_400x400")
  {
    var avatar := ResponseData.AvatarFromUser(user);
    if !Truthy(avatar) then None else Some(ReplaceFirst(avatar.value, "_normal", "_400x400"))
  }

  /** A small avatar url comes back in the large size. */
  lemma AvatarIsLarge(user: User, base: string, rest: string)
    requires user.legacy.Some? && user.legacy.value.profileImageUrlHttps == Some(base + "_normal" + rest)
    requires !Contains(base, "_normal")
    ensures Avatar(Some(user)) == Some(base + "_400x400" + rest)
  {
    var s := base + "_normal" + rest;
    assert s[|base|..|base| + 7] == "_normal";
    assert OccursAt(s, "_normal", |base|);
    NoMarkerBefore(base, rest);
    var i := IndexOf(s, "_normal").value;
    assert i == |base|;
    assert s[..i] == base && s[i + 7..] == rest;
  }

  /** With no "_normal" in `base`, the marker after it is the first one:
      one starting inside `base` would either lie in it or put the marker's
      underscore at a place in it other than its first character. */
  lemma NoMarkerBefore(base: string, rest: string)
    requires !Contains(base, "_normal")
    ensures forall j :: 0 <= j < |base| ==> !OccursAt(base + "_normal" + rest, "_normal", j)
  {
    var s := base + "_normal" + rest;
    forall j | 0 <= j < |base| ensures !OccursAt(s, "_normal", j) {
      if j + 7 <= |base| {
        assert !OccursAt(base, "_normal", j);
        assert s[j..j + 7] == base[j..j + 7];
      } else if j + 7 <= |s| {
        assert s[j..j + 7][|base| - j] == s[|base|] == '_';
        assert "_normal"[|base| - j] != '_';
      }
    }
  }

  /** `user?.legacy?.name`, `user?.core?.name` and the same for the screen
      name. */
  function LegacyName(user: Option<User>): Option<string> {
    if user.Some? && user.value.legacy.Some? then user.value.legacy.value.name else None
  }

  function CoreName(user: Option<User>): Option<string> {
    if user.Some? && user.value.core.Some? then user.value.core.value.name else None
  }

  function LegacyHandle(user: Option<User>): Option<string> {
    if user.Some? && user.value.legacy.Some? then user.value.legacy.value.screenName else None
  }

  function CoreHandle(user: Option<User>): Option<string> {
    if user.Some? && user.value.core.Some? then user.value.core.value.screenName else None
  }

  /** `getName`: the legacy name, else the core's, else a placeholder; the
      screen name likewise, else empty. */
  function Names(user: Option<User>): (r: (string, string))
    ensures user.None? ==> r == (UnknownName, "")
    ensures LegacyName(user).Some? ==> r.0 == LegacyName(user).value
    ensures LegacyName(user).None? && CoreName(user).Some? ==> r.0 == CoreName(user).value
    ensures LegacyName(user).None? && CoreName(user).None? ==> r.0 == UnknownName
    ensures LegacyHandle(user).Some? ==> r.1 == LegacyHandle(user).value
    ensures LegacyHandle(user).None? && CoreHandle(user).Some? ==> r.1 == CoreHandle(user).value
    ensures LegacyHandle(user).None? && CoreHandle(user).None? ==> r.1 == ""
  {
    if user.None? then (UnknownName, "")
    else
      var u := user.value;
      var l := u.legacy;
      var c := u.core;
      (Or(if l.Some? then l.value.name else None, if c.Some? then c.value.name else None).GetOr(UnknownName),
       Or(if l.Some? then l.value.screenName else None, if c.Some? then c.value.screenName else None).GetOr(""))
  }

  /** `formatCount`: only a finite number that is not negative is shown
      (formatting it is left out). */
  function ShownCount(value: Option<Number>): (r: Option<int>)
    ensures r.Some? <==> value.Some? && value.value.Finite? && value.value.value >= 0
    ensures r.Some? ==> r.value == value.value.value
  {
    if value.None? || value.value.NonFinite? || value.value.value < 0 then None else Some(value.value.value)
  }

  /** A description url with its two indices, in the order of the filtered
      list (`index` is the number in its `url-<index>` key). */
  datatype Link = Link(start: int, end: int, href: Option<string>, display: Option<string>, index: nat)

  function LinkStart(l: Link): int { l.start }

  /** The urls with a pair of indices, numbered from `first` in order. */
  function Normalize(urls: seq<UrlEntity>, first: nat): (r: seq<Link>)
    ensures |r| <= |urls|
    ensures forall i :: 0 <= i < |r| ==> first <= r[i].index < first + |r|
    ensures forall i, j :: 0 <= i < j < |r| ==> r[i].index < r[j].index
    ensures (forall i :: 0 <= i < |urls| ==> urls[i].indices.Some?) ==> |r| == |urls|
  {
    if urls == [] then []
    else
      var u := urls[0];
      if u.indices.None? then Normalize(urls[1..], first)
      else
        var l := Link(u.indices.value.0, u.indices.value.1, Or(u.expandedUrl, u.url),
                      Or(u.displayUrl, Or(u.expandedUrl, u.url)), first);
        [l] + Normalize(urls[1..], first + 1)
  }

  /** A description node: plain text numbered in order, or a link with the
      characters it covers and the text it shows. */
  datatype Node =
    | PlainNode(key: nat, text: string)
    | LinkNode(key: nat, href: Option<string>, display: string, covered: string)

  /** `pushPlain`: the characters from `from` to `to`, when that is a
      forward range and not empty; the plain counter moves on only then. */
  function Plain(chars: string, from: int, to: int, keyIndex: nat): (r: (seq<Node>, nat))
    ensures to <= from || Slice(chars, from, to) == "" ==> r == ([], keyIndex)
    ensures to > from && Slice(chars, from, to) != "" ==> r == ([PlainNode(keyIndex, Slice(chars, from, to))], keyIndex + 1)
  {
    if to <= from then ([], keyIndex)
    else
      var text := Slice(chars, from, to);
      if text == "" then ([], keyIndex) else ([PlainNode(keyIndex, text)], keyIndex + 1)
  }

  /** The loop over the sorted links from `cursor`, then the trailing plain
      text. A link that ends at or before the cursor is passed over;
      otherwise the gap before it and the link itself are added, and the
      cursor moves to its end. */
  function Walk(chars: string, links: seq<Link>, cursor: int, keyIndex: nat): (r: seq<Node>)
    ensures forall i :: 0 <= i < |r| && r[i].PlainNode? ==> r[i].text != "" && keyIndex <= r[i].key
    decreases |links|
  {
    if links == [] then Plain(chars, cursor, |chars|, keyIndex).0
    else
      var l := links[0];
      if l.end <= cursor then Walk(chars, links[1..], cursor, keyIndex)
      else
        var gap := Plain(chars, cursor, l.start, keyIndex);
        var covered := Slice(chars, l.start, l.end);
        var node := LinkNode(l.index, l.href, l.display.GetOr(covered), covered);
        var rest := Walk(chars, links[1..], l.end, gap.1);
        var r := gap.0 + [node] + rest;
        assert forall i :: |gap.0| + 1 <= i < |r| ==> r[i] == rest[i - |gap.0| - 1];
        r
  }

  /** `buildDescriptionNodes`: nothing for an empty description, otherwise
      the walk over the indexed urls sorted by start. */
  function DescriptionNodes(user: Option<User>): (r: seq<Node>)
    ensures !Truthy(Description(user)) ==> r == []
    ensures Truthy(Description(user)) && DescriptionUrls(user) == [] ==>
              r == [PlainNode(0, Description(user).value)]
    ensures forall i :: 0 <= i < |r| && r[i].PlainNode? ==> r[i].text != ""
  {
    var description := Description(user);
    if !Truthy(description) then []
    else
      var chars := description.value;
      var links := Sorting.SortBy(Normalize(DescriptionUrls(user), 0), LinkStart);
      if links == [] then
        assert Slice(chars, 0, |chars|) == chars;
        Walk(chars, links, 0, 0)
      else Walk(chars, links, 0, 0)
  }

  function Description(user: Option<User>): Option<string> {
    if user.Some? && user.value.legacy.Some? then user.value.legacy.value.description else None
  }

  function DescriptionUrls(user: Option<User>): seq<UrlEntity> {
    if user.Some? && user.value.legacy.Some? then user.value.legacy.value.descriptionUrls.GetOr([]) else []
  }

  /** The characters each node stands for: a plain node's text, a link's
      covered characters. */
  function Spelled(nodes: seq<Node>): string {
    if nodes == [] then ""
    else Covered(nodes[0]) + Spelled(nodes[1..])
  }

  /** The characters of the description a node stands for. */
  function Covered(n: Node): string {
    match n
    case PlainNode(_, t) => t
    case LinkNode(_, _, _, covered) => covered
  }

  lemma {:induction false} SpelledAppend(a: seq<Node>, b: seq<Node>)
    ensures Spelled(a + b) == Spelled(a) + Spelled(b)
  {
    if a == [] {
      assert a + b == b;
    } else {
      assert (a + b)[0] == a[0] && (a + b)[1..] == a[1..] + b;
      SpelledAppend(a[1..], b);
    }
  }

  /** Links inside the text, in order, each ending before the next
      begins. */
  predicate Tiled(chars: string, links: seq<Link>) {
    (forall i :: 0 <= i < |links| ==> 0 <= links[i].start <= links[i].end <= |chars|)
    && (forall i :: 0 <= i < |links| - 1 ==> links[i].end <= links[i + 1].start)
  }

  lemma PlainSpells(chars: string, from: nat, to: nat, keyIndex: nat)
    requires from <= to <= |chars|
    ensures Spelled(Plain(chars, from, to, keyIndex).0) == chars[from..to]
  {
    var p := Plain(chars, from, to, keyIndex).0;
    if p != [] {
      assert Spelled(p) == chars[from..to] + Spelled([]);
    }
  }

  /** Over tiled links from a cursor not past the first start, the nodes
      spell the description from the cursor on. */
  lemma {:induction false} WalkSpells(chars: string, links: seq<Link>, cursor: nat, keyIndex: nat)
    requires Tiled(chars, links) && cursor <= |chars|
    requires links != [] ==> cursor <= links[0].start
    ensures Spelled(Walk(chars, links, cursor, keyIndex)) == chars[cursor..]
    decreases |links|
  {
    if links == [] {
      PlainSpells(chars, cursor, |chars|, keyIndex);
    } else {
      var l := links[0];
      assert Tiled(chars, links[1..]);
      if l.end <= cursor {
        WalkSpells(chars, links[1..], cursor, keyIndex);
      } else {
        var gap := Plain(chars, cursor, l.start, keyIndex);
        WalkSpells(chars, links[1..], l.end, gap.1);
        LinkStepSpells(chars, l, cursor, keyIndex, Walk(chars, links[1..], l.end, gap.1));
      }
    }
  }

  /** One link step: the gap, the link and what follows spell the text from
      the cursor on when what follows spells it from the link's end. */
  lemma LinkStepSpells(chars: string, l: Link, cursor: nat, keyIndex: nat, rest: seq<Node>)
    requires cursor <= l.start <= l.end <= |chars|
    requires Spelled(rest) == chars[l.end..]
    ensures var gap := Plain(chars, cursor, l.start, keyIndex);
            var covered := Slice(chars, l.start, l.end);
            Spelled(gap.0 + [LinkNode(l.index, l.href, l.display.GetOr(covered), covered)] + rest) == chars[cursor..]
  {
    var gap := Plain(chars, cursor, l.start, keyIndex);
    var covered := Slice(chars, l.start, l.end);
    var node := LinkNode(l.index, l.href, l.display.GetOr(covered), covered);
    PlainSpells(chars, cursor, l.start, keyIndex);
    SpelledThree(gap.0, node, rest);
    SplitThree(chars, cursor, l.start, l.end);
  }

  /** What a run of nodes, one node and another run spell. */
  lemma SpelledThree(a: seq<Node>, n: Node, b: seq<Node>)
    ensures Spelled(a + [n] + b) == Spelled(a) + Covered(n) + Spelled(b)
  {
    SpelledAppend(a + [n], b);
    SpelledAppend(a, [n]);
    SpelledOne(n);
  }

  lemma SpelledOne(n: Node)
    ensures Spelled([n]) == Covered(n)
  {
    assert Spelled([n]) == Covered(n) + Spelled([]);
  }

  /** Description urls that all carry indices, lie inside the description
      and do not overlap spell the description back when each link is read
      as the characters it covers. */
  lemma {:induction false} DescriptionSpelled(user: Option<User>)
    requires Truthy(Description(user))
    requires Tiled(Description(user).value, Normalize(DescriptionUrls(user), 0))
    ensures Spelled(DescriptionNodes(user)) == Description(user).value
  {
    var chars := Description(user).value;
    var links := Normalize(DescriptionUrls(user), 0);
    assert Sorting.SortedBy(links, LinkStart) by {
      forall i, j | 0 <= i < j < |links| ensures links[i].start <= links[j].start {
        TiledOrdered(chars, links, i, j);
      }
    }
    Sorting.SortSorted(links, LinkStart);
    WalkSpells(chars, links, 0, 0);
  }

  lemma {:induction false} TiledOrdered(chars: string, links: seq<Link>, i: nat, j: nat)
    requires Tiled(chars, links) && i < j < |links|
    ensures links[i].start <= links[j].start
    decreases j - i
  {
    if j > i + 1 {
      TiledOrdered(chars, links, i + 1, j);
    }
  }

  /** The follow button's state. `fromUnfollow` is set by a follow click
      and cleared when the mouse leaves the button. */
  datatype Follow = Follow(isFollowing: bool, fromUnfollow: bool, hovering: bool)

  /** The state a card starts in: following as the relationship says. */
  function InitialFollow(following: Option<bool>): (f: Follow)
    ensures f.isFollowing <==> following == Some(true)
    ensures !f.fromUnfollow && !f.hovering
  {
    Follow(following == Some(true), false, false)
  }

  /** The button's label: "unfollow" only while hovering a followed user the
      mouse has not just followed. */
  function FollowLabel(f: Follow): (r: string)
    ensures !f.isFollowing ==> r == "关注"
    ensures f.isFollowing && f.hovering && !f.fromUnfollow ==> r == "取消关注"
    ensures f.isFollowing && !(f.hovering && !f.fromUnfollow) ==> r == "正在关注"
  {
    if !f.isFollowing then "关注"
    else if f.hovering && !f.fromUnfollow then "取消关注"
    else "正在关注"
  }

  function EnterButton(f: Follow): Follow {
    f.(hovering := true)
  }

  function LeaveButton(f: Follow): (r: Follow)
    ensures !r.hovering && !r.fromUnfollow && r.isFollowing == f.isFollowing
  {
    f.(hovering := false, fromUnfollow := false)
  }

  /** The user id the button acts on: `rest_id ?? id`. */
  function UserId(user: Option<User>): Option<string> {
    if user.None? then None else Or(user.value.restId, user.value.id)
  }

  /** The click: nothing without a user id; otherwise the state flips at
      once and the request that undoes the previous state is sent. */
  function BeginFollow(f: Follow, userId: Option<string>): (r: (Follow, Option<(FriendshipsApi.FriendshipAction, string)>))
    ensures !Truthy(userId) ==> r == (f, None)
    ensures Truthy(userId) ==>
              r.0.isFollowing == !f.isFollowing && r.0.hovering == f.hovering
              && r.0.fromUnfollow == (f.fromUnfollow || !f.isFollowing)
              && r.1 == Some((if f.isFollowing then FriendshipsApi.Unfollow else FriendshipsApi.Follow, userId.value))
  {
    if !Truthy(userId) then (f, None)
    else
      var next := f.(isFollowing := !f.isFollowing);
      var next := if f.isFollowing then next else next.(fromUnfollow := true);
      (next, Some((if f.isFollowing then FriendshipsApi.Unfollow else FriendshipsApi.Follow, userId.value)))
  }

  /** The settling of the request as the program has it: a failure sets the
      state to the value the click already gave it. */
  function FinishFollowAsWritten(f: Follow, previous: bool, succeeded: bool): (r: Follow)
    ensures r == f || r == f.(isFollowing := !previous)
  {
    if succeeded then f else f.(isFollowing := !previous)
  }

  /** After a failed click the program still shows the new state: the
      request failed but the button claims it succeeded. */
  lemma AsWrittenKeepsFailedFollow(f: Follow, userId: string)
    requires userId != "" && !f.isFollowing
    ensures var begun := BeginFollow(f, Some(userId)).0;
            FinishFollowAsWritten(begun, f.isFollowing, false).isFollowing
            && FinishFollowAsWritten(begun, f.isFollowing, false).isFollowing != f.isFollowing
  {
  }

  /** The settling the failure path evidently means: a failure puts back the
      state from before the click. */
  function FinishFollow(f: Follow, previous: bool, succeeded: bool): (r: Follow)
    ensures succeeded ==> r == f
    ensures !succeeded ==> r.isFollowing == previous && r.hovering == f.hovering && r.fromUnfollow == f.fromUnfollow
  {
    if succeeded then f else f.(isFollowing := previous)
  }

  /** With the rollback, a failed click leaves the button following exactly
      as before; a successful one leaves it flipped. */
  lemma FailedFollowRollsBack(f: Follow, userId: string, succeeded: bool)
    requires userId != ""
    ensures var begun := BeginFollow(f, Some(userId)).0;
            FinishFollow(begun, f.isFollowing, succeeded).isFollowing == (if succeeded then !f.isFollowing else f.isFollowing)
  {
  }

  /** Right after following, hovering does not offer "unfollow" until the
      mouse leaves the button. */
  lemma NoUnfollowRightAfterFollow(f: Follow, userId: string)
    requires userId != "" && !f.isFollowing
    ensures var begun := BeginFollow(EnterButton(f), Some(userId)).0;
            FollowLabel(begun) == "正在关注"
            && FollowLabel(EnterButton(LeaveButton(begun))) == "取消关注"
  {
  }
}
