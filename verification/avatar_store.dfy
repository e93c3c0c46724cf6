/** The avatar cache keyed by user id (store/avatarStore.ts). Stored urls
    carry a `_size` placeholder that a lookup replaces by the requested size. */
module AvatarStore {
  import opened Wrappers
  import opened Text
  import opened TweetTypes
  import opened ResponseData

  type Avatars = map<string, string>

  /** The avatar sizes Twitter serves, in the order they are tried. */
  datatype AvatarSize = Normal | Bigger | X96 {
    function Name(): string {
      match this
      case Normal => "normal"
      case Bigger => "bigger"
      case X96 => "x96"
    }
  }

  const Sizes: seq<AvatarSize> := [Normal, Bigger, X96]

  const Placeholder: string := "_size"

  /** The url with its size suffix replaced by the placeholder, as the code
      is written: the replacement is returned from the `forEach` callback and
      discarded, so the url comes back unchanged. */
  function NormalizeAvatarUrlAsWritten(url: string): (r: string)
    ensures r == url
  {
    if url == "" then url
    else
      var discarded := seq(|Sizes|, i requires 0 <= i < |Sizes| =>
        if Contains(url, "_" + Sizes[i].Name()) then ReplaceFirst(url, "_" + Sizes[i].Name(), Placeholder) else url);
      url
  }

  /** The evidently intended normalisation: the first size suffix found (in
      the order normal, bigger, x96) becomes the placeholder. */
  function NormalizeAvatarUrl(url: string): (r: string)
    ensures Contains(url, "_normal") ==> r == ReplaceFirst(url, "_normal", Placeholder)
    ensures !Contains(url, "_normal") && Contains(url, "_bigger") ==> r == ReplaceFirst(url, "_bigger", Placeholder)
    ensures !Contains(url, "_normal") && !Contains(url, "_bigger") && Contains(url, "_x96") ==>
      r == ReplaceFirst(url, "_x96", Placeholder)
    ensures !Contains(url, "_normal") && !Contains(url, "_bigger") && !Contains(url, "_x96") ==> r == url
  {
    assert "_" + Sizes[0].Name() == "_normal";
    assert "_" + Sizes[1].Name() == "_bigger";
    assert "_" + Sizes[2].Name() == "_x96";
    NormalizeFrom(url, 0)
  }

  function NormalizeFrom(url: string, i: nat): (r: string)
    requires i <= |Sizes|
    decreases |Sizes| - i
  {
    if i == |Sizes| then url
    else if Contains(url, "_" + Sizes[i].Name()) then ReplaceFirst(url, "_" + Sizes[i].Name(), Placeholder)
    else NormalizeFrom(url, i + 1)
  }

  /** `rememberAvatarById` (with the intended normalisation): both the id and
      the url must be non-empty. */
  function RememberAvatarById(avatars: Avatars, userId: Option<string>, url: Option<string>): (r: Avatars)
    ensures Truthy(userId) && Truthy(url) ==> r == avatars[userId.value := NormalizeAvatarUrl(url.value)]
    ensures !(Truthy(userId) && Truthy(url)) ==> r == avatars
  {
    if !Truthy(userId) || !Truthy(url) then avatars
    else avatars[userId.value := NormalizeAvatarUrl(url.value)]
  }

  /** `rememberUserAvatarFromTweet`: records the author's avatar under the
      author's id when both are known. */
  function RememberUserAvatarFromTweet(avatars: Avatars, t: Tweet): (r: Avatars)
    ensures r.Keys <= avatars.Keys + {UserId(t, UserOf(t)).GetOr("")}
    ensures forall k :: k in avatars && k != UserId(t, UserOf(t)).GetOr("") ==> k in r && r[k] == avatars[k]
    ensures var id := UserId(t, UserOf(t)); var avatar := AvatarFromUser(UserOf(t));
      if Truthy(id) && Truthy(avatar) then id.value in r && r[id.value] == NormalizeAvatarUrl(avatar.value)
      else r == avatars
  {
    var user := UserOf(t);
    var avatar := AvatarFromUser(user);
    if Truthy(avatar) then RememberAvatarById(avatars, UserId(t, user), avatar) else avatars
  }

  /** `getCachedAvatarForTweet`: the cached url of the author with the
      placeholder replaced by the requested size. */
  function CachedAvatarForTweet(avatars: Avatars, t: Tweet, size: AvatarSize): (r: Option<string>)
    ensures r.Some? ==> Truthy(UserId(t, UserOf(t))) && UserId(t, UserOf(t)).value in avatars
    ensures Truthy(UserId(t, UserOf(t))) && UserId(t, UserOf(t)).value in avatars ==> r.Some?
    ensures r.Some? ==> r.value == ReplaceFirst(avatars[UserId(t, UserOf(t)).value], Placeholder, "_" + size.Name())
  {
    var userId := UserId(t, UserOf(t));
    if Truthy(userId) && userId.value in avatars then
      Some(ReplaceFirst(avatars[userId.value], Placeholder, "_" + size.Name()))
    else None
  }

  /** No character of the placeholder after the first is an underscore, so
      an occurrence of it cannot start inside text before an inserted copy
      and run into it. */
  lemma PlaceholderShape()
    ensures |Placeholder| == 5 && Placeholder[0] == '_'
    ensures forall k :: 1 <= k < |Placeholder| ==> Placeholder[k] != '_'
  {
  }

  /** Replacing a suffix by the placeholder and then the placeholder by a
      size is the same as replacing the suffix by that size directly, for a
      url that does not already contain the placeholder. */
  lemma {:induction false} PlaceholderRoundTrip(url: string, suffix: string, target: string)
    requires Contains(url, suffix)
    requires !Contains(url, Placeholder)
    ensures ReplaceFirst(ReplaceFirst(url, suffix, Placeholder), Placeholder, target)
            == ReplaceFirst(url, suffix, target)
  {
    var i := IndexOf(url, suffix).value;
    var v := ReplaceFirst(url, suffix, Placeholder);
    assert v == url[..i] + Placeholder + url[i + |suffix|..];
    PlaceholderShape();
    assert OccursAt(v, Placeholder, i) by {
      assert v[i..i + |Placeholder|] == Placeholder;
    }
    forall j | 0 <= j < i
      ensures !OccursAt(v, Placeholder, j)
    {
      if j + |Placeholder| <= i {
        assert v[j..j + |Placeholder|] == url[j..j + |Placeholder|];
        assert !OccursAt(url, Placeholder, j);
      } else if j + |Placeholder| <= |v| {
        assert v[j..j + |Placeholder|][i - j] == v[i] == '_';
        assert Placeholder[i - j] != '_';
      }
    }
    assert IndexOf(v, Placeholder) == Some(i);
    assert v[..i] == url[..i];
    assert v[i + |Placeholder|..] == url[i + |suffix|..];
  }

  /** With the intended normalisation, an avatar remembered from an author's
      "_normal" url is served at every requested size. */
  lemma RememberedAvatarServesEverySize(avatars: Avatars, t: Tweet, url: string, size: AvatarSize)
    requires Truthy(UserId(t, UserOf(t)))
    requires AvatarFromUser(UserOf(t)) == Some(url)
    requires Contains(url, "_normal") && !Contains(url, Placeholder)
    ensures CachedAvatarForTweet(RememberUserAvatarFromTweet(avatars, t), t, size)
            == Some(ReplaceFirst(url, "_normal", "_" + size.Name()))
  {
    PlaceholderRoundTrip(url, "_normal", "_" + size.Name());
  }

  /** As written, the stored url keeps its "_normal" suffix, so a lookup for
      another size returns the 48x48 image: for "a_normal.jpg" the x96 lookup
      yields "a_normal.jpg" where "a_x96.jpg" is intended. */
  lemma AsWrittenIgnoresRequestedSize()
    ensures ReplaceFirst(NormalizeAvatarUrlAsWritten("a_normal.jpg"), Placeholder, "_x96") == "a_normal.jpg"
    ensures ReplaceFirst(NormalizeAvatarUrl("a_normal.jpg"), Placeholder, "_x96") == "a_x96.jpg"
  {
    SampleHasNoPlaceholder();
    SampleSuffix();
    PlaceholderRoundTrip("a_normal.jpg", "_normal", "_x96");
  }

  lemma SampleSuffix()
    ensures Contains("a_normal.jpg", "_normal")
    ensures ReplaceFirst("a_normal.jpg", "_normal", "_x96") == "a_x96.jpg"
  {
    var u := "a_normal.jpg";
    assert OccursAt(u, "_normal", 1) by { assert u[1..8] == "_normal"; }
    assert !OccursAt(u, "_normal", 0) by { assert u[0..7][0] == 'a'; }
    assert IndexOf(u, "_normal") == Some(1);
    assert u[..1] + "_x96" + u[8..] == "a_x96.jpg";
  }

  lemma SampleHasNoPlaceholder()
    ensures !Contains("a_normal.jpg", Placeholder)
  {
    var u := "a_normal.jpg";
    forall j | 0 <= j <= |u| ensures !OccursAt(u, Placeholder, j) {
      if j + 5 <= |u| {
        var k := if j == 1 then 1 else 0;
        assert u[j + k] != Placeholder[k] by {
          assert j <= 7;
          assert Placeholder[0] == '_' && Placeholder[1] == 's';
        }
        assert u[j..j + 5][k] == u[j + k];
      }
    }
  }
}
