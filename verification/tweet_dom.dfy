/** Reading a tweet id out of a status link (utils/tweetDom.ts,
    `parseTweetIdFromHref`): the regular expression `status\/(\d+)` run
    over the href. */
module TweetDom {
  import opened Wrappers
  import opened Text

  const StatusMarker := "status/"

  /** Where the expression can match: the marker, then at least one
      digit. */
  predicate StatusAt(s: string, i: nat) {
    OccursAt(s, StatusMarker, i) && i + |StatusMarker| < |s| && IsDigit(s[i + |StatusMarker|])
  }

  /** The leftmost match position at or after `from`. */
  function FirstStatus(s: string, from: nat): (r: Option<nat>)
    requires from <= |s|
    ensures r.Some? ==> from <= r.value < |s| && StatusAt(s, r.value)
    ensures r.Some? ==> forall j :: from <= j < r.value ==> !StatusAt(s, j)
    ensures r.None? ==> forall j :: from <= j < |s| ==> !StatusAt(s, j)
    decreases |s| - from
  {
    if from == |s| then None
    else if StatusAt(s, from) then Some(from)
    else FirstStatus(s, from + 1)
  }

  /** `parseTweetIdFromHref`: nothing for a missing or empty href;
      otherwise the digits of the leftmost match, as many as follow (the
      `+` is greedy), or nothing when the href never matches. */
  function ParseTweetIdFromHref(href: Option<string>): (r: Option<string>)
    ensures !Truthy(href) ==> r.None?
    ensures Truthy(href) ==> (r.None? <==> forall j :: 0 <= j < |href.value| ==> !StatusAt(href.value, j))
    ensures r.Some? ==> r.value != "" && AllDigits(r.value)
    ensures r.Some? ==> exists i :: 0 <= i < |href.value| && StatusAt(href.value, i)
                          && (forall j :: 0 <= j < i ==> !StatusAt(href.value, j))
                          && IdAfter(href.value, i) == r.value
  {
    if !Truthy(href) then None
    else
      var s := href.value;
      match FirstStatus(s, 0)
      case None => None
      case Some(i) =>
        var id := IdAfter(s, i);
        Some(id)
  }

  /** The maximal run of digits after the marker at `i`. */
  function IdAfter(s: string, i: nat): (r: string)
    requires StatusAt(s, i)
    ensures r != "" && AllDigits(r)
    ensures var start := i + |StatusMarker|;
            start + |r| <= |s| && s[start..start + |r|] == r
            && (start + |r| < |s| ==> !IsDigit(s[start + |r|]))
  {
    var start := i + |StatusMarker|;
    var k := LeadingDigits(s[start..]);
    assert s[start..][..k] == s[start..start + k];
    s[start..start + k]
  }

  /** A link `…status/<id>` followed by something that is not a digit gives
      back the id, provided nothing before the marker already matches. */
  lemma ParseStatusLink(prefix: string, id: string, suffix: string)
    requires id != "" && AllDigits(id)
    requires suffix == [] || !IsDigit(suffix[0])
    requires forall j :: 0 <= j < |prefix| ==> !StatusAt(prefix + StatusMarker + id + suffix, j)
    ensures ParseTweetIdFromHref(Some(prefix + StatusMarker + id + suffix)) == Some(id)
  {
    var s := prefix + StatusMarker + id + suffix;
    var i := |prefix|;
    LinkParts(prefix, id, suffix);
    FirstStatusIs(s, i);
    MaximalRun(s, i + |StatusMarker|, id, IdAfter(s, i));
  }

  /** Where the marker and the id sit in the link. */
  lemma LinkParts(prefix: string, id: string, suffix: string)
    requires id != "" && AllDigits(id)
    ensures var s := prefix + StatusMarker + id + suffix;
            var start := |prefix| + |StatusMarker|;
            StatusAt(s, |prefix|) && s[start..start + |id|] == id
            && (start + |id| < |s| ==> s[start + |id|] == suffix[0])
  {
    var s := prefix + StatusMarker + id + suffix;
    var i := |prefix|;
    var start := i + |StatusMarker|;
    assert s[i..start] == StatusMarker;
    assert s[start..start + |id|] == id;
    assert s[start] == id[0];
  }

  /** A match with none before it is the leftmost one. */
  lemma FirstStatusIs(s: string, i: nat)
    requires i < |s| && StatusAt(s, i)
    requires forall j :: 0 <= j < i ==> !StatusAt(s, j)
    ensures FirstStatus(s, 0) == Some(i)
  {
  }

  /** Two maximal runs of digits from the same place are the same run. */
  lemma MaximalRun(s: string, start: nat, a: string, b: string)
    requires start + |a| <= |s| && s[start..start + |a|] == a && AllDigits(a)
    requires start + |b| <= |s| && s[start..start + |b|] == b && AllDigits(b)
    requires start + |a| < |s| ==> !IsDigit(s[start + |a|])
    requires start + |b| < |s| ==> !IsDigit(s[start + |b|])
    ensures a == b
  {
    forall k | 0 <= k < |a| ensures s[start + k] == a[k] {
      assert s[start..start + |a|][k] == a[k];
    }
    forall k | 0 <= k < |b| ensures s[start + k] == b[k] {
      assert s[start..start + |b|][k] == b[k];
    }
  }

}
