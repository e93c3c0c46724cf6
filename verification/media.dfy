/** Choosing the video stream to play (utils/media.ts). */
module Media {
  import opened Wrappers
  import opened TweetTypes

  const Mp4: string := "video/mp4"

  /** `bitrate ?? 0`. */
  function Bitrate(v: Variant): int {
    v.bitrate.GetOr(0)
  }

  predicate IsMp4(v: Variant) {
    v.contentType == Mp4
  }

  /** The position of the first MP4 variant at or after `from` with the
      highest bitrate: what a stable descending sort puts first. */
  function BestMp4From(vs: seq<Variant>, from: nat): (k: nat)
    requires from < |vs|
    requires exists j :: from <= j < |vs| && IsMp4(vs[j])
    ensures from <= k < |vs| && IsMp4(vs[k])
    ensures forall j :: from <= j < |vs| && IsMp4(vs[j]) ==> Bitrate(vs[j]) <= Bitrate(vs[k])
    ensures forall j :: from <= j < k && IsMp4(vs[j]) ==> Bitrate(vs[j]) < Bitrate(vs[k])
    decreases |vs| - from
  {
    if !IsMp4(vs[from]) then BestMp4From(vs, from + 1)
    else if !exists j :: from + 1 <= j < |vs| && IsMp4(vs[j]) then from
    else
      var rest := BestMp4From(vs, from + 1);
      if Bitrate(vs[from]) >= Bitrate(vs[rest]) then from else rest
  }

  /** `selectVideoVariant`: the highest-bitrate MP4 stream (the earliest
      among equals), else the first variant of any kind, else nothing. */
  function SelectVideoVariant(variants: Option<seq<Variant>>): (r: Option<Variant>)
    ensures r.None? <==> variants.GetOr([]) == []
    ensures r.Some? ==> r.value in variants.GetOr([])
    ensures (exists j :: 0 <= j < |variants.GetOr([])| && IsMp4(variants.GetOr([])[j])) ==>
      r.Some? && IsMp4(r.value)
      && forall v :: v in variants.GetOr([]) && IsMp4(v) ==> Bitrate(v) <= Bitrate(r.value)
    ensures (forall v :: v in variants.GetOr([]) ==> !IsMp4(v)) && variants.GetOr([]) != [] ==>
      r == Some(variants.GetOr([])[0])
  {
    var vs := variants.GetOr([]);
    if exists j :: 0 <= j < |vs| && IsMp4(vs[j]) then
      var k := BestMp4From(vs, 0);
      Some(vs[k])
    else if vs == [] then None
    else Some(vs[0])
  }
}
