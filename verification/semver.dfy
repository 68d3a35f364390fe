/**
 The git tags the release automation moves when a version is published. A
 version is the `major.minor.patch` triple that `semver.parse` yields; the
 parser itself is a foreign library and appears only as a function parameter.
 */
module Semver {
  import opened JsText

  datatype Version = Version(major: nat, minor: nat, patch: nat)

  /** The message of the `TypeError` thrown when the result of `semver.parse`
      is destructured although the parser returned `null`. */
  const NullVersionMessage: string :=
    "Cannot destructure property 'major' of 'semver.parse(...)' as it is null."

  /** `v${major}` */
  function MajorTag(v: Version): (r: string)
    ensures |r| >= 2 && r[0] == 'v' && IsDigits(r[1..])
    ensures DecimalValue(r[1..]) == v.major
  {
    DecimalRoundTrip(v.major);
    var r := "v" + NatToDecimal(v.major);
    assert r[1..] == NatToDecimal(v.major);
    r
  }

  /** `v${major}.${minor}` */
  function MinorTag(v: Version): (r: string)
    ensures StartsWith(r, MajorTag(v) + ".")
    ensures |r| > |MajorTag(v)| + 1 && IsDigits(r[|MajorTag(v)| + 1..])
    ensures DecimalValue(r[|MajorTag(v)| + 1..]) == v.minor
  {
    DecimalRoundTrip(v.minor);
    var r := MajorTag(v) + "." + NatToDecimal(v.minor);
    assert r[|MajorTag(v)| + 1..] == NatToDecimal(v.minor);
    r
  }

  /** `v${major}.${minor}.${patch}` */
  function PatchTag(v: Version): (r: string)
    ensures StartsWith(r, MinorTag(v) + ".")
    ensures |r| > |MinorTag(v)| + 1 && IsDigits(r[|MinorTag(v)| + 1..])
    ensures DecimalValue(r[|MinorTag(v)| + 1..]) == v.patch
  {
    DecimalRoundTrip(v.patch);
    var r := MinorTag(v) + "." + NatToDecimal(v.patch);
    assert r[|MinorTag(v)| + 1..] == NatToDecimal(v.patch);
    r
  }

  /** The three tags a release moves when semver tags are synchronised, from
      the coarsest to the finest; each one extends the one before it. */
  function SyncTags(v: Version): (r: seq<string>)
    ensures |r| == 3
    ensures StartsWith(r[1], r[0] + ".") && StartsWith(r[2], r[1] + ".")
    ensures r == [MajorTag(v), MinorTag(v), PatchTag(v)]
  {
    StartsWithConcat(MajorTag(v) + ".", NatToDecimal(v.minor));
    StartsWithConcat(MinorTag(v) + ".", NatToDecimal(v.patch));
    [MajorTag(v), MinorTag(v), PatchTag(v)]
  }

  /** The tags that are moved only when their number is non-zero: `v{major}`
      unless the major is 0, then `v{major}.{minor}` unless the minor is 0. */
  function ConditionalTags(v: Version): (r: seq<string>)
    ensures MajorTag(v) in r <==> v.major != 0
    ensures MinorTag(v) in r <==> v.minor != 0
    ensures forall t :: t in r ==> t == MajorTag(v) || t == MinorTag(v)
    ensures |r| <= 2
    ensures |r| == 2 ==> r == [MajorTag(v), MinorTag(v)]
  {
    assert |MajorTag(v)| < |MinorTag(v)|;
    (if v.major != 0 then [MajorTag(v)] else [])
      + (if v.minor != 0 then [MinorTag(v)] else [])
  }

  /** A major tag names exactly one major version. */
  lemma MajorTagInjective(v: Version, w: Version)
    requires MajorTag(v) == MajorTag(w)
    ensures v.major == w.major
  {
    assert NatToDecimal(v.major) == MajorTag(v)[1..];
    assert NatToDecimal(w.major) == MajorTag(w)[1..];
    DecimalInjective(v.major, w.major);
  }
}
