/**
  The common name of a record: the longest prefix the baseline and test basenames
  share, compared byte by byte (get_common_prefix). A string is the C string's bytes,
  one char per byte, so a multi-byte UTF-8 character can be cut in the middle.
 */
module CommonName {

  /** The longest common prefix of a and b: a prefix of both that cannot be extended. */
  function CommonPrefix(a: string, b: string): (r: string)
    ensures |r| <= |a| && |r| <= |b|
    ensures r == a[..|r|] && r == b[..|r|]
    ensures |r| == |a| || |r| == |b| || a[|r|] != b[|r|]
  {
    if a == [] || b == [] || a[0] != b[0] then []
    else [a[0]] + CommonPrefix(a[1..], b[1..])
  }

  /** A common prefix that cannot be extended is the longest one. */
  lemma {:induction false} CommonPrefixUnique(a: string, b: string, r: string)
    requires |r| <= |a| && |r| <= |b|
    requires r == a[..|r|] && r == b[..|r|]
    requires |r| == |a| || |r| == |b| || a[|r|] != b[|r|]
    ensures r == CommonPrefix(a, b)
  {
    if r != [] {
      assert a[0] == r[0] == b[0];
      assert a[1..][..|r| - 1] == r[1..] == b[1..][..|r| - 1];
      CommonPrefixUnique(a[1..], b[1..], r[1..]);
    }
  }

  /** When one name is a prefix of the other, the shorter name is the common name. */
  lemma CommonPrefixOfPrefix(a: string, b: string)
    ensures |a| <= |b| && a == b[..|a|] ==> CommonPrefix(a, b) == a
    ensures |b| <= |a| && b == a[..|b|] ==> CommonPrefix(a, b) == b
  {
    if |a| <= |b| && a == b[..|a|] {
      CommonPrefixUnique(a, b, a);
    }
    if |b| <= |a| && b == a[..|b|] {
      CommonPrefixUnique(a, b, b);
    }
  }

  /** Comparing the names the other way round gives the same common name. */
  lemma CommonPrefixSymmetric(a: string, b: string)
    ensures CommonPrefix(a, b) == CommonPrefix(b, a)
  {
    CommonPrefixUnique(b, a, CommonPrefix(a, b));
  }

  /** The first byte where the names differ ends the common name. */
  lemma CommonPrefixStopsAtMismatch(a: string, b: string, x: nat)
    requires x < |a| && x < |b|
    requires a[..x] == b[..x] && a[x] != b[x]
    ensures CommonPrefix(a, b) == a[..x]
  {
    CommonPrefixUnique(a, b, a[..x]);
  }

  /** The worked example of two rendered-image names. */
  lemma CommonPrefixExample()
    ensures CommonPrefix("image_001_before.png", "image_001_after.png") == "image_001_"
  {
    CommonPrefixStopsAtMismatch("image_001_before.png", "image_001_after.png", 10);
  }

  /**
    get_common_prefix: scan both names from the start; at the first differing byte return
    the prefix before it, and when the shorter name runs out first return the shorter name
    (the first name when the lengths are equal).
   */
  method GetCommonPrefix(a: string, b: string) returns (r: string)
    requires |a| > 0 && |b| > 0
    ensures r == CommonPrefix(a, b)
    ensures |a| <= |b| && a == b[..|a|] ==> r == a
    ensures |b| < |a| && b == a[..|b|] ==> r == b
  {
    var maxPrefixLength := if |a| < |b| then |a| else |b|;
    var x := 0;
    while x < maxPrefixLength
      invariant x <= maxPrefixLength
      invariant a[..x] == b[..x]
    {
      if a[x] != b[x] {
        r := a[..x];
        CommonPrefixUnique(a, b, r);
        return;
      }
      x := x + 1;
    }
    if |a| > |b| {
      r := b;
    } else {
      r := a;
    }
    CommonPrefixUnique(a, b, r);
  }
}
