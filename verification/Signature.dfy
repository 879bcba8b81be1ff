/** The search for the configuration checksum in enroll_config (limine/limine.c). */
module Signature {
  const CHECKSUM_SIZE: nat := 128

  predicate OccursAt(image: string, sig: string, s: nat)
  {
    s + |sig| <= |image| && image[s..s + |sig|] == sig
  }

  function MinSize(sig: string): nat { |sig| + CHECKSUM_SIZE }

  /** What the search answers: the byte after the first occurrence whose last byte has an index of at
      most |image| - |sig| - 128, or -1 when there is none. */
  ghost predicate Answer(image: string, sig: string, loc: int)
    requires |image| >= |sig| + 128
  {
    if loc < 0 then forall s: nat :: s + |sig| - 1 <= |image| - |sig| - 128 ==> !OccursAt(image, sig, s)
    else
      && |sig| <= loc && OccursAt(image, sig, loc - |sig|) && loc - 1 <= |image| - |sig| - 128
      && forall s: nat :: s < loc - |sig| ==> !OccursAt(image, sig, s)
  }

  /** The single-index search.  The index moves backwards on a failed match; the start of the match
      under way never does. */
  method FindChecksum(image: string, sig: string) returns (checksum_loc: int)
    requires |image| >= |sig| + 128 && sig != []
    ensures Answer(image, sig, checksum_loc) && -1 <= checksum_loc
    ensures checksum_loc >= 0 ==> checksum_loc + 128 <= |image|
  {
    checksum_loc := -1;
    var checked_count, i := 0, 0;
    while i < |image| - MinSize(sig) + 1
      invariant 0 <= checked_count <= i <= |image| && checked_count < |sig|
      invariant image[i - checked_count..i] == sig[..checked_count]
      invariant forall s: nat :: s < i - checked_count ==> !OccursAt(image, sig, s)
      decreases |image| - (i - checked_count), |image| - i
    {
      if image[i] != sig[checked_count] {
        NoMatch(image, sig, i, checked_count);
        if checked_count > 0 {
          i := i - checked_count;
          checked_count := 0;
        }
        i := i + 1;
        continue;
      }
      assert image[i - checked_count..i + 1] == image[i - checked_count..i] + [image[i]];
      checked_count := checked_count + 1;
      if checked_count == |sig| {
        checksum_loc := i + 1;
        return;
      }
      i := i + 1;
    }
    forall s: nat | s + |sig| - 1 <= |image| - |sig| - 128 ensures !OccursAt(image, sig, s) {
      TooLate(image, sig, i, checked_count, s);
    }
  }

  lemma NoMatch(image: string, sig: string, i: nat, c: nat)
    requires c <= i < |image| && c < |sig| && image[i] != sig[c]
    ensures !OccursAt(image, sig, i - c)
  {
    if i - c + |sig| <= |image| { assert image[i - c..i - c + |sig|][c] == image[i]; }
  }

  /** When the index has passed the last place it may read, no occurrence that ends there is left. */
  lemma TooLate(image: string, sig: string, i: nat, c: nat, s: nat)
    requires |image| >= |sig| + 128 && c <= i && c < |sig| && i >= |image| - |sig| - 127
    requires s + |sig| - 1 <= |image| - |sig| - 128
    requires forall s: nat :: s < i - c ==> !OccursAt(image, sig, s)
    ensures !OccursAt(image, sig, s)
  {
    assert s < i - c;
  }

  /** The bound of the loop counts the signature twice.  Of a first occurrence that leaves room for
      the checksum, the search finds exactly those that leave room for another |sig| - 1 bytes
      as well. */
  lemma FoundIffEarly(image: string, sig: string, s: nat, loc: int)
    requires |image| >= |sig| + 128 && OccursAt(image, sig, s) && s + |sig| + 128 <= |image| && loc >= -1
    requires forall t: nat :: t < s ==> !OccursAt(image, sig, t)
    requires Answer(image, sig, loc)
    ensures loc == s + |sig| <==> s + |sig| + 128 + |sig| - 1 <= |image|
    ensures loc != s + |sig| ==> loc == -1
  {
    if loc >= 0 {
      assert OccursAt(image, sig, loc - |sig|);
      assert loc - |sig| == s;
    }
  }

  /** So the smallest file that is accepted, the signature and the digits behind it, is never enough. */
  lemma SmallestFileFails(sig: string, digits: string, loc: int)
    requires |sig| > 1 && |digits| == 128 && loc >= -1
    requires Answer(sig + digits, sig, loc)
    ensures loc == -1
  {
    assert OccursAt(sig + digits, sig, 0);
    FoundIffEarly(sig + digits, sig, 0, loc);
  }
}
