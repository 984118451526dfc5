/** MD5 residues (`md5_t`) and the order in which the digest index keeps them. */
module Digests {
  import opened Bits

  type Digest = d: seq<byte> | |d| == 16 witness seq(16, _ => 0)

  /** Bytes compare as unsigned numbers. */
  predicate Below(x: byte, y: byte) {
    x < y
  }

  lemma BelowIsOrder(x: byte, y: byte, z: byte)
    ensures Below(x, y) && Below(y, z) ==> Below(x, z)
    ensures !Below(x, x)
    ensures Below(x, y) || Below(y, x) || x == y
  {
  }

  /** `memcmp` from byte `i` on. */
  function MemCmp(a: Digest, b: Digest, i: nat): int
    requires i <= 16
    decreases 16 - i
  {
    if i == 16 then 0
    else if Below(a[i], b[i]) then -1
    else if Below(b[i], a[i]) then 1
    else MemCmp(a, b, i + 1)
  }

  /** `md5_t::operator<`, with its test of the first byte. */
  predicate Less(a: Digest, b: Digest) {
    if Below(a[0], b[0]) then true
    else if Below(b[0], a[0]) then false
    else MemCmp(a, b, 0) < 0
  }

  /** `md5_t::operator==`. */
  predicate Equal(a: Digest, b: Digest) {
    if a[0] != b[0] then false else MemCmp(a, b, 0) == 0
  }

  /** `i` is the first byte in which the two differ. */
  ghost predicate FirstDifference(a: Digest, b: Digest, i: int) {
    0 <= i < 16 && a[i] != b[i] && forall j | 0 <= j < i :: a[j] == b[j]
  }

  lemma {:induction false} MemCmpFinds(a: Digest, b: Digest, i: nat)
    requires i <= 16 && forall j | 0 <= j < i :: a[j] == b[j]
    ensures MemCmp(a, b, i) == 0 <==> a == b
    ensures MemCmp(a, b, i) < 0 <==> exists j :: FirstDifference(a, b, j) && Below(a[j], b[j])
    decreases 16 - i
  {
    hide Below;
    if i < 16 {
      BelowIsOrder(a[i], b[i], a[i]);
      if a[i] == b[i] {
        MemCmpFinds(a, b, i + 1);
      } else {
        assert FirstDifference(a, b, i);
        assert forall j | FirstDifference(a, b, j) :: j == i;
      }
    }
  }

  /** The operators compare lexicographically: the test of the first byte changes nothing. */
  lemma LessIsLexicographic(a: Digest, b: Digest)
    ensures Less(a, b) <==> exists j :: FirstDifference(a, b, j) && a[j] < b[j]
    ensures Equal(a, b) <==> a == b
  {
    LessByBelow(a, b);
  }

  lemma LessByBelow(a: Digest, b: Digest)
    ensures Less(a, b) <==> exists j :: FirstDifference(a, b, j) && Below(a[j], b[j])
    ensures Equal(a, b) <==> a == b
  {
    hide Below;
    BelowIsOrder(a[0], b[0], a[0]);
    MemCmpFinds(a, b, 0);
    if a[0] != b[0] { assert FirstDifference(a, b, 0); }
  }

  /** Two keys are equivalent in the index exactly when they are the same digest. */
  lemma IndexKeysAreDigests(a: Digest, b: Digest)
    ensures !Less(a, b) && !Less(b, a) <==> a == b
    ensures !(Less(a, b) && Less(b, a))
  {
    LessByBelow(a, b);
    LessByBelow(b, a);
    hide Below, Less;
    if a != b {
      var j := FindDifference(a, b, 0);
      BelowIsOrder(a[j], b[j], a[j]);
      assert FirstDifference(a, b, j) && FirstDifference(b, a, j);
    }
    forall i, j | FirstDifference(a, b, i) && FirstDifference(b, a, j)
      ensures i == j && !(Below(a[i], b[i]) && Below(b[i], a[i])) {
      BelowIsOrder(a[i], b[i], a[i]);
    }
  }

  lemma FindDifference(a: Digest, b: Digest, i: nat) returns (j: nat)
    requires a != b && i < 16 && forall h | 0 <= h < i :: a[h] == b[h]
    ensures FirstDifference(a, b, j)
    decreases 16 - i
  {
    if a[i] != b[i] {
      j := i;
    } else if i == 15 {
      assert false;
    } else {
      j := FindDifference(a, b, i + 1);
    }
  }

  /** The order is transitive, so the index is ordered by it. */
  lemma LessIsTransitive(a: Digest, b: Digest, c: Digest)
    requires Less(a, b) && Less(b, c)
    ensures Less(a, c)
  {
    LessByBelow(a, b);
    LessByBelow(b, c);
    LessByBelow(a, c);
    var i :| FirstDifference(a, b, i) && Below(a[i], b[i]);
    var j :| FirstDifference(b, c, j) && Below(b[j], c[j]);
    LexTransitive(a, b, c, i, j);
  }

  lemma LexTransitive(a: Digest, b: Digest, c: Digest, i: nat, j: nat)
    requires FirstDifference(a, b, i) && Below(a[i], b[i]) && FirstDifference(b, c, j) && Below(b[j], c[j])
    ensures exists h :: FirstDifference(a, c, h) && Below(a[h], c[h])
  {
    hide Below;
    var h := if i < j then i else j;
    BelowIsOrder(a[h], b[h], c[h]);
    BelowIsOrder(a[h], c[h], a[h]);
    assert FirstDifference(a, c, h);
  }
}
