/**
 * The IsMesh component: a 16-bit version counter, the channel mask and two
 * counts, with an equality that looks only at the version and the mask.
 */
module IsMeshComponent {
  import opened MeshChannels

  /** C# ushort. */
  type u16 = x: int | 0 <= x < 0x1_0000

  /** C# int. */
  type i32 = x: int | -0x8000_0000 <= x < 0x8000_0000

  /** `version++` on a ushort: wraps from 65535 to 0. */
  function Increment(version: u16): (r: u16)
    ensures r != version
    ensures version < 0xFFFF ==> r > version
    ensures version == 0xFFFF ==> r == 0
  {
    (version + 1) % 0x1_0000
  }

  /** Incrementing k times advances the counter by k modulo 65536. */
  function IncrementTimes(version: u16, k: nat): (r: u16)
    decreases k
  {
    if k == 0 then version else Increment(IncrementTimes(version, k - 1))
  }

  /** Incrementing first and then `k` times is incrementing `k + 1` times. */
  lemma {:induction false} IncrementTimesShift(version: u16, k: nat)
    ensures IncrementTimes(Increment(version), k) == IncrementTimes(version, k + 1)
    decreases k
  {
    if k > 0 {
      IncrementTimesShift(version, k - 1);
    }
  }

  /** Incrementing `k` times adds `k` modulo 65536. */
  lemma {:induction false} IncrementTimesWraps(version: u16, k: nat)
    ensures IncrementTimes(version, k) == (version + k) % 0x1_0000
    decreases k
  {
    if k > 0 {
      IncrementTimesWraps(version, k - 1);
      var x: nat := version + k - 1;
      ModSuccessor(x);
      calc {
        IncrementTimes(version, k);
        Increment(IncrementTimes(version, k - 1));
        Increment(x % 0x1_0000);
        (x % 0x1_0000 + 1) % 0x1_0000;
        (x + 1) % 0x1_0000;
      }
    }
  }

  /** Taking the remainder before or after adding one gives the same counter. */
  lemma ModSuccessor(x: nat)
    ensures (x % 0x1_0000 + 1) % 0x1_0000 == (x + 1) % 0x1_0000
  {
    var q := x / 0x1_0000;
    var r := x % 0x1_0000;
    assert x == q * 0x1_0000 + r;
    if r + 1 < 0x1_0000 {
      assert (x + 1) / 0x1_0000 == q;
    } else {
      assert x + 1 == (q + 1) * 0x1_0000;
      assert (x + 1) / 0x1_0000 == q + 1;
    }
  }

  /** Without wrap-around, k increments add exactly k. */
  lemma {:induction false} IncrementTimesNoWrap(version: u16, k: nat)
    requires version + k < 0x1_0000
    ensures IncrementTimes(version, k) == version + k
    decreases k
  {
    if k > 0 {
      IncrementTimesNoWrap(version, k - 1);
    }
  }

  /**
   * The counter is back where it started exactly after a multiple of 65536
   * increments, so it is not monotonic: a reader comparing versions misses
   * 65536 mutations in a row.
   */
  lemma VersionReturnsOnlyAfterMultiples(version: u16, k: nat)
    ensures IncrementTimes(version, k) == version <==> k % 0x1_0000 == 0
  {
    IncrementTimesWraps(version, k);
    var q := k / 0x1_0000;
    var r := k % 0x1_0000;
    assert version + k == q * 0x1_0000 + (version + r);
    if version + r < 0x1_0000 {
      DivMod(version + k, q, version + r);
    } else {
      DivMod(version + k, q + 1, version + r - 0x1_0000);
    }
  }

  /** Division by 65536 is unique. */
  lemma DivMod(x: int, q: int, r: int)
    requires 0 <= r < 0x1_0000 && x == q * 0x1_0000 + r
    ensures x % 0x1_0000 == r && x / 0x1_0000 == q
  {
    assert x == (x / 0x1_0000) * 0x1_0000 + x % 0x1_0000;
  }

  /** The component's fields, stored as given by its constructor. */
  datatype IsMesh = IsMesh(version: u16, channels: Mask, vertexCount: i32, indexCount: i32)

  /** Equals: version and channel mask agree; the counts are not compared. */
  function Equals(a: IsMesh, b: IsMesh): (r: bool)
    ensures r <==> a.(vertexCount := b.vertexCount, indexCount := b.indexCount) == b
  {
    a.version == b.version && a.channels == b.channels
  }

  /** operator ==: record equality once the counts are disregarded. */
  function EqualOp(a: IsMesh, b: IsMesh): (r: bool)
    ensures r <==> a.(vertexCount := b.vertexCount, indexCount := b.indexCount) == b
  {
    Equals(a, b)
  }

  /** operator !=: the records differ in their version or their channel mask. */
  function NotEqualOp(a: IsMesh, b: IsMesh): (r: bool)
    ensures r <==> a.(vertexCount := b.vertexCount, indexCount := b.indexCount) != b
    ensures r <==> a.version != b.version || a.channels != b.channels
  {
    !EqualOp(a, b)
  }

  /**
   * GetHashCode: HashCode.Combine of the version and the mask. Combine is
   * seeded per process, so it is a parameter here.
   */
  function HashCode(a: IsMesh, combine: (u16, Mask) -> int): int {
    combine(a.version, a.channels)
  }

  /** Equality is an equivalence, != is its negation, and it ignores the counts. */
  lemma EqualsIsEquivalence(a: IsMesh, b: IsMesh, c: IsMesh)
    ensures Equals(a, a)
    ensures Equals(a, b) <==> Equals(b, a)
    ensures Equals(a, b) && Equals(b, c) ==> Equals(a, c)
    ensures EqualOp(a, b) <==> Equals(a, b)
    ensures NotEqualOp(a, b) <==> !Equals(a, b)
    ensures Equals(a, b) <==> Equals(a.(vertexCount := b.vertexCount, indexCount := b.indexCount), b)
  {
  }

  /** Records that differ only in their counts are equal, although they are different values. */
  lemma CountsAreIgnored()
    ensures Equals(IsMesh(1, Positions, 4, 6), IsMesh(1, Positions, 3, 0))
    ensures IsMesh(1, Positions, 4, 6) != IsMesh(1, Positions, 3, 0)
  {
  }

  /** Equal records hash equally, whatever the combining function. */
  lemma EqualRecordsHashEqually(a: IsMesh, b: IsMesh, combine: (u16, Mask) -> int)
    requires Equals(a, b)
    ensures HashCode(a, combine) == HashCode(b, combine)
  {
  }
}
