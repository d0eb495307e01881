/**
 Comparing two addresses segment by segment under a mask, against comparing the leading bits of the two
 128-bit numbers. (app/ssh/hostname-resolver.ts; section 2.3 of RFC 4291)
 */
module Ipv6Segments {
  import opened Arithmetic
  import opened Basics
  import opened JsNumbers
  import Cidr

  /** `(0xFFFF << (16 - bits)) & 0xFFFF` */
  function SegmentMask(bits: nat): int
    requires bits <= 16
  {
    BitAnd(ShiftLeft(0xFFFF, 16 - bits), 0xFFFF)
  }

  predicate SegmentMatches(x: int, y: int, bits: nat)
    requires bits <= 16
  {
    BitAnd(x, SegmentMask(bits)) == BitAnd(y, SegmentMask(bits))
  }

  /** The subnet's i-th segment; one that is missing reads as zero. */
  function SegmentOr0(subnet: seq<int>, i: nat): int {
    if i < |subnet| then subnet[i] else 0
  }

  /** The i-th segments agree under the mask. */
  predicate SameAt(ip: seq<int>, subnet: seq<int>, mask: nat, i: nat) {
    i < |ip| && 16 * i < mask ==> SegmentMatches(ip[i], SegmentOr0(subnet, i), Min(16, mask - 16 * i))
  }

  /** The comparison of segments from the i-th on. */
  predicate MatchesFrom(ip: seq<int>, subnet: seq<int>, mask: nat, i: nat) {
    forall j: nat :: i <= j < |ip| ==> SameAt(ip, subnet, mask, j)
  }

  ghost predicate SameBelow(ip: seq<int>, subnet: seq<int>, mask: nat, i: nat) {
    forall j: nat :: j < i ==> SameAt(ip, subnet, mask, j)
  }

  method MatchSegments(ip: seq<int>, subnet: seq<int>, mask: nat) returns (matches: bool)
    ensures matches == MatchesFrom(ip, subnet, mask, 0)
  {
    var bitsChecked, i := 0, 0;
    while i < |ip| && bitsChecked < mask
      invariant i <= |ip| && bitsChecked == 16 * i && SameBelow(ip, subnet, mask, i)
    {
      BelowStep(ip, subnet, mask, i);
      if !SameAt(ip, subnet, mask, i) {
        return false;
      }
      bitsChecked, i := bitsChecked + 16, i + 1;
    }
    NoneLeft(ip, subnet, mask, i);
    return true;
  }

  lemma BelowStep(ip: seq<int>, subnet: seq<int>, mask: nat, i: nat)
    requires i < |ip| && SameBelow(ip, subnet, mask, i)
    ensures if SameAt(ip, subnet, mask, i) then SameBelow(ip, subnet, mask, i + 1)
            else !MatchesFrom(ip, subnet, mask, 0)
  {
  }

  lemma NoneLeft(ip: seq<int>, subnet: seq<int>, mask: nat, i: nat)
    requires SameBelow(ip, subnet, mask, i) && (i >= |ip| || 16 * i >= mask)
    ensures MatchesFrom(ip, subnet, mask, 0)
  {
    BeyondMask(ip, subnet, mask, i);
  }

  lemma BeyondMask(ip: seq<int>, subnet: seq<int>, mask: nat, i: nat)
    requires i >= |ip| || 16 * i >= mask
    ensures MatchesFrom(ip, subnet, mask, i)
  {
  }

  lemma MatchesStep(ip: seq<int>, subnet: seq<int>, mask: nat, i: nat)
    requires i < |ip|
    ensures MatchesFrom(ip, subnet, mask, i) <==> SameAt(ip, subnet, mask, i) && MatchesFrom(ip, subnet, mask, i + 1)
  {
  }

  /** The number the segments write, most significant first. */
  function Number(segments: seq<nat>): nat {
    if segments == [] then 0 else Raise(segments[0], 16 * (|segments| - 1)) + Number(segments[1..])
  }

  // ----- masks ----------------------------------------------------------------------------------

  const TWO16: nat := 0x10000

  lemma Pow2Of16(n: nat)
    requires n == 16
    ensures Pow2(n) == TWO16
  {
    Cidr.Powers();
  }

  lemma ShiftedSegment(p: nat)
    requires 0 < p < TWO16
    ensures 0xFFFF * p < TWO32 && 0xFFFF * p % TWO16 == TWO16 - p
  {
    Cidr.WrapOnes(TWO16, p);
  }

  lemma LowSixteen(x: int)
    ensures BitAnd(x, 0xFFFF) == ToUint32(x) % TWO16
  {
    var n := 16;
    Pow2Of16(n);
    AndLow(ToUint32(x), n);
  }

  lemma ShiftedReads(k: nat)
    requires k < 16 && Pow2(k) < TWO16
    ensures ToUint32(ShiftLeft(0xFFFF, k)) == 0xFFFF * Pow2(k)
  {
    Cidr.ShiftReads(0xFFFF, k);
    ShiftedSegment(Pow2(k));
    SmallUint32(0xFFFF * Pow2(k));
  }

  lemma SegmentMaskIs(bits: nat)
    requires 0 < bits <= 16
    ensures Pow2(16 - bits) < TWO16 && SegmentMask(bits) == TWO16 - Pow2(16 - bits)
  {
    var n, k := 16, 16 - bits;
    Pow2Of16(n);
    Pow2Grows(k, n);
    ShiftedReads(k);
    LowSixteen(ShiftLeft(0xFFFF, k));
    ShiftedSegment(Pow2(k));
  }

  lemma MaskedSmall(x: nat, y: nat, m: nat)
    requires x < TWO32 && y < TWO32 && m < TWO32
    ensures BitAnd(x, m) == BitAnd(y, m) <==> And(x, m) == And(y, m)
  {
    MaskedCompare(x, y, m);
    SmallUint32(x);
    SmallUint32(y);
    SmallUint32(m);
  }

  lemma MaskedPrefix(x: nat, y: nat, k: nat)
    requires x < TWO16 && y < TWO16 && k < 16
    ensures Pow2(k) < TWO16
    ensures BitAnd(x, TWO16 - Pow2(k)) == BitAnd(y, TWO16 - Pow2(k)) <==> x / Pow2(k) == y / Pow2(k)
  {
    var n := 16;
    Pow2Of16(n);
    Pow2Grows(k, n);
    MaskedSmall(x, y, TWO16 - Pow2(k));
    MaskIsPrefix(x, y, n, k);
  }

  lemma {:induction false} RaiseBound(g: nat, n: nat, w: nat, v: nat)
    requires g < Pow2(n) && v < Pow2(w)
    ensures Raise(g, w) + v < Pow2(n + w)
  {
    if w > 0 {
      RaiseBound(g, n, w - 1, v / 2);
    }
  }

  /** Every segment fits 16 bits. */
  ghost predicate Fit(segments: seq<nat>) {
    forall i :: 0 <= i < |segments| ==> segments[i] < TWO16
  }

  lemma {:induction false} NumberBound(segments: seq<nat>)
    requires Fit(segments)
    ensures Number(segments) < Pow2(16 * |segments|)
  {
    if segments != [] {
      var k, n := 16 * (|segments| - 1), 16;
      NumberBound(segments[1..]);
      Pow2Of16(n);
      RaiseBound(segments[0], n, k, Number(segments[1..]));
    }
  }

  // ----- segments against the whole number --------------------------------------------------------

  /** The segment loop on values: the first segment's leading bits, then the rest. */
  ghost predicate PrefixByGroups(a: seq<nat>, b: seq<nat>, mask: nat)
    requires |a| == |b|
  {
    mask == 0 || a == [] ||
    (LeadingBits(a[0], b[0], mask)
     && PrefixByGroups(a[1..], b[1..], if mask <= 16 then 0 else mask - 16))
  }

  /** Two segments agree on the bits a mask of `mask` further bits covers. */
  ghost predicate LeadingBits(x: nat, y: nat, mask: nat) {
    Drop(x, 16 - Min(16, mask)) == Drop(y, 16 - Min(16, mask))
  }

  /** `x` without its low `d` bits. */
  function Drop(x: nat, d: nat): nat {
    if d == 0 then x else Drop(x / 2, d - 1)
  }

  lemma {:induction false} DropDivides(x: nat, d: nat)
    ensures Drop(x, d) == x / Pow2(d)
  {
    if d > 0 {
      DropDivides(x / 2, d - 1);
      HalveDiv(x, Pow2(d - 1));
    }
  }

  lemma HalveDiv(x: nat, p: nat)
    requires p > 0
    ensures x / (2 * p) == x / 2 / p
  {
    var h, q := x / 2, x / 2 / p;
    assert h == p * q + h % p;
    assert 2 * (p * q) == 2 * p * q;
    DivUnique(x, q, 2 * (h % p) + x % 2, 2 * p);
  }

  /** Dropping `d` bits of a first segment `g` followed by `w` bits of value `v`. */
  lemma {:induction false} DropWithin(g: nat, w: nat, v: nat, d: nat)
    requires d <= w && v < Pow2(w)
    ensures Drop(Raise(g, w) + v, d) == Raise(g, w - d) + Drop(v, d) && Drop(v, d) < Pow2(w - d)
  {
    if d > 0 {
      DropWithin(g, w - 1, v / 2, d - 1);
      assert (Raise(g, w) + v) / 2 == Raise(g, w - 1) + v / 2;
    }
  }

  /** Dropping the `w` bits and `d` more leaves the leading bits of the segment. */
  lemma {:induction false} DropBeyond(g: nat, w: nat, v: nat, d: nat)
    requires v < Pow2(w)
    ensures Drop(Raise(g, w) + v, w + d) == Drop(g, d)
  {
    if w > 0 {
      DropBeyond(g, w - 1, v / 2, d);
      assert (Raise(g, w) + v) / 2 == Raise(g, w - 1) + v / 2;
    }
  }

  lemma {:induction false} SamePieces(g: nat, h: nat, k: nat, u: nat, v: nat)
    requires u < Pow2(k) && v < Pow2(k)
    ensures Raise(g, k) + u == Raise(h, k) + v <==> g == h && u == v
  {
    if k > 0 {
      SamePieces(g, h, k - 1, u / 2, v / 2);
      assert (Raise(g, k) + u) / 2 == Raise(g, k - 1) + u / 2 && (Raise(g, k) + u) % 2 == u % 2;
      assert (Raise(h, k) + v) / 2 == Raise(h, k - 1) + v / 2 && (Raise(h, k) + v) % 2 == v % 2;
    }
  }

  lemma SameDrops(x: nat, y: nat, k: nat)
    ensures Drop(x, k) == Drop(y, k) <==> x / Pow2(k) == y / Pow2(k)
  {
    DropDivides(x, k);
    DropDivides(y, k);
  }

  lemma MaskedDrop(x: nat, y: nat, k: nat)
    requires x < TWO16 && y < TWO16 && k < 16
    ensures Pow2(k) < TWO16
    ensures BitAnd(x, TWO16 - Pow2(k)) == BitAnd(y, TWO16 - Pow2(k)) <==> Drop(x, k) == Drop(y, k)
  {
    MaskedPrefix(x, y, k);
    SameDrops(x, y, k);
  }

  /** Comparing a segment under a mask compares its leading bits. */
  lemma SegmentIsDrop(x: nat, y: nat, bits: nat)
    requires x < TWO16 && y < TWO16 && 0 < bits <= 16
    ensures SegmentMatches(x, y, bits) <==> Drop(x, 16 - bits) == Drop(y, 16 - bits)
  {
    SegmentMaskIs(bits);
    MaskedDrop(x, y, 16 - bits);
  }

  /** One segment of the comparison, on values: the mask ends within it. */
  lemma LastSegment(g: nat, h: nat, u: nat, v: nat, w: nat, mask: nat)
    requires u < Pow2(w) && v < Pow2(w) && 0 < mask <= 16
    ensures var d := 16 + w - mask;
      Drop(Raise(g, w) + u, d) == Drop(Raise(h, w) + v, d) <==> LeadingBits(g, h, mask)
  {
    DropBeyond(g, w, u, 16 - mask);
    DropBeyond(h, w, v, 16 - mask);
  }

  /** The mask covers the whole segment. */
  lemma FullSegment(g: nat, h: nat, u: nat, v: nat, w: nat, d: nat)
    requires u < Pow2(w) && v < Pow2(w) && d <= w
    ensures Drop(Raise(g, w) + u, d) == Drop(Raise(h, w) + v, d) <==> g == h && Drop(u, d) == Drop(v, d)
  {
    DropWithin(g, w, u, d);
    DropWithin(h, w, v, d);
    SamePieces(g, h, w - d, Drop(u, d), Drop(v, d));
  }

  lemma {:induction false} DropAll(x: nat, w: nat)
    requires x < Pow2(w)
    ensures Drop(x, w) == 0
  {
    if w > 0 {
      DropAll(x / 2, w - 1);
    }
  }

  lemma NumberSplits(a: seq<nat>)
    requires a != [] && Fit(a)
    ensures var w := 16 * (|a| - 1);
      Number(a) == Raise(a[0], w) + Number(a[1..]) && Number(a[1..]) < Pow2(w) && Fit(a[1..])
  {
    NumberBound(a[1..]);
  }

  lemma NothingToCompare(a: seq<nat>, b: seq<nat>)
    requires |a| == |b| && Fit(a) && Fit(b)
    ensures Drop(Number(a), 16 * |a|) == Drop(Number(b), 16 * |a|)
  {
    NumberBound(a);
    NumberBound(b);
    DropAll(Number(a), 16 * |a|);
    DropAll(Number(b), 16 * |a|);
  }

  lemma LastGroups(a: seq<nat>, b: seq<nat>, mask: nat)
    requires |a| == |b| > 0 && Fit(a) && Fit(b) && 0 < mask <= 16
    ensures var d := 16 * |a| - mask;
      LeadingBits(a[0], b[0], mask) <==> Drop(Number(a), d) == Drop(Number(b), d)
  {
    NumberSplits(a);
    NumberSplits(b);
    LastSegment(a[0], b[0], Number(a[1..]), Number(b[1..]), 16 * (|a| - 1), mask);
  }

  lemma FullGroups(a: seq<nat>, b: seq<nat>, mask: nat)
    requires |a| == |b| > 0 && Fit(a) && Fit(b) && 16 < mask <= 16 * |a|
    ensures var d := 16 * |a| - mask;
      Drop(Number(a), d) == Drop(Number(b), d) <==>
      a[0] == b[0] && Drop(Number(a[1..]), d) == Drop(Number(b[1..]), d)
  {
    NumberSplits(a);
    NumberSplits(b);
    FullSegment(a[0], b[0], Number(a[1..]), Number(b[1..]), 16 * (|a| - 1), 16 * |a| - mask);
  }

  lemma {:induction false} GroupsAreDrop(a: seq<nat>, b: seq<nat>, mask: nat)
    requires |a| == |b| && Fit(a) && Fit(b) && mask <= 16 * |a|
    ensures var d := 16 * |a| - mask;
      PrefixByGroups(a, b, mask) <==> Drop(Number(a), d) == Drop(Number(b), d)
  {
    if mask == 0 {
      NothingToCompare(a, b);
    } else if mask <= 16 {
      LastGroups(a, b, mask);
    } else {
      FullGroups(a, b, mask);
      GroupsAreDrop(a[1..], b[1..], mask - 16);
    }
  }

  lemma DropIsPrefix(x: nat, y: nat, width: nat, mask: nat)
    requires mask <= width
    ensures Drop(x, width - mask) == Drop(y, width - mask) <==> Cidr.SamePrefix(x, y, width, mask)
  {
    DropDivides(x, width - mask);
    DropDivides(y, width - mask);
  }

  lemma GroupsArePrefix(a: seq<nat>, b: seq<nat>, mask: nat)
    requires |a| == |b| && Fit(a) && Fit(b) && mask <= 16 * |a|
    ensures PrefixByGroups(a, b, mask) <==> Cidr.SamePrefix(Number(a), Number(b), 16 * |a|, mask)
  {
    GroupsAreDrop(a, b, mask);
    DropIsPrefix(Number(a), Number(b), 16 * |a|, mask);
  }

  /** The bits left to compare from the i-th segment on. */
  function Left(mask: nat, i: nat): nat {
    if mask <= 16 * i then 0 else mask - 16 * i
  }

  lemma GroupsStep(a: seq<nat>, b: seq<nat>, mask: nat, i: nat)
    requires |a| == |b| && i < |a| && Left(mask, i) > 0
    ensures PrefixByGroups(a[i..], b[i..], Left(mask, i)) <==>
      LeadingBits(a[i], b[i], mask - 16 * i)
      && PrefixByGroups(a[i + 1..], b[i + 1..], Left(mask, i + 1))
  {
    assert a[i..][1..] == a[i + 1..] && b[i..][1..] == b[i + 1..];
  }

  lemma SameAtIsLeading(a: seq<nat>, b: seq<nat>, mask: nat, i: nat)
    requires |a| == |b| && Fit(a) && Fit(b) && i < |a| && 16 * i < mask
    ensures SameAt(a, b, mask, i) <==> LeadingBits(a[i], b[i], mask - 16 * i)
  {
    SegmentIsDrop(a[i], b[i], Min(16, mask - 16 * i));
  }

  lemma {:induction false} MatchesIsGroups(a: seq<nat>, b: seq<nat>, mask: nat, i: nat)
    requires |a| == |b| && Fit(a) && Fit(b) && i <= |a|
    ensures MatchesFrom(a, b, mask, i) <==> PrefixByGroups(a[i..], b[i..], Left(mask, i))
    decreases |a| - i
  {
    if i < |a| && 16 * i < mask {
      MatchesIsGroups(a, b, mask, i + 1);
      MatchesStep(a, b, mask, i);
      SameAtIsLeading(a, b, mask, i);
      GroupsStep(a, b, mask, i);
    } else {
      BeyondMask(a, b, mask, i);
    }
  }

  /** The segment loop says whether the two numbers share their first `mask` bits. */
  lemma SegmentsMatchPrefix(a: seq<nat>, b: seq<nat>, mask: nat)
    requires |a| == |b| && Fit(a) && Fit(b) && mask <= 16 * |a|
    ensures MatchesFrom(a, b, mask, 0) <==> Cidr.SamePrefix(Number(a), Number(b), 16 * |a|, mask)
  {
    MatchesIsGroups(a, b, mask, 0);
    assert a[0..] == a && b[0..] == b;
    GroupsArePrefix(a, b, mask);
  }

  // ----- any integers as segments -----------------------------------------------------------------------

  /** A mask of `n` bits sees the `n` low bits only. */
  lemma {:induction false} AndSeesLow(x: nat, y: nat, n: nat)
    requires y < Pow2(n)
    ensures And(x, y) == And(LowBits(x, n), y)
  {
    if n > 0 {
      AndSeesLow(x / 2, y / 2, n - 1);
    }
  }

  lemma AndSeesRest(x: nat, y: nat, n: nat)
    requires y < Pow2(n)
    ensures And(x, y) == And(x % Pow2(n), y)
  {
    AndSeesLow(x, y, n);
    LowBitsAreRest(x, n);
  }

  lemma LowHalf(x: int)
    ensures ToUint32(x) % TWO16 == x % TWO16
  {
    assert x == 0x1_0000_0000 * (x / 0x1_0000_0000) + ToUint32(x);
    DivUnique(x, 0x1_0000 * (x / 0x1_0000_0000) + ToUint32(x) / TWO16, ToUint32(x) % TWO16, TWO16);
  }

  lemma AndSeesSegment(x: int, y: nat)
    requires y < TWO16
    ensures And(ToUint32(x), y) == And(x % TWO16, y)
  {
    var n := 16;
    Pow2Of16(n);
    AndSeesRest(ToUint32(x), y, n);
    LowHalf(x);
  }

  lemma BitAndSeesSegment(x: int, m: nat)
    requires m < TWO16
    ensures BitAnd(x, m) == BitAnd(x % TWO16, m)
  {
    SmallUint32(m);
    SmallUint32(x % TWO16);
    AndSeesSegment(x, m);
  }

  lemma SegmentMaskSmall(bits: nat)
    requires 0 < bits <= 16
    ensures 0 <= SegmentMask(bits) < TWO16
  {
    SegmentMaskIs(bits);
  }

  /** The subnet's first `n` segments as 16-bit numbers, missing ones as zero. */
  function Folded(subnet: seq<int>, n: nat): seq<nat> {
    seq(n, i requires 0 <= i < n => SegmentOr0(subnet, i) % TWO16)
  }

  lemma FoldedFits(segments: seq<nat>)
    requires Fit(segments)
    ensures Folded(segments, |segments|) == segments
  {
  }

  lemma SameAtFolded(ip: seq<nat>, subnet: seq<int>, mask: nat, i: nat)
    ensures SameAt(ip, subnet, mask, i) <==> SameAt(ip, Folded(subnet, |ip|), mask, i)
  {
    if i < |ip| && 16 * i < mask {
      SegmentMaskSmall(Min(16, mask - 16 * i));
      BitAndSeesSegment(SegmentOr0(subnet, i), SegmentMask(Min(16, mask - 16 * i)));
    }
  }

  /** Whatever the subnet's segments are, the loop compares prefixes with the number they fold to. */
  lemma AnySegmentsMatchPrefix(ip: seq<nat>, subnet: seq<int>, mask: nat)
    requires Fit(ip) && mask <= 16 * |ip|
    ensures MatchesFrom(ip, subnet, mask, 0) <==>
            Cidr.SamePrefix(Number(ip), Number(Folded(subnet, |ip|)), 16 * |ip|, mask)
  {
    forall i: nat | i < |ip|
      ensures SameAt(ip, subnet, mask, i) <==> SameAt(ip, Folded(subnet, |ip|), mask, i)
    {
      SameAtFolded(ip, subnet, mask, i);
    }
    SegmentsMatchPrefix(ip, Folded(subnet, |ip|), mask);
  }
}
