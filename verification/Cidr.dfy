/**
 Matching an address against a subnet. (app/ssh/hostname-resolver.ts; section 3.1 of RFC 4632,
 sections 2.2 and 2.3 of RFC 4291)

 The matcher works on strings and on 32-bit or 16-bit masked pieces; the specification is equality of
 the leading bits of two integers.
 */
module Cidr {
  import opened Arithmetic
  import opened Basics
  import opened JsNumbers
  import opened JsText

  // ----- IPv4 -----------------------------------------------------------------------------------

  /** The `reduce` over the first `i` parts; a bad part resets the sum. */
  function SumOctets(parts: seq<string>, i: nat): int
    requires i <= |parts| == 4
  {
    if i == 0 then 0
    else
      var num := ParseInt(parts[i - 1], 10);
      if num.None? || num.value < 0 || num.value > 255 then 0
      else SumOctets(parts, i - 1) + ShiftLeft(num.value, 8 * (4 - i))
  }

  function IpToInt(addr: string): int {
    var parts := Split(addr, '.');
    if |parts| != 4 then 0 else SumOctets(parts, 4)
  }

  /** `(0xFFFFFFFF << (32 - mask)) >>> 0` */
  function Ipv4Mask(mask: nat): nat
    requires mask <= 32
  {
    ToUint32(ShiftLeft(0xFFFFFFFF, 32 - mask))
  }

  function IsIpv4InCidr(ip: string, subnet: string): bool {
    var parts := Split(subnet, '/');
    if |parts| < 2 then false
    else
      var mask := ParseInt(parts[1], 10);
      if mask.None? || mask.value < 0 || mask.value > 32 then false
      else BitAnd(IpToInt(ip), Ipv4Mask(mask.value)) == BitAnd(IpToInt(parts[0]), Ipv4Mask(mask.value))
  }

  /** A decimal numeral of at most `max`. */
  ghost predicate Decimal(s: string, max: nat) {
    s != "" && AllDigits(s, 10) && Value(s, 10) <= max
  }

  /** Four decimal octets. */
  ghost predicate Quad(parts: seq<string>) {
    |parts| == 4 && forall p :: p in parts ==> Decimal(p, 255)
  }

  ghost function QuadValue(parts: seq<string>): nat
    requires |parts| == 4
  {
    0x1000000 * Value(parts[0], 10) + 0x10000 * Value(parts[1], 10) + 0x100 * Value(parts[2], 10) + Value(parts[3], 10)
  }

  lemma NoSeparator(s: string, radix: nat)
    requires AllDigits(s, radix)
    ensures '.' !in s && '/' !in s && ':' !in s
  {
    assert forall c :: c in s ==> IsDigit(c, radix);
  }

  lemma Powers()
    ensures Pow2(0) == 1 && Pow2(8) == 0x100 && Pow2(16) == 0x10000 && Pow2(24) == 0x1000000
  {
    assert Pow2(4) == 16;
    assert Pow2(8) == 0x100;
    assert Pow2(12) == 0x1000;
    assert Pow2(16) == 0x10000;
    assert Pow2(20) == 0x100000;
  }

  lemma ShiftUnfolds(x: nat, n: nat)
    requires n < 32 && x < TWO32
    ensures ShiftLeft(x, n) == ToInt32(Raise(x, n))
  {
    SmallUint32(x);
    assert n % 32 == n;
  }

  lemma SmallInt32(x: nat)
    requires x < TWO32
    ensures ToInt32(x) == x - (if x < 0x8000_0000 then 0 else TWO32)
  {
    SmallUint32(x);
  }

  /** A number shifted to its place, as a signed 32-bit integer. */
  lemma ShiftSmall(v: nat, n: nat, x: nat)
    requires v < TWO32 && n < 32 && Raise(v, n) == x < TWO32
    ensures ShiftLeft(v, n) == x - (if x < 0x8000_0000 then 0 else TWO32)
  {
    ShiftUnfolds(v, n);
    SmallInt32(x);
  }

  lemma WrapUp(v: nat, high: int)
    requires v < TWO32 && (high == 0 || high == TWO32)
    ensures ToUint32(v - high) == v
  {
    SmallUint32(v);
    DivUnique(v - TWO32, -1, v, 0x1_0000_0000);
  }

  /** Four octets shifted to their places. */
  function ShiftedSum(a: nat, b: nat, c: nat, d: nat): int {
    ShiftLeft(a, 24) + ShiftLeft(b, 16) + ShiftLeft(c, 8) + ShiftLeft(d, 0)
  }

  lemma OctetSum(a: nat, b: nat, c: nat, d: nat)
    requires a < 256 && b < 256 && c < 256 && d < 256
    ensures ToUint32(ShiftedSum(a, b, c, d)) == 0x1000000 * a + 0x10000 * b + 0x100 * c + d < TWO32
  {
    RaiseOctets(a);
    RaiseOctets(b);
    RaiseOctet(c);
    RaiseOctet(d);
    ShiftSmall(a, 24, 0x1000000 * a);
    ShiftSmall(b, 16, 0x10000 * b);
    ShiftSmall(c, 8, 0x100 * c);
    ShiftSmall(d, 0, d);
    var v := 0x1000000 * a + 0x10000 * b + 0x100 * c + d;
    WrapUp(v, v - ShiftedSum(a, b, c, d));
  }

  /** The text of an octet, read as the matcher reads it. */
  ghost predicate Octet(s: string) {
    '.' !in s && '/' !in s && ParseInt(s, 10) == Some(Value(s, 10)) && Value(s, 10) <= 255
  }

  lemma PartsParse(parts: seq<string>)
    requires Quad(parts)
    ensures forall i :: 0 <= i < 4 ==> Octet(parts[i])
  {
    forall i | 0 <= i < 4 ensures Octet(parts[i]) {
      assert parts[i] in parts;
      NoSeparator(parts[i], 10);
      ParseDigits(parts[i], 10);
    }
  }

  /** The 32-bit sum stands for the address, whatever its sign. */
  lemma IpToIntIsValue(parts: seq<string>)
    requires Quad(parts)
    ensures ToUint32(IpToInt(Join(parts, '.'))) == QuadValue(parts) < TWO32
  {
    IpToIntSums(parts);
    SumIsValue(parts);
  }

  lemma SumIsValue(parts: seq<string>)
    requires Quad(parts)
    ensures ToUint32(SumOctets(parts, 4)) == QuadValue(parts) < TWO32
  {
    PartsParse(parts);
    SumOfFour(parts);
    OctetSum(Value(parts[0], 10), Value(parts[1], 10), Value(parts[2], 10), Value(parts[3], 10));
  }

  lemma IpToIntSums(parts: seq<string>)
    requires Quad(parts)
    ensures IpToInt(Join(parts, '.')) == SumOctets(parts, 4)
  {
    PartsParse(parts);
    assert forall p :: p in parts ==> '.' !in p;
    SplitUndoesJoin(parts, '.');
  }

  lemma SumOfFour(parts: seq<string>)
    requires Quad(parts)
    ensures SumOctets(parts, 4)
         == ShiftedSum(Value(parts[0], 10), Value(parts[1], 10), Value(parts[2], 10), Value(parts[3], 10))
  {
    PartsParse(parts);
    assert SumOctets(parts, 1) == ShiftLeft(Value(parts[0], 10), 24);
    assert SumOctets(parts, 2) == SumOctets(parts, 1) + ShiftLeft(Value(parts[1], 10), 16);
    assert SumOctets(parts, 3) == SumOctets(parts, 2) + ShiftLeft(Value(parts[2], 10), 8);
  }

  lemma WrapOnes(m: nat, p: nat)
    requires 0 < p < m
    ensures ((m - 1) * p) % m == m - p
  {
    assert (m - 1) * p == m * (p - 1) + (m - p);
    DivUnique((m - 1) * p, p - 1, m - p, m);
  }

  lemma ShiftOnes(n: nat)
    requires n < 32
    ensures Pow2(n) < TWO32 && ToUint32(ShiftLeft(0xFFFFFFFF, n)) == TWO32 - Pow2(n)
  {
    var p := Pow2(n);
    Pow2BelowTwo32(n);
    WrapOnes(TWO32, p);
    ShiftReads(0xFFFFFFFF, n);
  }

  lemma ShiftReads(x: nat, n: nat)
    requires n < 32 && x < TWO32
    ensures ToUint32(ShiftLeft(x, n)) == x * Pow2(n) % TWO32
  {
    ShiftUnfolds(x, n);
    Uint32OfInt32(Raise(x, n));
    RaiseMultiplies(x, n);
  }

  lemma Pow2BelowTwo32(n: nat)
    requires n < 32
    ensures Pow2(n) < TWO32
  {
    var w := 32;
    Pow2Of32(w);
    Pow2Grows(n, w);
  }

  /** How many low bits the mask clears: none for mask 0, because the shift count wraps. */
  function Cleared(mask: nat): nat
    requires mask <= 32
  {
    if mask == 0 then 0 else 32 - mask
  }

  lemma Ipv4MaskIs(mask: nat)
    requires mask <= 32
    ensures Pow2(Cleared(mask)) < TWO32 && Ipv4Mask(mask) == TWO32 - Pow2(Cleared(mask))
  {
    if mask == 0 {
      ShiftOnes(0);
      assert ShiftLeft(0xFFFFFFFF, 32) == ShiftLeft(0xFFFFFFFF, 0);
    } else {
      ShiftOnes(32 - mask);
    }
  }

  /** Two addresses share their first `mask` bits. */
  ghost predicate SamePrefix(x: nat, y: nat, width: nat, mask: nat)
    requires mask <= width
  {
    x / Pow2(width - mask) == y / Pow2(width - mask)
  }

  lemma SubnetParts(base: string, mask: string)
    requires '/' !in base && mask != "" && AllDigits(mask, 10)
    ensures Split(base + "/" + mask, '/') == [base, mask] && ParseInt(mask, 10) == Some(Value(mask, 10))
  {
    NoSeparator(mask, 10);
    assert base + "/" + mask == base + ['/'] + mask;
    SplitSep(base, mask, '/');
    SplitPlain(base, '/');
    ParseDigits(mask, 10);
  }

  lemma JoinAvoids(parts: seq<string>, sep: char, c: char)
    requires c != sep && forall p :: p in parts ==> c !in p
    ensures c !in Join(parts, sep)
  {
    if |parts| > 1 {
      JoinAvoids(parts[..|parts| - 1], sep, c);
    }
  }

  /**
   For valid addresses and masks 1 to 32 the matcher compares exactly the leading bits. For mask 0 the
   shift count 32 wraps to 0 and the matcher compares all 32 bits.
   */
  lemma Ipv4MatchesPrefix(a: seq<string>, b: seq<string>, mask: string)
    requires Quad(a) && Quad(b) && Decimal(mask, 32)
    ensures var m := Value(mask, 10);
      IsIpv4InCidr(Join(a, '.'), Join(b, '.') + "/" + mask) <==>
        if m == 0 then QuadValue(a) == QuadValue(b) else SamePrefix(QuadValue(a), QuadValue(b), 32, m)
  {
    var x, y, subnet := Join(a, '.'), Join(b, '.'), Join(b, '.') + "/" + mask;
    Ipv4Reads(x, b, mask);
    IpToIntIsValue(a);
    IpToIntIsValue(b);
    Ipv4Compares(IpToInt(x), IpToInt(y), Value(mask, 10));
  }

  /** A subnet without a mask, or with one beyond 32 bits, matches nothing. */
  lemma Ipv4NeedsMask(ip: string, base: string, mask: string)
    requires '/' !in base && mask != "" && AllDigits(mask, 10) && Value(mask, 10) > 32
    ensures !IsIpv4InCidr(ip, base) && !IsIpv4InCidr(ip, base + "/" + mask)
  {
    SplitPlain(base, '/');
    SubnetParts(base, mask);
  }

  /** What the string handling of the matcher comes down to. */
  lemma Ipv4Reads(ip: string, b: seq<string>, mask: string)
    requires Quad(b) && Decimal(mask, 32)
    ensures var m := Value(mask, 10);
      IsIpv4InCidr(ip, Join(b, '.') + "/" + mask) <==>
        BitAnd(IpToInt(ip), Ipv4Mask(m)) == BitAnd(IpToInt(Join(b, '.')), Ipv4Mask(m))
  {
    PartsParse(b);
    assert forall p :: p in b ==> '/' !in p;
    JoinAvoids(b, '.', '/');
    SubnetParts(Join(b, '.'), mask);
  }

  lemma Ipv4Compares(x: int, y: int, mask: nat)
    requires mask <= 32
    ensures BitAnd(x, Ipv4Mask(mask)) == BitAnd(y, Ipv4Mask(mask)) <==>
      if mask == 0 then ToUint32(x) == ToUint32(y) else SamePrefix(ToUint32(x), ToUint32(y), 32, mask)
  {
    var n, k := 32, Cleared(mask);
    Pow2Of32(n);
    Ipv4MaskIs(mask);
    SmallUint32(Ipv4Mask(mask));
    MaskedCompare(x, y, Ipv4Mask(mask));
    MaskIsPrefix(ToUint32(x), ToUint32(y), n, k);
    assert mask == 0 ==> Pow2(k) == 1;
  }

  // ----- any text as a subnet ---------------------------------------------------------------------------

  /** The text in front of the first slash. */
  function BaseOf(subnet: string): string {
    Split(subnet, '/')[0]
  }

  /** The number behind the first slash, if any. */
  function MaskOf(subnet: string): Option<int> {
    var parts := Split(subnet, '/');
    if |parts| < 2 then None else ParseInt(parts[1], 10)
  }

  predicate HasMask(subnet: string, max: nat) {
    MaskOf(subnet).Some? && 0 <= MaskOf(subnet).value <= max
  }

  predicate GoodOctet(s: string) {
    ParseInt(s, 10).Some? && 0 <= ParseInt(s, 10).value <= 255
  }

  /** An octet as the reader counts it: a bad octet voids itself and those before it. */
  function CountedOctet(parts: seq<string>, i: nat): nat
    requires i < 4 == |parts|
  {
    if forall j :: i <= j < 4 ==> GoodOctet(parts[j]) then ParseInt(parts[i], 10).value else 0
  }

  /** The address a text stands for: zero unless it has four parts. */
  function ReadAddress(text: string): nat {
    var parts := Split(text, '.');
    if |parts| != 4 then 0
    else 0x1000000 * CountedOctet(parts, 0) + 0x10000 * CountedOctet(parts, 1)
         + 0x100 * CountedOctet(parts, 2) + CountedOctet(parts, 3)
  }

  lemma {:induction false} RaiseZero(n: nat)
    ensures Raise(0, n) == 0
  {
    if n > 0 {
      RaiseZero(n - 1);
    }
  }

  lemma ShiftZero(n: nat)
    ensures ShiftLeft(0, n) == 0
  {
    RaiseZero(n % 32);
  }

  /** A good octet adds its shifted value, a bad one starts again at zero. */
  lemma SumStep(parts: seq<string>, i: nat)
    requires i < |parts| == 4
    ensures SumOctets(parts, i + 1) ==
      if GoodOctet(parts[i]) then SumOctets(parts, i) + ShiftLeft(ParseInt(parts[i], 10).value, 8 * (3 - i)) else 0
  {
  }

  lemma SumCounts(parts: seq<string>)
    requires |parts| == 4
    ensures SumOctets(parts, 4) == ShiftedSum(CountedOctet(parts, 0), CountedOctet(parts, 1),
                                              CountedOctet(parts, 2), CountedOctet(parts, 3))
  {
    SumStep(parts, 0);
    SumStep(parts, 1);
    SumStep(parts, 2);
    SumStep(parts, 3);
    ShiftZero(24);
    ShiftZero(16);
    ShiftZero(8);
    ShiftZero(0);
  }

  lemma IpToIntReads(text: string)
    ensures ToUint32(IpToInt(text)) == ReadAddress(text) < TWO32
  {
    var parts := Split(text, '.');
    if |parts| == 4 {
      SumCounts(parts);
      OctetSum(CountedOctet(parts, 0), CountedOctet(parts, 1), CountedOctet(parts, 2), CountedOctet(parts, 3));
    }
  }

  /**
   For any text at all as the subnet: it holds an address if and only if it has a mask of 0 to 32 and the leading
   bits agree with the address its base is read as, all 32 of them for mask 0.
   */
  lemma Ipv4MatchesText(a: seq<string>, subnet: string)
    requires Quad(a)
    ensures IsIpv4InCidr(Join(a, '.'), subnet) <==>
      HasMask(subnet, 32) &&
      var m, base := MaskOf(subnet).value, ReadAddress(BaseOf(subnet));
      if m == 0 then QuadValue(a) == base else SamePrefix(QuadValue(a), base, 32, m)
  {
    if HasMask(subnet, 32) {
      IpToIntIsValue(a);
      IpToIntReads(BaseOf(subnet));
      Ipv4Compares(IpToInt(Join(a, '.')), IpToInt(BaseOf(subnet)), MaskOf(subnet).value);
    }
  }

  lemma WholeIsEmptyPrefix(x: nat, y: nat)
    requires x < TWO32 && y < TWO32
    ensures SamePrefix(x, y, 32, 0)
  {
    var n := 32;
    Pow2Of32(n);
    DivUnique(x, 0, x, Pow2(n));
    DivUnique(y, 0, y, Pow2(n));
  }

  /** So a block matches as section 3.1 of RFC 4632 says if and only if it is not /0, or is its own address. */
  lemma Ipv4CorrectIff(a: seq<string>, b: seq<string>, mask: string)
    requires Quad(a) && Quad(b) && Decimal(mask, 32)
    ensures (IsIpv4InCidr(Join(a, '.'), Join(b, '.') + "/" + mask) <==>
             SamePrefix(QuadValue(a), QuadValue(b), 32, Value(mask, 10)))
            <==> Value(mask, 10) > 0 || QuadValue(a) == QuadValue(b)
  {
    Ipv4MatchesPrefix(a, b, mask);
    if Value(mask, 10) == 0 {
      IpToIntIsValue(a);
      IpToIntIsValue(b);
      WholeIsEmptyPrefix(QuadValue(a), QuadValue(b));
    }
  }

  lemma OneDigit(s: string)
    requires |s| == 1 && IsDigit(s[0], 10)
    ensures Value(s, 10) == Digit(s[0]) && Decimal(s, 9)
  {
    assert s[..0] == "" && Value("", 10) == 0;
  }

  lemma Ten()
    ensures Value("10", 10) == 10 && Decimal("10", 10)
  {
    assert "10"[..1] == "1";
    OneDigit("1");
  }

  /** 0.0.0.0/0 should hold every address and does not hold 10.0.0.1. */
  lemma ZeroMaskFails() returns (a: seq<string>, b: seq<string>, mask: string)
    ensures a == ["10", "0", "0", "1"] && b == ["0", "0", "0", "0"] && mask == "0"
    ensures Quad(a) && Quad(b) && Decimal(mask, 32) && SamePrefix(QuadValue(a), QuadValue(b), 32, Value(mask, 10))
    ensures !IsIpv4InCidr(Join(a, '.'), Join(b, '.') + "/" + mask)
  {
    a, b, mask := ["10", "0", "0", "1"], ["0", "0", "0", "0"], "0";
    Ten();
    OneDigit("0");
    OneDigit("1");
    Ipv4MatchesPrefix(a, b, mask);
    WholeIsEmptyPrefix(QuadValue(a), QuadValue(b));
  }
}
