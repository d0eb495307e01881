/**
 Matching an IPv6 address against a subnet: lower-casing, `::` expansion, padding, and the comparison
 of 16-bit segments. (app/ssh/hostname-resolver.ts; sections 2.2 and 2.3 of RFC 4291)
 */
module Ipv6Cidr {
  import opened Basics
  import opened JsNumbers
  import opened JsText
  import opened Ipv6Segments
  import Cidr

  // ----- the code -------------------------------------------------------------------------------

  function Lower(s: string): string {
    seq(|s|, i requires 0 <= i < |s| =>
      if 'A' <= s[i] <= 'Z' then (s[i] as int - 'A' as int + 'a' as int) as char else s[i])
  }

  predicate DoubleAt(s: string, i: nat) {
    i + 1 < |s| && s[i] == ':' && s[i + 1] == ':'
  }

  /** The position of the first `::`, or the length. */
  function FindDouble(s: string): (i: nat)
    ensures i <= |s| && (i < |s| ==> DoubleAt(s, i))
    ensures forall j: nat :: j < i ==> !DoubleAt(s, j)
  {
    if s == "" then 0
    else if DoubleAt(s, 0) then 0
    else
      var rest := FindDouble(s[1..]);
      assert forall j: nat :: 0 < j ==> (DoubleAt(s, j) <==> DoubleAt(s[1..], j - 1));
      rest + 1
  }

  function NonEmpty(parts: seq<string>): seq<string> {
    if parts == [] then []
    else NonEmpty(parts[..|parts| - 1]) + (if parts[|parts| - 1] == "" then [] else [parts[|parts| - 1]])
  }

  function PadAll(groups: seq<string>): seq<string> {
    seq(|groups|, i requires 0 <= i < |groups| => Pad(groups[i], 4))
  }

  function Zeros(n: nat): seq<string> {
    seq(n, i => "0")
  }

  /** Two halves of an address, filled up to eight groups with zero groups in between. */
  function Fill(left: seq<string>, right: seq<string>): seq<string> {
    left + Zeros(Max(0, 8 - |left| - |right|)) + right
  }

  /** The two texts around `::`. */
  function Expand(before: string, after: string): seq<string> {
    Fill(NonEmpty(Split(before, ':')), NonEmpty(Split(after, ':')))
  }

  function Normalize(addr: string): string {
    var i := FindDouble(addr);
    if i < |addr| then
      var rest := addr[i + 2..];
      Join(PadAll(Expand(addr[..i], rest[..FindDouble(rest)])), ':')
    else Join(PadAll(Split(addr, ':')), ':')
  }

  /** A segment's value; NaN counts as zero under `&`. */
  function Segment(s: string): int {
    var v := ParseInt(s, 16);
    if v.Some? then v.value else 0
  }

  function Segments(address: string): seq<int> {
    var parts := Split(address, ':');
    seq(|parts|, i requires 0 <= i < |parts| => Segment(parts[i]))
  }

  method MatchesMask(ip: string, subnet: string, mask: nat) returns (matches: bool)
    ensures matches == MatchesFrom(Segments(ip), Segments(subnet), mask, 0)
  {
    matches := MatchSegments(Segments(ip), Segments(subnet), mask);
  }

  function IsIpv6InCidr(ip: string, subnet: string): bool {
    var parts := Split(subnet, '/');
    if |parts| < 2 then false
    else
      var mask := ParseInt(parts[1], 10);
      if mask.None? || mask.value < 0 || mask.value > 128 then false
      else MatchesFrom(Segments(Normalize(Lower(ip))), Segments(Normalize(Lower(parts[0]))), mask.value, 0)
  }

  // ----- addresses ------------------------------------------------------------------------------

  /** The textual forms of section 2.2 of RFC 4291 without embedded IPv4. */
  datatype Text = Full(groups: seq<string>) | Compressed(left: seq<string>, right: seq<string>)

  /** One to four hexadecimal digits. */
  ghost predicate Hex(s: string) {
    1 <= |s| <= 4 && AllDigits(s, 16)
  }

  ghost predicate AllHex(groups: seq<string>) {
    forall i :: 0 <= i < |groups| ==> Hex(groups[i])
  }

  ghost predicate WellFormed(t: Text) {
    match t
    case Full(groups) => |groups| == 8 && AllHex(groups)
    case Compressed(left, right) => |left| + |right| <= 8 && AllHex(left) && AllHex(right)
  }

  function Render(t: Text): string {
    match t
    case Full(groups) => Join(groups, ':')
    case Compressed(left, right) => Join(left, ':') + "::" + Join(right, ':')
  }

  function Groups(t: Text): seq<string> {
    match t
    case Full(groups) => groups
    case Compressed(left, right) => Fill(left, right)
  }

  // ----- lower-casing ---------------------------------------------------------------------------

  lemma LowerAppend(s: string, t: string)
    ensures Lower(s + t) == Lower(s) + Lower(t)
  {
  }

  function LowerAll(groups: seq<string>): seq<string> {
    seq(|groups|, i requires 0 <= i < |groups| => Lower(groups[i]))
  }

  lemma {:induction false} LowerJoin(groups: seq<string>)
    ensures Lower(Join(groups, ':')) == Join(LowerAll(groups), ':')
  {
    if |groups| > 1 {
      var n := |groups| - 1;
      LowerJoin(groups[..n]);
      LowerAppend(Join(groups[..n], ':') + [':'], groups[n]);
      LowerAppend(Join(groups[..n], ':'), [':']);
      assert Lower([':']) == [':'];
      assert LowerAll(groups)[..n] == LowerAll(groups[..n]);
    }
  }

  lemma LowerDigit(c: char)
    requires IsDigit(c, 16)
    ensures var d := Lower([c])[0]; IsDigit(d, 16) && Digit(d) == Digit(c)
  {
  }

  lemma {:induction false} LowerKeepsHex(s: string)
    requires AllDigits(s, 16)
    ensures AllDigits(Lower(s), 16) && Value(Lower(s), 16) == Value(s, 16) && |Lower(s)| == |s|
  {
    if s != "" {
      var n := |s| - 1;
      LowerKeepsHex(s[..n]);
      LowerDigit(s[n]);
      assert Lower(s)[..n] == Lower(s[..n]) && Lower(s)[n] == Lower([s[n]])[0];
    }
  }

  function LowerText(t: Text): Text {
    match t
    case Full(groups) => Full(LowerAll(groups))
    case Compressed(left, right) => Compressed(LowerAll(left), LowerAll(right))
  }

  lemma LowerRender(t: Text)
    ensures Lower(Render(t)) == Render(LowerText(t))
  {
    match t
    case Full(groups) => LowerJoin(groups);
    case Compressed(left, right) =>
      LowerJoin(left);
      LowerJoin(right);
      LowerAppend(Join(left, ':') + "::", Join(right, ':'));
      LowerAppend(Join(left, ':'), "::");
      assert Lower("::") == "::";
  }

  // ----- expansion ------------------------------------------------------------------------------

  lemma HexHasNoColon(s: string)
    requires Hex(s)
    ensures ':' !in s && '/' !in s
  {
    Cidr.NoSeparator(s, 16);
  }

  /** Joined groups hold no `::` and neither start nor end with a colon. */
  lemma {:induction false} JoinHasNoDouble(groups: seq<string>)
    requires AllHex(groups)
    ensures var s := Join(groups, ':');
      && (forall j: nat :: !DoubleAt(s, j))
      && (s != "" ==> s[0] != ':' && s[|s| - 1] != ':')
      && (s == "" <==> groups == [])
  {
    if groups != [] {
      var n := |groups| - 1;
      HexHasNoColon(groups[n]);
      if n > 0 {
        JoinHasNoDouble(groups[..n]);
        var init := Join(groups[..n], ':');
        var s := init + [':'] + groups[n];
        assert s == Join(groups, ':');
        forall j: nat ensures !DoubleAt(s, j) {
          assert j + 1 < |init| ==> !DoubleAt(init, j);
          assert j > |init| && j < |s| ==> s[j] in groups[n];
          assert j + 1 == |s| - 1 ==> s[j + 1] in groups[n];
          assert j == |init| && j + 1 < |s| ==> s[j + 1] in groups[n];
        }
        assert s[|s| - 1] in groups[n];
      } else {
        assert groups[0][0] in groups[0] && groups[0][|groups[0]| - 1] in groups[0];
        assert forall j: nat :: j < |groups[0]| ==> groups[0][j] in groups[0];
      }
    }
  }

  lemma FindInCompressed(a: string, b: string)
    requires (forall j: nat :: !DoubleAt(a, j)) && (a != "" ==> a[|a| - 1] != ':')
    ensures FindDouble(a + "::" + b) == |a|
  {
    var s := a + "::" + b;
    assert DoubleAt(s, |a|);
    forall j: nat | j < |a| ensures !DoubleAt(s, j) {
      assert j + 1 < |a| ==> !DoubleAt(a, j);
    }
  }

  lemma FindNothing(s: string)
    requires forall j: nat :: !DoubleAt(s, j)
    ensures FindDouble(s) == |s|
  {
  }

  lemma {:induction false} NonEmptyAll(parts: seq<string>)
    requires forall i :: 0 <= i < |parts| ==> parts[i] != ""
    ensures NonEmpty(parts) == parts
  {
    if parts != [] {
      NonEmptyAll(parts[..|parts| - 1]);
    }
  }

  /** Splitting and filtering a joined half of an address gives back its groups. */
  lemma HalfReadsBack(groups: seq<string>)
    requires AllHex(groups)
    ensures NonEmpty(Split(Join(groups, ':'), ':')) == groups
  {
    if groups == [] {
      assert [""][..0] == [];
      assert NonEmpty([""]) == [];
    } else {
      forall p | p in groups ensures ':' !in p { HexHasNoColon(p); }
      SplitUndoesJoin(groups, ':');
      NonEmptyAll(groups);
    }
  }

  lemma NormalizeFull(groups: seq<string>)
    requires AllHex(groups) && groups != []
    ensures Normalize(Join(groups, ':')) == Join(PadAll(groups), ':')
  {
    JoinHasNoDouble(groups);
    FindNothing(Join(groups, ':'));
    forall p | p in groups ensures ':' !in p { HexHasNoColon(p); }
    SplitUndoesJoin(groups, ':');
  }

  lemma CutAt(a: string, b: string)
    ensures var s := a + "::" + b; s[..|a|] == a && s[|a| + 2..] == b && |s| == |a| + 2 + |b|
  {
  }

  lemma NormalizeAt(a: string, b: string)
    requires FindDouble(a + "::" + b) == |a| && FindDouble(b) == |b|
    ensures Normalize(a + "::" + b) == Join(PadAll(Expand(a, b)), ':')
  {
    CutAt(a, b);
    assert b[..|b|] == b;
  }

  lemma ExpandReadsBack(left: seq<string>, right: seq<string>)
    requires AllHex(left) && AllHex(right)
    ensures Expand(Join(left, ':'), Join(right, ':')) == Groups(Compressed(left, right))
  {
    HalfReadsBack(left);
    HalfReadsBack(right);
  }

  lemma NormalizeCompressed(left: seq<string>, right: seq<string>)
    requires AllHex(left) && AllHex(right)
    ensures Normalize(Render(Compressed(left, right))) == Join(PadAll(Groups(Compressed(left, right))), ':')
  {
    JoinHasNoDouble(left);
    JoinHasNoDouble(right);
    FindInCompressed(Join(left, ':'), Join(right, ':'));
    FindNothing(Join(right, ':'));
    NormalizeAt(Join(left, ':'), Join(right, ':'));
    ExpandReadsBack(left, right);
  }

  lemma GroupsAreHex(t: Text)
    requires WellFormed(t)
    ensures AllHex(Groups(t)) && |Groups(t)| == 8
  {
    assert AllDigits("0", 16);
  }

  lemma PaddedHasNoColon(groups: seq<string>)
    requires AllHex(groups)
    ensures forall p :: p in PadAll(groups) ==> ':' !in p
  {
    forall i | 0 <= i < |groups| ensures ':' !in PadAll(groups)[i] {
      PadKeepsValue(groups[i], 4, 16);
      Cidr.NoSeparator(Pad(groups[i], 4), 16);
    }
  }

  /** Normalizing either form and splitting again gives eight padded groups of the same number. */
  lemma NormalizedGroups(t: Text)
    requires WellFormed(t)
    ensures AllHex(Groups(t)) && |Groups(t)| == 8
    ensures Split(Normalize(Render(t)), ':') == PadAll(Groups(t))
  {
    GroupsAreHex(t);
    PaddedHasNoColon(Groups(t));
    SplitUndoesJoin(PadAll(Groups(t)), ':');
    match t
    case Full(groups) => NormalizeFull(groups);
    case Compressed(left, right) => NormalizeCompressed(left, right);
  }

  lemma PaddedSegment(s: string)
    requires Hex(s)
    ensures Segment(Pad(s, 4)) == Value(s, 16) < TWO16
  {
    PadKeepsValue(s, 4, 16);
    ParseDigits(Pad(s, 4), 16);
    HexBelow(s);
  }

  /** The address a text writes, as its eight segments. */
  function Values(t: Text): seq<nat> {
    var groups := Groups(t);
    seq(|groups|, i requires 0 <= i < |groups| => Value(groups[i], 16))
  }

  /** The address as one number. */
  function Address(t: Text): nat {
    Number(Values(t))
  }

  /** The segments the matcher reads are those the text writes. */
  lemma ReadsSegments(t: Text)
    requires WellFormed(t)
    ensures Segments(Normalize(Render(t))) == Values(t) && |Values(t)| == 8 && Fit(Values(t))
  {
    NormalizedGroups(t);
    var groups := Groups(t);
    forall i | 0 <= i < |groups| ensures Segment(PadAll(groups)[i]) == Values(t)[i] < TWO16 {
      PaddedSegment(groups[i]);
    }
  }

  lemma HexBelow(s: string)
    requires Hex(s)
    ensures Value(s, 16) < TWO16
  {
    HexBound(s);
    Pow2Of16(16);
    if |s| < 4 { Pow2Grows(4 * |s|, 16); }
  }

  lemma {:induction false} HexBound(s: string)
    requires AllDigits(s, 16)
    ensures Value(s, 16) < Pow2(4 * |s|)
  {
    if s != "" {
      var n := |s| - 1;
      HexBound(s[..n]);
      assert IsDigit(s[n], 16) && Digit(s[n]) < 16;
      assert Pow2(4 * |s|) == 16 * Pow2(4 * n) by {
        var k := 4 * n;
        assert Pow2(k + 4) == 2 * Pow2(k + 3) && Pow2(k + 3) == 2 * Pow2(k + 2) && Pow2(k + 2) == 2 * Pow2(k + 1);
      }
    }
  }

  // ----- the theorem ----------------------------------------------------------------------------

  lemma LowerFill(left: seq<string>, right: seq<string>)
    ensures LowerAll(Fill(left, right)) == Fill(LowerAll(left), LowerAll(right))
  {
    assert Lower("0") == "0";
  }

  lemma LowerGroups(t: Text)
    ensures Groups(LowerText(t)) == LowerAll(Groups(t))
  {
    if t.Compressed? {
      LowerFill(t.left, t.right);
    }
  }

  lemma LowerAllHex(groups: seq<string>)
    requires AllHex(groups)
    ensures AllHex(LowerAll(groups))
    ensures forall i :: 0 <= i < |groups| ==> Value(LowerAll(groups)[i], 16) == Value(groups[i], 16)
  {
    forall i | 0 <= i < |groups|
      ensures Hex(LowerAll(groups)[i]) && Value(LowerAll(groups)[i], 16) == Value(groups[i], 16)
    {
      LowerKeepsHex(groups[i]);
    }
  }

  lemma LowerKeepsText(t: Text)
    requires WellFormed(t)
    ensures WellFormed(LowerText(t)) && Values(LowerText(t)) == Values(t)
  {
    GroupsAreHex(t);
    LowerGroups(t);
    LowerAllHex(Groups(t));
    match t
    case Full(groups) =>
    case Compressed(left, right) =>
      LowerAllHex(left);
      LowerAllHex(right);
  }

  lemma {:induction false} JoinAvoidsSlash(groups: seq<string>)
    requires AllHex(groups)
    ensures '/' !in Join(groups, ':')
  {
    forall p | p in groups ensures '/' !in p { HexHasNoColon(p); }
    Cidr.JoinAvoids(groups, ':', '/');
  }

  lemma RenderHasNoSlash(t: Text)
    requires WellFormed(t)
    ensures '/' !in Render(t)
  {
    match t
    case Full(groups) => JoinAvoidsSlash(groups);
    case Compressed(left, right) =>
      JoinAvoidsSlash(left);
      JoinAvoidsSlash(right);
  }

  /**
   For every textual form, letter case and mask 0 to 128, the matcher says exactly whether the two
   128-bit addresses share their first `mask` bits.
   */
  lemma Ipv6MatchesPrefix(a: Text, b: Text, mask: string)
    requires WellFormed(a) && WellFormed(b) && Cidr.Decimal(mask, 128)
    ensures IsIpv6InCidr(Render(a), Render(b) + "/" + mask) <==>
            Cidr.SamePrefix(Address(a), Address(b), 128, Value(mask, 10))
  {
    Ipv6Reads(Render(a), b, mask);
    LowerRender(a);
    LowerRender(b);
    LowerKeepsText(a);
    LowerKeepsText(b);
    NormalizedMatch(LowerText(a), LowerText(b), Value(mask, 10));
  }

  /** The address any text stands for: its first eight segments, each modulo 65536. */
  function ReadAddress(text: string): nat {
    Number(Folded(Segments(Normalize(Lower(text))), 8))
  }

  lemma LowerReads(t: Text)
    requires WellFormed(t)
    ensures Segments(Normalize(Lower(Render(t)))) == Values(t) && |Values(t)| == 8 && Fit(Values(t))
  {
    LowerRender(t);
    LowerKeepsText(t);
    ReadsSegments(LowerText(t));
  }

  /** A well-formed text stands for the address it writes. */
  lemma ReadsAddress(t: Text)
    requires WellFormed(t)
    ensures ReadAddress(Render(t)) == Address(t)
  {
    LowerReads(t);
    FoldedFits(Values(t));
  }

  lemma ReadsAsPrefix(t: Text, base: string, mask: nat)
    requires WellFormed(t) && mask <= 128
    ensures MatchesFrom(Segments(Normalize(Lower(Render(t)))), Segments(Normalize(Lower(base))), mask, 0) <==>
            Cidr.SamePrefix(Address(t), ReadAddress(base), 128, mask)
  {
    LowerReads(t);
    AnySegmentsMatchPrefix(Values(t), Segments(Normalize(Lower(base))), mask);
  }

  /**
   For any text at all as the subnet: it holds an address if and only if it has a mask of 0 to 128 and that many
   leading bits agree with the address its base is read as.
   */
  lemma Ipv6MatchesText(t: Text, subnet: string)
    requires WellFormed(t)
    ensures IsIpv6InCidr(Render(t), subnet) <==>
      Cidr.HasMask(subnet, 128)
      && Cidr.SamePrefix(Address(t), ReadAddress(Cidr.BaseOf(subnet)), 128, Cidr.MaskOf(subnet).value)
  {
    if Cidr.HasMask(subnet, 128) {
      ReadsAsPrefix(t, Cidr.BaseOf(subnet), Cidr.MaskOf(subnet).value);
    }
  }

  /** A subnet without a mask, or with one beyond 128 bits, matches nothing. */
  lemma Ipv6NeedsMask(ip: string, base: string, mask: string)
    requires '/' !in base && mask != "" && AllDigits(mask, 10) && Value(mask, 10) > 128
    ensures !IsIpv6InCidr(ip, base) && !IsIpv6InCidr(ip, base + "/" + mask)
  {
    SplitPlain(base, '/');
    Cidr.SubnetParts(base, mask);
  }

  /** What the string handling of the matcher comes down to. */
  lemma Ipv6Reads(ip: string, b: Text, mask: string)
    requires WellFormed(b) && Cidr.Decimal(mask, 128)
    ensures IsIpv6InCidr(ip, Render(b) + "/" + mask) <==>
      MatchesFrom(Segments(Normalize(Lower(ip))), Segments(Normalize(Lower(Render(b)))), Value(mask, 10), 0)
  {
    RenderHasNoSlash(b);
    Cidr.SubnetParts(Render(b), mask);
  }

  lemma NormalizedMatch(a: Text, b: Text, mask: nat)
    requires WellFormed(a) && WellFormed(b) && mask <= 128
    ensures MatchesFrom(Segments(Normalize(Render(a))), Segments(Normalize(Render(b))), mask, 0) <==>
            Cidr.SamePrefix(Address(a), Address(b), 128, mask)
  {
    ReadsSegments(a);
    ReadsSegments(b);
    SegmentsMatchPrefix(Values(a), Values(b), mask);
  }
}
