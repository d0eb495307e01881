/**
 Whether an address is in the list of allowed subnets: exact text, CIDR block or octet wildcard, first
 match wins. (app/ssh/hostname-resolver.ts)
 */
module Subnets {
  import opened JsText
  import Cidr
  import Ipv6Cidr

  /** What `isIP` says of the text. */
  datatype Version = V4 | V6 | NotAnAddress

  predicate MatchesCidr(ip: string, version: Version, subnet: string) {
    && '/' in subnet
    && match version
       case V4 => '.' in subnet && Cidr.IsIpv4InCidr(ip, subnet)
       case V6 => ':' in subnet && Ipv6Cidr.IsIpv6InCidr(ip, subnet)
       case NotAnAddress => false
  }

  /** The subnet is four octets, each the address's own or a star, and has a star. */
  predicate Wildcard(ip: string, subnet: string) {
    var octets, pattern := Split(ip, '.'), Split(subnet, '.');
    '*' in subnet && |octets| == |pattern| == 4
    && forall i :: 0 <= i < 4 ==> pattern[i] == "*" || pattern[i] == octets[i]
  }

  method MatchesWildcard(ip: string, subnet: string) returns (matches: bool)
    ensures matches == Wildcard(ip, subnet)
  {
    if '*' !in subnet {
      return false;
    }
    var octets, pattern := Split(ip, '.'), Split(subnet, '.');
    if |octets| != 4 || |pattern| != 4 {
      return false;
    }
    for i := 0 to 4
      invariant forall j :: 0 <= j < i ==> pattern[j] == "*" || pattern[j] == octets[j]
    {
      if pattern[i] != "*" && pattern[i] != octets[i] {
        return false;
      }
    }
    return true;
  }

  predicate Matches(ip: string, version: Version, subnet: string) {
    ip == subnet || MatchesCidr(ip, version, subnet) || (version.V4? && Wildcard(ip, subnet))
  }

  /** No restriction, or some entry matches. */
  ghost predicate Allowed(ip: string, version: Version, subnets: seq<string>) {
    subnets == [] || exists i :: 0 <= i < |subnets| && Matches(ip, version, subnets[i])
  }

  method IsIpInSubnets(ip: string, version: Version, subnets: seq<string>) returns (allowed: bool)
    ensures allowed == Allowed(ip, version, subnets)
  {
    if |subnets| == 0 {
      return true;
    }
    for k := 0 to |subnets|
      invariant forall j :: 0 <= j < k ==> !Matches(ip, version, subnets[j])
    {
      if ip == subnets[k] || MatchesCidr(ip, version, subnets[k]) {
        return true;
      }
      if version.V4? {
        var wild := MatchesWildcard(ip, subnets[k]);
        if wild {
          return true;
        }
      }
    }
    return false;
  }

  // ----- lists of entries -------------------------------------------------------------------------

  /**
   What a list may hold: blocks and addresses of either family, patterns of octets with stars, and any other text,
   malformed or not.
   */
  datatype Entry =
    | Block4(quad: seq<string>, mask: string)
    | Block6(text: Ipv6Cidr.Text, mask: string)
    | Exact4(quad: seq<string>)
    | Exact6(text: Ipv6Cidr.Text)
    | Pattern(octets: seq<string>)
    | Other(spelling: string)

  ghost predicate StarOrOctet(s: string) {
    s == "*" || Cidr.Decimal(s, 255)
  }

  ghost predicate Proper(e: Entry) {
    match e
    case Block4(quad, mask) => Cidr.Quad(quad) && Cidr.Decimal(mask, 32)
    case Block6(text, mask) => Ipv6Cidr.WellFormed(text) && Cidr.Decimal(mask, 128)
    case Exact4(quad) => Cidr.Quad(quad)
    case Exact6(text) => Ipv6Cidr.WellFormed(text)
    case Pattern(octets) => |octets| == 4 && "*" in octets && forall o :: o in octets ==> StarOrOctet(o)
    case Other(_) => true
  }

  function Render(e: Entry): string {
    match e
    case Block4(quad, mask) => Join(quad, '.') + "/" + mask
    case Block6(text, mask) => Ipv6Cidr.Render(text) + "/" + mask
    case Exact4(quad) => Join(quad, '.')
    case Exact6(text) => Ipv6Cidr.Render(text)
    case Pattern(octets) => Join(octets, '.')
    case Other(text) => text
  }

  function RenderAll(entries: seq<Entry>): seq<string> {
    seq(|entries|, i requires 0 <= i < |entries| => Render(entries[i]))
  }

  /**
   A text that need not be well-formed admits the IPv4 address: with a slash, by the leading bits of the address its
   base is read as, if it has a dot and a mask of 0 to 32; without one, by its spelling or as a pattern.
   */
  ghost predicate Reads4(text: string, quad: seq<string>)
    requires Cidr.Quad(quad)
  {
    if '/' in text then
      '.' in text && Cidr.HasMask(text, 32) &&
      var m, base := Cidr.MaskOf(text).value, Cidr.ReadAddress(Cidr.BaseOf(text));
      if m == 0 then Cidr.QuadValue(quad) == base else Cidr.SamePrefix(Cidr.QuadValue(quad), base, 32, m)
    else
      var octets := Split(text, '.');
      text == Join(quad, '.')
      || ('*' in text && |octets| == 4 && forall i :: 0 <= i < 4 ==> octets[i] == "*" || octets[i] == quad[i])
  }

  /** The same for an IPv6 address: with a slash it takes a colon and a mask of 0 to 128. */
  ghost predicate Reads6(text: string, address: Ipv6Cidr.Text) {
    if '/' in text then
      ':' in text && Cidr.HasMask(text, 128)
      && Cidr.SamePrefix(Ipv6Cidr.Address(address), Ipv6Cidr.ReadAddress(Cidr.BaseOf(text)), 128,
                         Cidr.MaskOf(text).value)
    else text == Ipv6Cidr.Render(address)
  }

  /**
   The entry admits the IPv4 address: a block that holds it (a /0 block holds its own address only), the same
   spelling, or a pattern whose octets are stars or spelled the same.
   */
  ghost predicate Admits4(e: Entry, quad: seq<string>)
    requires Proper(e) && Cidr.Quad(quad)
  {
    match e
    case Block4(base, mask) =>
      if Value(mask, 10) == 0 then Cidr.QuadValue(quad) == Cidr.QuadValue(base)
      else Cidr.SamePrefix(Cidr.QuadValue(quad), Cidr.QuadValue(base), 32, Value(mask, 10))
    case Exact4(other) => other == quad
    case Pattern(octets) => forall i :: 0 <= i < 4 ==> octets[i] == "*" || octets[i] == quad[i]
    case Other(text) => Reads4(text, quad)
    case _ => false
  }

  /** The entry admits the IPv6 address: a block that holds it, or the same spelling. */
  ghost predicate Admits6(e: Entry, text: Ipv6Cidr.Text)
    requires Proper(e) && Ipv6Cidr.WellFormed(text)
  {
    match e
    case Block6(base, mask) =>
      Cidr.SamePrefix(Ipv6Cidr.Address(text), Ipv6Cidr.Address(base), 128, Value(mask, 10))
    case Exact6(other) => Ipv6Cidr.Render(other) == Ipv6Cidr.Render(text)
    case Other(other) => Reads6(other, text)
    case _ => false
  }

  lemma DotsJoin(parts: seq<string>)
    requires |parts| == 4
    ensures '.' in Join(parts, '.')
  {
    assert Join(parts, '.')[|Join(parts[..3], '.')|] == '.';
  }

  lemma QuadText(quad: seq<string>)
    requires Cidr.Quad(quad)
    ensures var s := Join(quad, '.'); '/' !in s && ':' !in s && '*' !in s && '.' in s
  {
    forall p | p in quad ensures '/' !in p && ':' !in p && '*' !in p {
      Cidr.NoSeparator(p, 10);
      NoStar(p, 10);
    }
    Cidr.JoinAvoids(quad, '.', '/');
    Cidr.JoinAvoids(quad, '.', ':');
    Cidr.JoinAvoids(quad, '.', '*');
    DotsJoin(quad);
  }

  lemma NoStar(s: string, radix: nat)
    requires AllDigits(s, radix)
    ensures '*' !in s
  {
    assert forall c :: c in s ==> IsDigit(c, radix);
  }

  lemma GroupsText(groups: seq<string>)
    requires Ipv6Cidr.AllHex(groups)
    ensures var s := Join(groups, ':'); '/' !in s && '*' !in s && '.' !in s && (|groups| > 1 ==> ':' in s)
  {
    forall p | p in groups ensures '/' !in p && '.' !in p && '*' !in p {
      Cidr.NoSeparator(p, 16);
      NoStar(p, 16);
    }
    Cidr.JoinAvoids(groups, ':', '/');
    Cidr.JoinAvoids(groups, ':', '*');
    Cidr.JoinAvoids(groups, ':', '.');
    if |groups| > 1 {
      assert Join(groups, ':')[|Join(groups[..|groups| - 1], ':')|] == ':';
    }
  }

  lemma AddressText(text: Ipv6Cidr.Text)
    requires Ipv6Cidr.WellFormed(text)
    ensures var s := Ipv6Cidr.Render(text); '/' !in s && '*' !in s && '.' !in s && ':' in s
  {
    match text
    case Full(groups) => GroupsText(groups);
    case Compressed(left, right) =>
      GroupsText(left);
      GroupsText(right);
      assert Ipv6Cidr.Render(text)[|Join(left, ':')|] == ':';
  }

  lemma {:induction false} JoinHolds(parts: seq<string>, sep: char, i: nat, c: char)
    requires i < |parts| && c in parts[i]
    ensures c in Join(parts, sep)
  {
    var n := |parts| - 1;
    if n > 0 && i < n {
      JoinHolds(parts[..n], sep, i, c);
    }
  }

  lemma PatternText(octets: seq<string>)
    requires Proper(Pattern(octets))
    ensures var s := Join(octets, '.'); '/' !in s && ':' !in s && '*' in s && '.' in s && Split(s, '.') == octets
  {
    forall o | o in octets ensures '/' !in o && ':' !in o && '.' !in o {
      if o != "*" { Cidr.NoSeparator(o, 10); }
    }
    Cidr.JoinAvoids(octets, '.', '/');
    Cidr.JoinAvoids(octets, '.', ':');
    DotsJoin(octets);
    SplitUndoesJoin(octets, '.');
    var i :| 0 <= i < |octets| && octets[i] == "*";
    JoinHolds(octets, '.', i, '*');
  }

  lemma QuadSplits(quad: seq<string>)
    requires Cidr.Quad(quad)
    ensures Split(Join(quad, '.'), '.') == quad
  {
    forall p | p in quad ensures '.' !in p { Cidr.NoSeparator(p, 10); }
    SplitUndoesJoin(quad, '.');
  }

  lemma BlockText(base: string, mask: string)
    requires mask != "" && AllDigits(mask, 10)
    ensures var s := base + "/" + mask;
      && '/' in s && ('*' in s <==> '*' in base) && ('.' in s <==> '.' in base) && (':' in s <==> ':' in base)
  {
    Cidr.NoSeparator(mask, 10);
    NoStar(mask, 10);
    assert (base + "/" + mask)[|base|] == '/';
  }

  lemma {:induction false} SplitHolds(s: string, sep: char, c: char) returns (i: nat)
    requires c in s && c != sep
    ensures i < |Split(s, sep)| && c in Split(s, sep)[i]
  {
    var n := |s| - 1;
    var parts := Split(s[..n], sep);
    if s[n] == c {
      i := |parts| - 1;
    } else {
      i := SplitHolds(s[..n], sep, c);
    }
  }

  /** A text with a slash is no address and no pattern. */
  lemma SlashIsBlock(quad: seq<string>, text: string)
    requires Cidr.Quad(quad) && '/' in text
    ensures text != Join(quad, '.') && !Wildcard(Join(quad, '.'), text)
  {
    QuadText(quad);
    QuadSplits(quad);
    var i := SplitHolds(text, '.', '/');
    if i < 4 {
      assert quad[i] in quad;
      Cidr.NoSeparator(quad[i], 10);
    }
  }

  lemma MatchesOther4(quad: seq<string>, text: string)
    requires Cidr.Quad(quad)
    ensures Matches(Join(quad, '.'), V4, text) <==> Reads4(text, quad)
  {
    QuadSplits(quad);
    if '/' in text {
      SlashIsBlock(quad, text);
      Cidr.Ipv4MatchesText(quad, text);
    }
  }

  lemma MatchesOther6(address: Ipv6Cidr.Text, text: string)
    requires Ipv6Cidr.WellFormed(address)
    ensures Matches(Ipv6Cidr.Render(address), V6, text) <==> Reads6(text, address)
  {
    AddressText(address);
    if '/' in text {
      Ipv6Cidr.Ipv6MatchesText(address, text);
    }
  }

  lemma Matches4(quad: seq<string>, e: Entry)
    requires Cidr.Quad(quad) && Proper(e)
    ensures Matches(Join(quad, '.'), V4, Render(e)) <==> Admits4(e, quad)
  {
    QuadText(quad);
    QuadSplits(quad);
    match e
    case Block4(base, mask) =>
      QuadText(base);
      BlockText(Join(base, '.'), mask);
      Cidr.Ipv4MatchesPrefix(quad, base, mask);
    case Block6(text, mask) =>
      AddressText(text);
      BlockText(Ipv6Cidr.Render(text), mask);
    case Exact4(other) =>
      QuadText(other);
      QuadSplits(other);
    case Exact6(text) => AddressText(text);
    case Pattern(octets) => PatternText(octets);
    case Other(text) => MatchesOther4(quad, text);
  }

  lemma Matches6(text: Ipv6Cidr.Text, e: Entry)
    requires Ipv6Cidr.WellFormed(text) && Proper(e)
    ensures Matches(Ipv6Cidr.Render(text), V6, Render(e)) <==> Admits6(e, text)
  {
    AddressText(text);
    match e
    case Block4(quad, mask) =>
      QuadText(quad);
      BlockText(Join(quad, '.'), mask);
    case Block6(base, mask) =>
      AddressText(base);
      BlockText(Ipv6Cidr.Render(base), mask);
      Ipv6Cidr.Ipv6MatchesPrefix(text, base, mask);
    case Exact4(quad) => QuadText(quad);
    case Exact6(other) => AddressText(other);
    case Pattern(octets) => PatternText(octets);
    case Other(other) => MatchesOther6(text, other);
  }

  /** An IPv4 address passes a list exactly when the list is empty or an entry admits it. */
  lemma Ipv4AllowedIff(quad: seq<string>, entries: seq<Entry>)
    requires Cidr.Quad(quad) && forall e :: e in entries ==> Proper(e)
    ensures Allowed(Join(quad, '.'), V4, RenderAll(entries)) <==>
            entries == [] || exists i :: 0 <= i < |entries| && Admits4(entries[i], quad)
  {
    forall i | 0 <= i < |entries|
      ensures Matches(Join(quad, '.'), V4, RenderAll(entries)[i]) <==> Admits4(entries[i], quad)
    {
      Matches4(quad, entries[i]);
    }
  }

  lemma Ipv6AllowedIff(text: Ipv6Cidr.Text, entries: seq<Entry>)
    requires Ipv6Cidr.WellFormed(text) && forall e :: e in entries ==> Proper(e)
    ensures Allowed(Ipv6Cidr.Render(text), V6, RenderAll(entries)) <==>
            entries == [] || exists i :: 0 <= i < |entries| && Admits6(entries[i], text)
  {
    forall i | 0 <= i < |entries|
      ensures Matches(Ipv6Cidr.Render(text), V6, RenderAll(entries)[i]) <==> Admits6(entries[i], text)
    {
      Matches6(text, entries[i]);
    }
  }
}
