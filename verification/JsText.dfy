/**
 The JavaScript string operations the address matcher uses: split, join, padStart, parseInt.
 */
module JsText {
  import opened Basics

  /** `s.split(sep)` for a one-character separator. */
  function Split(s: string, sep: char): (parts: seq<string>)
    ensures |parts| > 0
  {
    if s == "" then [""]
    else
      var init, last := Split(s[..|s| - 1], sep), s[|s| - 1];
      if last == sep then init + [""] else init[..|init| - 1] + [init[|init| - 1] + [last]]
  }

  /** `parts.join(sep)`. */
  function Join(parts: seq<string>, sep: char): string {
    if |parts| == 0 then ""
    else if |parts| == 1 then parts[0]
    else Join(parts[..|parts| - 1], sep) + [sep] + parts[|parts| - 1]
  }

  /** More text at the end of the last part. */
  function Extend(parts: seq<string>, t: string): seq<string>
    requires parts != []
  {
    parts[..|parts| - 1] + [parts[|parts| - 1] + t]
  }

  lemma ExtendByNothing(parts: seq<string>)
    requires parts != []
    ensures Extend(parts, "") == parts
  {
    assert parts[|parts| - 1] + "" == parts[|parts| - 1];
  }

  lemma ExtendTwice(parts: seq<string>, t: string, u: string)
    requires parts != []
    ensures Extend(Extend(parts, t), u) == Extend(parts, t + u)
  {
    var once := Extend(parts, t);
    assert once[..|once| - 1] == parts[..|parts| - 1] && once[|once| - 1] == parts[|parts| - 1] + t;
    Assoc(parts[|parts| - 1], t, u);
  }

  lemma SplitChar(s: string, c: char, sep: char)
    requires c != sep
    ensures Split(s + [c], sep) == Extend(Split(s, sep), [c])
  {
    assert (s + [c])[..|s|] == s;
  }

  lemma {:induction false} SplitExtends(s: string, t: string, sep: char)
    requires sep !in t
    ensures Split(s + t, sep) == Extend(Split(s, sep), t)
  {
    if t == "" {
      assert s + t == s;
      ExtendByNothing(Split(s, sep));
    } else {
      var init, c := t[..|t| - 1], t[|t| - 1];
      assert t == init + [c];
      SplitExtends(s, init, sep);
      SplitChar(s + init, c, sep);
      Assoc(s, init, [c]);
      ExtendTwice(Split(s, sep), init, [c]);
    }
  }

  lemma SplitSep(s: string, t: string, sep: char)
    requires sep !in t
    ensures Split(s + [sep] + t, sep) == Split(s, sep) + [t]
  {
    assert (s + [sep])[..|s|] == s;
    SplitExtends(s + [sep], t, sep);
    var parts := Split(s, sep);
    assert (parts + [""])[..|parts|] == parts && "" + t == t;
  }

  lemma SplitPlain(t: string, sep: char)
    requires sep !in t
    ensures Split(t, sep) == [t]
  {
    SplitExtends("", t, sep);
    assert "" + t == t;
  }

  lemma JoinSnoc(parts: seq<string>, last: string, sep: char)
    requires parts != []
    ensures Join(parts + [last], sep) == Join(parts, sep) + [sep] + last
  {
    assert (parts + [last])[..|parts|] == parts;
  }

  /** Splitting undoes joining when no part holds the separator. */
  lemma {:induction false} SplitUndoesJoin(parts: seq<string>, sep: char)
    requires parts != [] && forall p :: p in parts ==> sep !in p
    ensures Split(Join(parts, sep), sep) == parts
  {
    var n := |parts| - 1;
    var init, last := parts[..n], parts[n];
    assert parts == init + [last];
    if n == 0 {
      SplitPlain(last, sep);
    } else {
      SplitUndoesJoin(init, sep);
      SplitSep(Join(init, sep), last, sep);
      JoinSnoc(init, last, sep);
    }
  }

  // ----- numbers --------------------------------------------------------------------------------

  predicate IsDigit(c: char, radix: nat) {
    ('0' <= c <= '9' && c as int - '0' as int < radix)
    || (radix == 16 && ('a' <= c <= 'f' || 'A' <= c <= 'F'))
  }

  function Digit(c: char): nat {
    if '0' <= c <= '9' then c as int - '0' as int
    else if 'a' <= c <= 'f' then c as int - 'a' as int + 10
    else if 'A' <= c <= 'F' then c as int - 'A' as int + 10
    else 0
  }

  function Value(digits: string, radix: nat): nat {
    if digits == "" then 0 else Value(digits[..|digits| - 1], radix) * radix + Digit(digits[|digits| - 1])
  }

  predicate AllDigits(s: string, radix: nat) {
    forall i :: 0 <= i < |s| ==> IsDigit(s[i], radix)
  }

  /** The longest prefix of digits. */
  function DigitPrefix(s: string, radix: nat): string {
    if s == "" || !IsDigit(s[0], radix) then "" else [s[0]] + DigitPrefix(s[1..], radix)
  }

  predicate IsSpace(c: char) {
    c == ' ' || c == '\t' || c == '\n' || c == '\r'
  }

  function TrimStart(s: string): string {
    if s != "" && IsSpace(s[0]) then TrimStart(s[1..]) else s
  }

  /** `Number.parseInt(s, radix)` for radix 10 or 16; no value for NaN. */
  function ParseInt(s: string, radix: nat): Option<int> {
    var t := TrimStart(s);
    var negative := t != "" && t[0] == '-';
    var unsigned := if t != "" && (t[0] == '-' || t[0] == '+') then t[1..] else t;
    var body := if radix == 16 && |unsigned| >= 2 && unsigned[0] == '0' && (unsigned[1] == 'x' || unsigned[1] == 'X')
                then unsigned[2..] else unsigned;
    var digits := DigitPrefix(body, radix);
    var value: int := Value(digits, radix);
    if digits == "" then None else Some(if negative then -value else value)
  }

  lemma {:induction false} DigitPrefixAll(s: string, radix: nat)
    requires AllDigits(s, radix)
    ensures DigitPrefix(s, radix) == s
  {
    if s != "" {
      DigitPrefixAll(s[1..], radix);
    }
  }

  /** A non-empty run of digits parses to its value. */
  lemma ParseDigits(s: string, radix: nat)
    requires s != "" && AllDigits(s, radix)
    ensures ParseInt(s, radix) == Some(Value(s, radix))
  {
    DigitPrefixAll(s, radix);
    assert IsDigit(s[0], radix);
    assert |s| >= 2 ==> IsDigit(s[1], radix);
  }

  /** `s.padStart(width, '0')`. */
  function Pad(s: string, width: nat): string
    decreases width - |s|
  {
    if |s| >= width then s else Pad("0" + s, width)
  }

  lemma {:induction false} LeadingZero(s: string, radix: nat)
    ensures Value("0" + s, radix) == Value(s, radix)
  {
    if s == "" {
      assert ("0" + s)[..0] == "";
    } else {
      var n := |s| - 1;
      LeadingZero(s[..n], radix);
      assert ("0" + s)[..|"0" + s| - 1] == "0" + s[..n];
    }
  }

  /** Padding keeps digits digits and their value. */
  lemma {:induction false} PadKeepsValue(s: string, width: nat, radix: nat)
    requires radix > 0 && AllDigits(s, radix)
    ensures AllDigits(Pad(s, width), radix) && Value(Pad(s, width), radix) == Value(s, radix)
    ensures |Pad(s, width)| == Max(|s|, width)
    decreases width - |s|
  {
    if |s| < width {
      LeadingZero(s, radix);
      PadKeepsValue("0" + s, width, radix);
    }
  }
}
