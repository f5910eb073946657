/**
  IPv4 hosts in every spelling a browser accepts (`as_ipv4`).

  `AsIpv4` follows the source's loops; `Ipv4Of` is the function it computes; and
  `AcceptsExactlyTheSpellings` says what that function means: the accepted strings
  are the printed spellings of 32-bit values, no more and no fewer.
*/
module Ipv4 {
  import opened Numerals
  import opened Text

  /** CPython's `int(text, 10)` raises ValueError beyond this many digits; power-of-two bases have no limit. */
  const INT_MAX_STR_DIGITS := 4300

  datatype Part = Number(n: nat) | Malformed | Overlong
  datatype Parts = Numbers(ns: seq<nat>) | Rejected(why: Part)
  datatype Ipv4Result = Address(text: string) | NotIpv4 | RaisesValueError

  function ParsePart(part: string): Part {
    var lowered := Lower(part);
    if part == "" then Malformed
    else if |lowered| >= 2 && lowered[..2] == "0x" then
      var digits := lowered[2..];
      if digits == "" || !AllDigits(digits, 16) then Malformed else Number(Value(digits, 16))
    else if |part| > 1 && part[0] == '0' then
      if !AllDigits(part[1..], 8) then Malformed else Number(Value(part[1..], 8))
    else if !AllDigits(part, 10) then Malformed
    else if |part| > INT_MAX_STR_DIGITS then Overlong
    else Number(Value(part, 10))
  }

  /** What parsing a list gives when its first parts are the numbers `ns`. */
  function Prefixed(ns: seq<nat>, rest: Parts): Parts {
    match rest
    case Numbers(more) => Numbers(ns + more)
    case Rejected(_) => rest
  }

  /** The numbers of all the parts, or the first part that is not a number. */
  function ParseParts(parts: seq<string>): (r: Parts)
    ensures r.Numbers? ==> |r.ns| == |parts|
    ensures r.Rejected? ==> !r.why.Number?
  {
    if parts == [] then Numbers([])
    else match ParsePart(parts[0])
      case Number(n) => Prefixed([n], ParseParts(parts[1..]))
      case why => Rejected(why)
  }

  lemma PrefixedTwice(ns: seq<nat>, n: nat, rest: Parts)
    ensures Prefixed(ns, Prefixed([n], rest)) == Prefixed(ns + [n], rest)
  {
    if rest.Numbers? {
      assert ns + ([n] + rest.ns) == (ns + [n]) + rest.ns;
    }
  }

  /** `256 ** k` for the exponents the parser uses. */
  function Pow256(k: nat): (p: nat)
    requires k <= 4
    ensures p > 0
  {
    match k
    case 0 => 1
    case 1 => 256
    case 2 => 65536
    case 3 => 16777216
    case _ => 4294967296
  }

  /** The sum of the leading parts' contributions: part i is worth 256^(3-i). */
  function LeadingSum(ns: seq<nat>, count: nat): nat
    requires count <= |ns| && count <= 3
  {
    if count == 0 then 0 else LeadingSum(ns, count - 1) + ns[count - 1] * Pow256(4 - count)
  }

  predicate InRange(ns: seq<nat>) {
    && 1 <= |ns| <= 4
    && (forall i :: 0 <= i < |ns| - 1 ==> ns[i] <= 255)
    && ns[|ns| - 1] < Pow256(5 - |ns|)
  }

  function Combine(ns: seq<nat>): nat
    requires 1 <= |ns| <= 4
  {
    LeadingSum(ns, |ns| - 1) + ns[|ns| - 1]
  }

  function ByteAt(v: nat, index: nat): nat
    requires index < 4
  {
    v / Pow256(3 - index) % 256
  }

  function QuadBytes(v: nat): (bytes: seq<string>)
    ensures |bytes| == 4 && forall i :: 0 <= i < 4 ==> bytes[i] == Repr(ByteAt(v, i), 10)
  {
    seq(4, i requires 0 <= i < 4 => Repr(ByteAt(v, i), 10))
  }

  /** The canonical dotted quad. */
  function Quad(v: nat): string {
    Join(QuadBytes(v), ".")
  }

  /** The dot-separated parts, without the empty one a single trailing dot leaves. */
  function HostParts(host: string): (parts: seq<string>)
    ensures |parts| >= 1
  {
    var parts := Split(host, '.');
    if |parts| > 1 && parts[|parts| - 1] == "" then parts[..|parts| - 1] else parts
  }

  function Ipv4Of(host: string): Ipv4Result {
    var parts := HostParts(host);
    if host == "" || |parts| > 4 then NotIpv4
    else match ParseParts(parts)
      case Numbers(ns) => if InRange(ns) then Address(Quad(Combine(ns))) else NotIpv4
      case Rejected(Overlong) => RaisesValueError
      case Rejected(_) => NotIpv4
  }

  /** The loop over the parts: each one validated and appended, the first bad one ending it. */
  method ReadNumbers(parts: seq<string>) returns (r: Parts)
    ensures r == ParseParts(parts)
  {
    var numbers: seq<nat> := [];
    for i := 0 to |parts|
      invariant |numbers| == i
      invariant ParseParts(parts) == Prefixed(numbers, ParseParts(parts[i..]))
    {
      assert parts[i..][0] == parts[i] && parts[i..][1..] == parts[i + 1..];
      var part := ParsePart(parts[i]);
      if !part.Number? {
        return Rejected(part);
      }
      PrefixedTwice(numbers, part.n, ParseParts(parts[i + 1..]));
      numbers := numbers + [part.n];
    }
    return Numbers(numbers);
  }

  /** The mixed-radix sum. */
  method SumParts(numbers: seq<nat>) returns (value: nat)
    requires 1 <= |numbers| <= 4
    ensures value == Combine(numbers)
  {
    var last := numbers[|numbers| - 1];
    value := last;
    for index := 0 to |numbers| - 1
      invariant value == LeadingSum(numbers, index) + last
    {
      value := value + numbers[index] * Pow256(3 - index);
    }
  }

  method AsIpv4(host: string) returns (r: Ipv4Result)
    ensures r == Ipv4Of(host)
  {
    if host == "" {
      return NotIpv4;
    }
    var parts := Split(host, '.');
    if |parts| > 1 && parts[|parts| - 1] == "" {
      parts := parts[..|parts| - 1];
    }
    if |parts| > 4 {
      return NotIpv4;
    }
    var read := ReadNumbers(parts);
    if read.Rejected? {
      return if read.why.Overlong? then RaisesValueError else NotIpv4;
    }
    if !InRange(read.ns) {
      return NotIpv4;
    }
    var value := SumParts(read.ns);
    return Address(Quad(value));
  }

  // ----- Spellings ---------------------------------------------------------

  /** How one part is written; `zeros` counts the zeros after the radix prefix. */
  datatype Form = Dec | Oct(zeros: nat) | Hex(zeros: nat)

  function PrintPart(n: nat, form: Form): string {
    match form
    case Dec => Repr(n, 10)
    case Oct(z) => "0" + (Zeros(z) + Repr(n, 8))
    case Hex(z) => "0x" + (Zeros(z) + Repr(n, 16))
  }

  /** The `count` part values of `v`: leading bytes, then one part for all the remaining bytes. */
  function PartValue(v: nat, count: nat, i: nat): nat
    requires i < count <= 4
  {
    if i < count - 1 then ByteAt(v, i) else v % Pow256(5 - count)
  }

  function PartValues(v: nat, count: nat): (ns: seq<nat>)
    requires count <= 4
    ensures |ns| == count
  {
    seq(count, i requires 0 <= i < count => PartValue(v, count, i))
  }

  function PrintParts(ns: seq<nat>, forms: seq<Form>): (parts: seq<string>)
    requires |ns| == |forms|
    ensures |parts| == |ns|
    ensures forall i :: 0 <= i < |ns| ==> parts[i] == PrintPart(ns[i], forms[i])
  {
    if ns == [] then []
    else
      var rest := PrintParts(ns[1..], forms[1..]);
      assert forall i :: 0 <= i < |rest| ==> rest[i] == PrintPart(ns[i + 1], forms[i + 1]);
      [PrintPart(ns[0], forms[0])] + rest
  }

  /** `v` written in `|forms|` parts, in lower case. */
  function Spell(v: nat, forms: seq<Form>, trailingDot: bool): string
    requires 1 <= |forms| <= 4
  {
    Dotted(Join(PrintParts(PartValues(v, |forms|), forms), "."), trailingDot)
  }

  /** `host`, read without regard to case, is a spelling of the 32-bit value `v`. */
  ghost predicate SpellsAs(host: string, v: nat, forms: seq<Form>, trailingDot: bool) {
    v < Pow256(4) && 1 <= |forms| <= 4 && Lower(host) == Spell(v, forms, trailingDot)
  }

  ghost predicate Denotes(host: string, v: nat) {
    exists forms, dot :: SpellsAs(host, v, forms, dot)
  }

  // One part.

  lemma DigitsAreNotDots(s: string, b: nat)
    requires b <= 16 && AllDigits(s, b)
    ensures Excludes(s, '.') && Excludes(s, 'x')
    ensures Lower(s) == s
  {
    assert forall i :: 0 <= i < |s| ==> DigitValue(s[i]) < 16;
  }

  lemma PrefixedShape(prefix: string, digits: string)
    requires AllDigits(digits, 16) && digits != "" && (prefix == "" || prefix == "0" || prefix == "0x")
    ensures prefix + digits != "" && Excludes(prefix + digits, '.')
    ensures Lower(prefix + digits) == prefix + digits
  {
    DigitsAreNotDots(digits, 16);
    LowerConcat(prefix, digits);
    assert Lower("") == "" && Lower("0") == "0" && Lower("0x") == "0x";
  }

  lemma WiderDigits(s: string, b: nat)
    requires b <= 16 && AllDigits(s, b)
    ensures AllDigits(s, 16)
  {
  }

  lemma PrintPartShape(n: nat, form: Form)
    ensures PrintPart(n, form) != "" && Excludes(PrintPart(n, form), '.')
    ensures Lower(PrintPart(n, form)) == PrintPart(n, form)
  {
    match form
    case Dec =>
      WiderDigits(Repr(n, 10), 10);
      PrefixedShape("", Repr(n, 10));
      assert "" + Repr(n, 10) == Repr(n, 10);
    case Oct(z) =>
      ValueOfRepr(z, n, 8);
      WiderDigits(Zeros(z) + Repr(n, 8), 8);
      PrefixedShape("0", Zeros(z) + Repr(n, 8));
    case Hex(z) =>
      ValueOfRepr(z, n, 16);
      PrefixedShape("0x", Zeros(z) + Repr(n, 16));
  }

  lemma ShortDecimal(n: nat)
    requires n < Pow256(4)
    ensures |Repr(n, 10)| <= 10
  {
    assert Pow(10, 10) == 10_000_000_000;
    ReprLength(n, 10, 10);
  }

  lemma ParseDecimal(n: nat)
    requires n < Pow256(4)
    ensures ParsePart(Repr(n, 10)) == Number(n)
  {
    var p := Repr(n, 10);
    ShortDecimal(n);
    ReprHead(n, 10);
    ReprIsDigits(n, 10);
    DigitsAreNotDots(p, 10);
    assert |p| >= 2 ==> p[..2][1] != 'x';
  }

  lemma ReprIsDigits(n: nat, b: nat)
    requires IsBase(b)
    ensures Value(Repr(n, b), b) == n
  {
    ValueOfRepr(0, n, b);
    assert Zeros(0) + Repr(n, b) == Repr(n, b);
  }

  lemma ParseOctal(digits: string)
    requires digits != "" && AllDigits(digits, 8)
    ensures ParsePart("0" + digits) == Number(Value(digits, 8))
  {
    var p := "0" + digits;
    DigitsAreNotDots(digits, 8);
    assert p[1..] == digits;
    assert Lower(p)[..2][1] == digits[0];
  }

  lemma ParseHex(digits: string)
    requires digits != "" && AllDigits(digits, 16)
    ensures ParsePart("0x" + digits) == Number(Value(digits, 16))
  {
    var p := "0x" + digits;
    DigitsAreNotDots(digits, 16);
    LowerConcat("0x", digits);
    assert Lower("0x") == "0x";
    assert p[2..] == digits && p[..2] == "0x";
  }

  /** Printing a part in any form and parsing it gives the number back. */
  lemma ParsePrintedPart(n: nat, form: Form)
    requires n < Pow256(4)
    ensures ParsePart(PrintPart(n, form)) == Number(n)
  {
    match form
    case Dec => ParseDecimal(n);
    case Oct(z) => ValueOfRepr(z, n, 8); ParseOctal(Zeros(z) + Repr(n, 8));
    case Hex(z) => ValueOfRepr(z, n, 16); ParseHex(Zeros(z) + Repr(n, 16));
  }

  /** The form a parsed part was written in. */
  function FormOf(part: string): Form
    requires ParsePart(part).Number?
  {
    var lowered, n := Lower(part), ParsePart(part).n;
    if |lowered| >= 2 && lowered[..2] == "0x" then
      ReprOfValue(lowered[2..], 16);
      Hex(|lowered| - 2 - |Repr(n, 16)|)
    else if |part| > 1 && part[0] == '0' then
      ReprOfValue(part[1..], 8);
      Oct(|part| - 1 - |Repr(n, 8)|)
    else Dec
  }

  predicate IsHex(part: string) {
    |part| >= 2 && Lower(part)[..2] == "0x"
  }

  predicate IsOctal(part: string) {
    !IsHex(part) && |part| > 1 && part[0] == '0'
  }

  lemma PrintParsedHex(part: string)
    requires IsHex(part) && ParsePart(part).Number?
    ensures Lower(part) == PrintPart(ParsePart(part).n, FormOf(part))
  {
    ReprOfValue(Lower(part)[2..], 16);
    assert Lower(part) == Lower(part)[..2] + Lower(part)[2..];
  }

  lemma PrintParsedOctal(part: string)
    requires IsOctal(part) && ParsePart(part).Number?
    ensures Lower(part) == PrintPart(ParsePart(part).n, FormOf(part))
  {
    ReprOfValue(part[1..], 8);
    DigitsAreNotDots(part[1..], 8);
    LowerConcat("0", part[1..]);
    assert part == "0" + part[1..] && Lower("0") == "0";
  }

  lemma PrintParsedDecimal(part: string)
    requires !IsHex(part) && !IsOctal(part) && ParsePart(part).Number?
    ensures Lower(part) == PrintPart(ParsePart(part).n, FormOf(part))
  {
    var n := ParsePart(part).n;
    ReprOfValue(part, 10);
    DigitsAreNotDots(part, 10);
    assert |part| == |Repr(n, 10)|;
  }

  /** A part that parses is, in lower case, the printed form of its number. */
  lemma {:induction false} PrintParsedPart(part: string)
    requires ParsePart(part).Number?
    ensures Lower(part) == PrintPart(ParsePart(part).n, FormOf(part))
  {
    if IsHex(part) {
      PrintParsedHex(part);
    } else if IsOctal(part) {
      PrintParsedOctal(part);
    } else {
      PrintParsedDecimal(part);
    }
  }

  // All the parts.

  lemma ParsePartsCons(part: string, rest: seq<string>)
    requires ParsePart(part).Number? && ParseParts(rest).Numbers?
    ensures ParseParts([part] + rest) == Numbers([ParsePart(part).n] + ParseParts(rest).ns)
  {
    assert ([part] + rest)[1..] == rest;
  }

  lemma PrintPartsCons(n: nat, ns: seq<nat>, form: Form, forms: seq<Form>)
    requires |ns| == |forms|
    ensures PrintParts([n] + ns, [form] + forms) == [PrintPart(n, form)] + PrintParts(ns, forms)
  {
    assert ([n] + ns)[1..] == ns && ([form] + forms)[1..] == forms;
  }

  lemma {:induction false} ParsePrintedParts(ns: seq<nat>, forms: seq<Form>)
    requires |ns| == |forms|
    requires forall i :: 0 <= i < |ns| ==> ns[i] < Pow256(4)
    ensures ParseParts(PrintParts(ns, forms)) == Numbers(ns)
  {
    if ns != [] {
      ParsePrintedPart(ns[0], forms[0]);
      ParsePrintedParts(ns[1..], forms[1..]);
      PrintPartsCons(ns[0], ns[1..], forms[0], forms[1..]);
      assert ns == [ns[0]] + ns[1..] && forms == [forms[0]] + forms[1..];
      ParsePartsCons(PrintPart(ns[0], forms[0]), PrintParts(ns[1..], forms[1..]));
    }
  }

  function LowerAll(parts: seq<string>): (r: seq<string>)
    ensures |r| == |parts| && forall i :: 0 <= i < |r| ==> r[i] == Lower(parts[i])
  {
    seq(|parts|, i requires 0 <= i < |parts| => Lower(parts[i]))
  }

  lemma LowerAllCons(head: string, tail: seq<string>)
    ensures LowerAll([head] + tail) == [Lower(head)] + LowerAll(tail)
  {
  }

  lemma {:induction false} PrintParsedParts(parts: seq<string>) returns (forms: seq<Form>)
    requires ParseParts(parts).Numbers?
    ensures |forms| == |parts|
    ensures LowerAll(parts) == PrintParts(ParseParts(parts).ns, forms)
  {
    if parts == [] {
      forms := [];
    } else {
      var head, tail := parts[0], parts[1..];
      var rest := PrintParsedParts(tail);
      PrintParsedPart(head);
      assert parts == [head] + tail;
      ParsePartsCons(head, tail);
      forms := [FormOf(head)] + rest;
      PrintPartsCons(ParsePart(head).n, ParseParts(tail).ns, FormOf(head), rest);
      LowerAllCons(head, tail);
    }
  }

  // Mixed-radix arithmetic.

  lemma CombineIsSum(ns: seq<nat>)
    requires 1 <= |ns| <= 4
    ensures Combine(ns) == match |ns|
                           case 1 => ns[0]
                           case 2 => ns[0] * 16777216 + ns[1]
                           case 3 => ns[0] * 16777216 + ns[1] * 65536 + ns[2]
                           case _ => ns[0] * 16777216 + ns[1] * 65536 + ns[2] * 256 + ns[3]
  {
    assert LeadingSum(ns, 0) == 0;
    if |ns| >= 2 {
      assert LeadingSum(ns, 1) == ns[0] * Pow256(3);
    }
    if |ns| >= 3 {
      assert LeadingSum(ns, 2) == LeadingSum(ns, 1) + ns[1] * Pow256(2);
    }
    if |ns| >= 4 {
      assert LeadingSum(ns, 3) == LeadingSum(ns, 2) + ns[2] * Pow256(1);
    }
  }

  /** Splitting a 32-bit value into parts and summing them gives the value back. */
  lemma CombineSplits(v: nat, count: nat)
    requires 1 <= count <= 4 && v < Pow256(4)
    ensures InRange(PartValues(v, count)) && Combine(PartValues(v, count)) == v
  {
    var ns := PartValues(v, count);
    CombineIsSum(ns);
    assert ns[count - 1] == v % Pow256(5 - count);
    match count
    case 1 =>
    case 2 => TopByte(v);
    case 3 => TopByte(v); SecondByte(v);
    case _ => TopByte(v); SecondByte(v); assert ns[2] == v / 256 % 256;
  }

  lemma TopByte(v: nat)
    requires v < Pow256(4)
    ensures ByteAt(v, 0) == v / 16777216 && v == ByteAt(v, 0) * 16777216 + v % 16777216
  {
  }

  lemma SecondByte(v: nat)
    ensures ByteAt(v, 1) == v / 65536 % 256
    ensures v % 16777216 == ByteAt(v, 1) * 65536 + v % 65536
    ensures v % 65536 == ByteAt(v, 2) * 256 + v % 256
  {
    Remainders(v);
  }

  lemma Remainders(v: nat)
    ensures v % 16777216 == v / 65536 % 256 * 65536 + v % 65536
    ensures v % 65536 == v / 256 % 256 * 256 + v % 256
  {
    var a, b := v / 65536, v / 256;
    assert v == (a / 256 * 256 + a % 256) * 65536 + v % 65536;
    assert v == (b / 256 * 256 + b % 256) * 256 + v % 256;
  }

  lemma PartValuesListed(v: nat)
    requires v < Pow256(4)
    ensures PartValues(v, 1) == [v]
    ensures PartValues(v, 2) == [v / 16777216 % 256, v % 16777216]
    ensures PartValues(v, 3) == [v / 16777216 % 256, v / 65536 % 256, v % 65536]
    ensures PartValues(v, 4) == [v / 16777216 % 256, v / 65536 % 256, v / 256 % 256, v % 256]
  {
    assert PartValue(v, 1, 0) == v;
    assert PartValue(v, 2, 1) == v % 16777216;
    assert PartValue(v, 3, 2) == v % 65536;
    assert PartValue(v, 4, 3) == v % 256;
  }

  lemma TwoParts(a: nat, rest: nat, v: nat)
    requires a < 256 && rest < 16777216 && v == a * 16777216 + rest
    ensures v < Pow256(4) && v / 16777216 % 256 == a && v % 16777216 == rest
  {
  }

  lemma ThreeParts(a: nat, b: nat, rest: nat, v: nat)
    requires a < 256 && b < 256 && rest < 65536 && v == a * 16777216 + b * 65536 + rest
    ensures v < Pow256(4) && v / 16777216 % 256 == a && v / 65536 % 256 == b && v % 65536 == rest
  {
    assert v / 65536 == a * 256 + b;
  }

  lemma FourParts(a: nat, b: nat, c: nat, d: nat, v: nat)
    requires a < 256 && b < 256 && c < 256 && d < 256 && v == a * 16777216 + b * 65536 + c * 256 + d
    ensures v < Pow256(4) && v / 16777216 % 256 == a && v / 65536 % 256 == b && v / 256 % 256 == c && v % 256 == d
  {
    ThreeParts(a, b, c * 256 + d, v);
    assert v / 256 == (a * 256 + b) * 256 + c;
  }

  /** Summing in-range parts gives a 32-bit value that splits into those parts. */
  lemma SplitCombines(ns: seq<nat>)
    requires InRange(ns)
    ensures Combine(ns) < Pow256(4) && PartValues(Combine(ns), |ns|) == ns
  {
    CombineIsSum(ns);
    var v := Combine(ns);
    match |ns|
    case 1 => PartValuesListed(v);
    case 2 => TwoParts(ns[0], ns[1], v); PartValuesListed(v);
    case 3 => ThreeParts(ns[0], ns[1], ns[2], v); PartValuesListed(v);
    case _ => FourParts(ns[0], ns[1], ns[2], ns[3], v); PartValuesListed(v);
  }

  // The host as a whole.

  lemma {:induction false} LowerSplit(s: string)
    ensures Split(Lower(s), '.') == LowerAll(Split(s, '.'))
  {
    if s != "" {
      LowerSplit(s[1..]);
      assert Lower(s)[1..] == Lower(s[1..]);
      var rest := Split(s[1..], '.');
      if s[0] != '.' {
        assert LowerChar(s[0]) != '.';
        assert Lower([s[0]] + rest[0]) == [LowerChar(s[0])] + Lower(rest[0]);
      }
    }
  }

  lemma LowerHostParts(host: string)
    ensures HostParts(Lower(host)) == LowerAll(HostParts(host))
  {
    LowerSplit(host);
  }

  function Dotted(s: string, dot: bool): string {
    if dot then s + "." else s
  }

  /** The parts of a printed host are the printed parts. */
  lemma PrintedHostParts(parts: seq<string>, dot: bool)
    requires 1 <= |parts|
    requires forall i :: 0 <= i < |parts| ==> parts[i] != "" && Excludes(parts[i], '.')
    ensures HostParts(Dotted(Join(parts, "."), dot)) == parts
  {
    if dot {
      JoinDot(parts);
      SplitJoin(parts + [""], '.');
    } else {
      SplitJoin(parts, '.');
      assert parts[|parts| - 1] != "";
    }
  }

  lemma {:induction false} JoinDot(parts: seq<string>)
    requires 1 <= |parts|
    ensures Join(parts + [""], ".") == Join(parts, ".") + "."
  {
    if |parts| > 1 {
      JoinDot(parts[1..]);
      assert (parts + [""])[1..] == parts[1..] + [""];
    }
  }

  lemma HostFromParts(host: string) returns (dot: bool)
    ensures host == Dotted(Join(HostParts(host), "."), dot)
  {
    var parts := Split(host, '.');
    JoinSplit(host, '.');
    dot := |parts| > 1 && parts[|parts| - 1] == "";
    if dot {
      JoinDot(HostParts(host));
      assert parts == HostParts(host) + [""];
    }
  }

  lemma ParsePartIgnoresCase(part: string)
    ensures ParsePart(Lower(part)) == ParsePart(part)
  {
    assert Lower(Lower(part)) == Lower(part);
    LowerKeepsDigits(part, 10);
    if part != "" {
      LowerKeepsDigits(part[1..], 8);
      assert Lower(part)[1..] == Lower(part[1..]);
    }
  }

  lemma LowerKeepsDigits(s: string, b: nat)
    requires b <= 10
    ensures AllDigits(s, b) <==> AllDigits(Lower(s), b)
    ensures AllDigits(s, b) ==> Lower(s) == s
  {
    assert forall i :: 0 <= i < |s| ==> (DigitValue(s[i]) < b <==> DigitValue(Lower(s)[i]) < b);
    if AllDigits(s, b) {
      DigitsAreNotDots(s, b);
    }
  }

  lemma {:induction false} ParsePartsIgnoreCase(parts: seq<string>)
    ensures ParseParts(LowerAll(parts)) == ParseParts(parts)
  {
    if parts != [] {
      ParsePartIgnoresCase(parts[0]);
      ParsePartsIgnoreCase(parts[1..]);
      assert LowerAll(parts)[1..] == LowerAll(parts[1..]);
    }
  }

  lemma IgnoresCase(host: string)
    ensures Ipv4Of(Lower(host)) == Ipv4Of(host)
  {
    LowerHostParts(host);
    ParsePartsIgnoreCase(HostParts(host));
  }

  lemma SpelledHostParts(v: nat, forms: seq<Form>, dot: bool)
    requires 1 <= |forms| <= 4
    ensures HostParts(Spell(v, forms, dot)) == PrintParts(PartValues(v, |forms|), forms)
  {
    var ns := PartValues(v, |forms|);
    var parts := PrintParts(ns, forms);
    forall i | 0 <= i < |parts| ensures parts[i] != "" && Excludes(parts[i], '.') {
      PrintPartShape(ns[i], forms[i]);
    }
    PrintedHostParts(parts, dot);
  }

  /** Every spelling of a 32-bit value, in any mix of radices and parts, is read as its canonical quad. */
  lemma ReadsEverySpelling(host: string, v: nat, forms: seq<Form>, dot: bool)
    requires SpellsAs(host, v, forms, dot)
    ensures Ipv4Of(host) == Address(Quad(v))
  {
    IgnoresCase(host);
    var ns := PartValues(v, |forms|);
    SpelledHostParts(v, forms, dot);
    assert HostParts("") == [""];
    CombineSplits(v, |forms|);
    ParsePrintedParts(ns, forms);
  }

  /** Every string that is read as an address spells the value the address prints. */
  lemma OnlySpellingsAreRead(host: string)
    requires Ipv4Of(host).Address?
    ensures exists v :: Denotes(host, v) && Ipv4Of(host) == Address(Quad(v))
  {
    var parts := HostParts(host);
    var ns := ParseParts(parts).ns;
    var v := Combine(ns);
    SplitCombines(ns);
    var forms := PrintParsedParts(parts);
    LowerHostParts(host);
    var dot := HostFromParts(Lower(host));
    assert SpellsAs(host, v, forms, dot);
    assert Denotes(host, v);
  }

  /** The accepted language, exactly: `as_ipv4(host)` is the quad of `v` iff `host` spells `v`. */
  lemma AcceptsExactlyTheSpellings(host: string, v: nat)
    requires v < Pow256(4)
    ensures Ipv4Of(host) == Address(Quad(v)) <==> Denotes(host, v)
  {
    if Denotes(host, v) {
      var forms, dot :| SpellsAs(host, v, forms, dot);
      ReadsEverySpelling(host, v, forms, dot);
    }
    if Ipv4Of(host) == Address(Quad(v)) {
      OnlySpellingsAreRead(host);
      var w :| Denotes(host, w) && Ipv4Of(host) == Address(Quad(w));
      QuadInjective(v, w);
    }
  }

  lemma {:induction false} LowerJoin(parts: seq<string>)
    requires 1 <= |parts|
    requires forall i :: 0 <= i < |parts| ==> Lower(parts[i]) == parts[i]
    ensures Lower(Join(parts, ".")) == Join(parts, ".")
  {
    if |parts| > 1 {
      LowerJoin(parts[1..]);
      LowerConcat(parts[0] + ".", Join(parts[1..], "."));
      LowerConcat(parts[0], ".");
    }
  }

  const ALL_DECIMAL: seq<Form> := [Dec, Dec, Dec, Dec]

  lemma QuadIsSpelling(v: nat)
    requires v < Pow256(4)
    ensures SpellsAs(Quad(v), v, ALL_DECIMAL, false)
  {
    var ns := PartValues(v, 4);
    forall i | 0 <= i < 4
      ensures PrintPart(ns[i], ALL_DECIMAL[i]) == QuadBytes(v)[i] && Lower(QuadBytes(v)[i]) == QuadBytes(v)[i]
    {
      assert i == 3 ==> PartValue(v, 4, 3) == ByteAt(v, 3);
      PrintPartShape(ns[i], Dec);
    }
    assert PrintParts(ns, ALL_DECIMAL) == QuadBytes(v);
    LowerJoin(QuadBytes(v));
  }

  /** Canonical quads are fixed points. */
  lemma QuadIsFixedPoint(v: nat)
    requires v < Pow256(4)
    ensures Ipv4Of(Quad(v)) == Address(Quad(v))
  {
    QuadIsSpelling(v);
    ReadsEverySpelling(Quad(v), v, ALL_DECIMAL, false);
  }

  lemma QuadParts(v: nat)
    ensures Split(Quad(v), '.') == QuadBytes(v)
  {
    forall i | 0 <= i < 4 ensures Excludes(QuadBytes(v)[i], '.') {
      DigitsAreNotDots(QuadBytes(v)[i], 10);
    }
    SplitJoin(QuadBytes(v), '.');
  }

  lemma SameByte(v: nat, w: nat, i: nat)
    requires i < 4 && Quad(v) == Quad(w)
    ensures ByteAt(v, i) == ByteAt(w, i)
  {
    QuadParts(v);
    QuadParts(w);
    ReprIsDigits(ByteAt(v, i), 10);
    ReprIsDigits(ByteAt(w, i), 10);
    assert QuadBytes(v)[i] == QuadBytes(w)[i];
  }

  /** Different 32-bit values have different quads. */
  lemma QuadInjective(v: nat, w: nat)
    requires v < Pow256(4) && w < Pow256(4) && Quad(v) == Quad(w)
    ensures v == w
  {
    SameByte(v, w, 0);
    SameByte(v, w, 1);
    SameByte(v, w, 2);
    SameByte(v, w, 3);
    SameBytesSameValue(v, w);
  }

  lemma SameBytesSameValue(v: nat, w: nat)
    requires v < Pow256(4) && w < Pow256(4)
    requires forall i :: 0 <= i < 4 ==> ByteAt(v, i) == ByteAt(w, i)
    ensures v == w
  {
    assert ByteAt(v, 0) == ByteAt(w, 0) && ByteAt(v, 1) == ByteAt(w, 1) && ByteAt(v, 2) == ByteAt(w, 2) && ByteAt(v, 3) == ByteAt(w, 3);
    TopByte(v);
    TopByte(w);
    SecondByte(v);
    SecondByte(w);
    assert ByteAt(v, 3) == v % 256 && ByteAt(w, 3) == w % 256;
  }

  // ----- The error path ----------------------------------------------------

  predicate IsOverlongDecimal(part: string) {
    |part| > 4300 && part[0] != '0' && AllDigits(part, 10)
  }

  lemma {:induction false} FirstProblem(parts: seq<string>, i: nat)
    requires i < |parts| && !ParsePart(parts[i]).Number?
    requires forall j :: 0 <= j < i ==> ParsePart(parts[j]).Number?
    ensures ParseParts(parts) == Rejected(ParsePart(parts[i]))
  {
    if i > 0 {
      FirstProblem(parts[1..], i - 1);
    }
  }

  lemma {:induction false} ProblemExists(parts: seq<string>) returns (i: nat)
    requires ParseParts(parts).Rejected?
    ensures i < |parts| && !ParsePart(parts[i]).Number?
    ensures forall j :: 0 <= j < i ==> ParsePart(parts[j]).Number?
  {
    if !ParsePart(parts[0]).Number? {
      i := 0;
    } else {
      var k := ProblemExists(parts[1..]);
      i := k + 1;
    }
  }

  lemma OverlongPart(part: string)
    ensures ParsePart(part).Overlong? <==> IsOverlongDecimal(part)
  {
    if IsOverlongDecimal(part) {
      DigitsAreNotDots(part, 10);
      assert Lower(part)[..2][1] == part[1];
    }
  }

  /** The first part that is not an accepted number, if there are at most four, is such a decimal. */
  ghost predicate MeetsOverlong(host: string) {
    var parts := HostParts(host);
    |parts| <= 4 && exists i :: 0 <= i < |parts| && IsOverlongDecimal(parts[i])
                                && forall j :: 0 <= j < i ==> ParsePart(parts[j]).Number?
  }

  /**
    `as_ipv4` raises instead of answering exactly when, among at most four parts, the first one
    that is not an accepted number is a decimal too long for `int()`.
  */
  lemma RaisesExactlyOnOverlongDecimals(host: string)
    ensures Ipv4Of(host).RaisesValueError? <==> MeetsOverlong(host)
  {
    var parts := HostParts(host);
    if Ipv4Of(host).RaisesValueError? {
      var i := ProblemExists(parts);
      FirstProblem(parts, i);
      OverlongPart(parts[i]);
    }
    if |parts| <= 4 {
      forall i | 0 <= i < |parts| && IsOverlongDecimal(parts[i]) && forall j :: 0 <= j < i ==> ParsePart(parts[j]).Number?
        ensures Ipv4Of(host).RaisesValueError?
      {
        OverlongPart(parts[i]);
        FirstProblem(parts, i);
      }
    }
  }

  function Ones(n: nat): string {
    seq(n, i => '1')
  }

  /** A host of nothing but ones is such a text exactly if there are more than 4300 of them. */
  lemma OnesRaise(n: nat)
    ensures Ipv4Of(Ones(n)).RaisesValueError? <==> n > 4300
  {
    SplitWord(Ones(n), '.');
    assert HostParts(Ones(n)) == [Ones(n)];
    assert IsOverlongDecimal(HostParts(Ones(n))[0]) <==> n > 4300;
    RaisesExactlyOnOverlongDecimals(Ones(n));
  }
}
