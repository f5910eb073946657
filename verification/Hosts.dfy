/**
  The private-host guard: `is_private_ip`, `_normalize_host` and `_is_private_host`.

  Library text handling that the guard calls but does not define is a parameter: how bytes
  above 127 decode, how non-ASCII text folds, and how IPv6 text parses.
*/
module Hosts {
  import opened Options
  import opened Numerals
  import opened Text
  import opened Percent
  import opened Ipv4

  /** A parsed IPv6 address: 128 bits, and whether it carried a `%scope`. */
  datatype Ipv6 = Ipv6(bits: nat, scoped: bool) {
    predicate Valid() {
      bits < 0x1_0000_0000_0000_0000_0000_0000_0000_0000
    }
  }

  type ParsedIpv6 = a: Ipv6 | a.Valid() witness Ipv6(0, false)

  datatype Library = Library(
    utf8: Utf8,
    foldUnicode: string -> string,
    parseIpv6: string -> Option<ParsedIpv6>)

  // ----- Addresses ---------------------------------------------------------

  const TWO_32: nat := 0x1_0000_0000

  /** The text `_IPV4_RE` sees: `$` lets one final newline go unmatched. */
  function Line(ip: string): string {
    if ip != "" && ip[|ip| - 1] == '\n' then ip[..|ip| - 1] else ip
  }

  /** `_IPV4_RE` matches: four groups of one to three digits. */
  predicate LooksLikeIpv4(ip: string) {
    var groups := Split(Line(ip), '.');
    |groups| == 4 && forall i :: 0 <= i < 4 ==> 1 <= |groups[i]| <= 3 && AllDigits(groups[i], 10)
  }

  function Group(ip: string, i: nat): nat
    requires LooksLikeIpv4(ip) && i < 2
  {
    Value(Split(Line(ip), '.')[i], 10)
  }

  predicate HasColon(s: string) {
    ':' in s
  }

  datatype Network = Network(base: nat, size: nat)

  const COMPATIBLE := Network(0, TWO_32) // ::/96
  const LINK_LOCAL := Network(0xfe80_0000_0000_0000_0000_0000_0000_0000, 0x40_0000_0000_0000_0000_0000_0000_0000) // fe80::/10
  const UNIQUE_LOCAL := Network(0xfc00_0000_0000_0000_0000_0000_0000_0000, 0x200_0000_0000_0000_0000_0000_0000_0000) // fc00::/7

  predicate InNetwork(bits: nat, network: Network) {
    network.base <= bits < network.base + network.size
  }

  /** `is_private_ip`. The only self-calls are on a dotted quad, which has no colon. */
  function IsPrivateIp(address: string, lib: Library): bool
    decreases HasColon(address)
  {
    var ip := Lower(address);
    if HasColon(address) then
      match lib.parseIpv6(ip)
      case None => false
      case Some(parsed) =>
        if parsed.bits / TWO_32 == 0xffff then
          QuadHasNoColon(parsed.bits % TWO_32);
          IsPrivateIp(Quad(parsed.bits % TWO_32), lib)
        else if InNetwork(parsed.bits, COMPATIBLE) && parsed != Ipv6(0, false) && parsed != Ipv6(1, false) then
          QuadHasNoColon(parsed.bits);
          IsPrivateIp(Quad(parsed.bits), lib)
        else if parsed.bits == 0 || parsed.bits == 1 then true
        else InNetwork(parsed.bits, LINK_LOCAL) || InNetwork(parsed.bits, UNIQUE_LOCAL)
    else
      LooksLikeIpv4(ip) &&
      var a, b := Group(ip, 0), Group(ip, 1);
      || a in {0, 10, 127}
      || (a == 100 && 64 <= b <= 127)
      || (a == 169 && b == 254)
      || (a == 172 && 16 <= b <= 31)
      || (a == 192 && b == 168)
  }

  /** 0/8, 10/8, 100.64/10, 127/8, 169.254/16, 172.16/12 and 192.168/16 as plain ranges of numbers. */
  predicate IsPrivateIpv4(v: nat) {
    || v < 0x0100_0000
    || 0x0a00_0000 <= v < 0x0b00_0000
    || 0x6440_0000 <= v < 0x6480_0000
    || 0x7f00_0000 <= v < 0x8000_0000
    || 0xa9fe_0000 <= v < 0xa9ff_0000
    || 0xac10_0000 <= v < 0xac20_0000
    || 0xc0a8_0000 <= v < 0xc0a9_0000
  }

  /**
    fe80::/10 and fc00::/7, the unspecified and loopback addresses, and the IPv4-mapped and
    IPv4-compatible addresses whose low 32 bits are private.
  */
  predicate IsPrivateIpv6(bits: nat) {
    || 0xfe80_0000_0000_0000_0000_0000_0000_0000 <= bits < 0xfec0_0000_0000_0000_0000_0000_0000_0000
    || 0xfc00_0000_0000_0000_0000_0000_0000_0000 <= bits < 0xfe00_0000_0000_0000_0000_0000_0000_0000
    || bits == 0
    || bits == 1
    || (0xffff_0000_0000 <= bits < 0x1_0000_0000_0000 && IsPrivateIpv4(bits - 0xffff_0000_0000))
    || (bits < 0x1_0000_0000 && IsPrivateIpv4(bits))
  }

  lemma QuadShape(v: nat)
    ensures Split(Quad(v), '.') == QuadBytes(v)
    ensures Lower(Quad(v)) == Quad(v) && HostChars(Quad(v))
  {
    QuadParts(v);
    forall i | 0 <= i < 4 ensures Lower(QuadBytes(v)[i]) == QuadBytes(v)[i] && HostChars(QuadBytes(v)[i]) {
      DigitsAreNotDots(QuadBytes(v)[i], 10);
      DigitsAreHostChars(QuadBytes(v)[i]);
    }
    LowerJoin(QuadBytes(v));
    JoinHostChars(QuadBytes(v));
  }

  lemma HostCharsExclude(s: string)
    requires HostChars(s)
    ensures Excludes(s, ':') && Excludes(s, '\n') && Excludes(s, '%') && Excludes(s, '[') && Excludes(s, 'l')
  {
  }

  lemma QuadHasNoColon(v: nat)
    ensures !HasColon(Quad(v))
  {
    QuadShape(v);
    HostCharsExclude(Quad(v));
  }

  lemma ByteText(n: nat)
    requires n < 256
    ensures 1 <= |Repr(n, 10)| <= 3 && AllDigits(Repr(n, 10), 10) && Value(Repr(n, 10), 10) == n
  {
    ReprIsDigits(n, 10);
    assert Pow(10, 3) == 1000;
    ReprLength(n, 10, 3);
  }

  lemma QuadLooksLikeIpv4(v: nat)
    ensures LooksLikeIpv4(Quad(v)) && Group(Quad(v), 0) == ByteAt(v, 0) && Group(Quad(v), 1) == ByteAt(v, 1)
  {
    QuadShape(v);
    HostCharsExclude(Quad(v));
    forall i | 0 <= i < 4
      ensures 1 <= |QuadBytes(v)[i]| <= 3 && AllDigits(QuadBytes(v)[i], 10) && Value(QuadBytes(v)[i], 10) == ByteAt(v, i)
    {
      ByteText(ByteAt(v, i));
    }
  }

  lemma RangesFromBytes(v: nat)
    requires v < TWO_32
    ensures var a, b := ByteAt(v, 0), ByteAt(v, 1);
            IsPrivateIpv4(v) <==>
            || a in {0, 10, 127}
            || (a == 100 && 64 <= b <= 127)
            || (a == 169 && b == 254)
            || (a == 172 && 16 <= b <= 31)
            || (a == 192 && b == 168)
  {
    TopByte(v);
    SecondByte(v);
  }

  /** On a printed quad, the verdict is the plain range test on the number it prints. */
  lemma QuadVerdict(v: nat, lib: Library)
    requires v < TWO_32
    ensures IsPrivateIp(Quad(v), lib) <==> IsPrivateIpv4(v)
  {
    QuadShape(v);
    QuadHasNoColon(v);
    QuadLooksLikeIpv4(v);
    RangesFromBytes(v);
  }

  /** The IPv6 verdict is exactly the set of addresses above, whatever their spelling or scope. */
  lemma Ipv6Verdict(address: string, lib: Library)
    requires ':' in address && lib.parseIpv6(Lower(address)).Some?
    ensures IsPrivateIp(address, lib) <==> IsPrivateIpv6(lib.parseIpv6(Lower(address)).value.bits)
  {
    var parsed := lib.parseIpv6(Lower(address)).value;
    if parsed.bits / TWO_32 == 0xffff {
      QuadVerdict(parsed.bits % TWO_32, lib);
    } else if parsed.bits < TWO_32 {
      QuadVerdict(parsed.bits, lib);
    }
  }

  /** Four groups of one to three digits, joined by dots. */
  predicate AreGroups(groups: seq<string>) {
    |groups| == 4 && forall i :: 0 <= i < 4 ==> 1 <= |groups[i]| <= 3 && AllDigits(groups[i], 10)
  }

  lemma GroupsAreRead(groups: seq<string>)
    requires AreGroups(groups)
    ensures var ip := Join(groups, ".");
            && LooksLikeIpv4(ip) && Lower(ip) == ip && !HasColon(ip)
            && Group(ip, 0) == Value(groups[0], 10) && Group(ip, 1) == Value(groups[1], 10)
  {
    var ip := Join(groups, ".");
    forall i | 0 <= i < 4 ensures Excludes(groups[i], '.') && Lower(groups[i]) == groups[i] && HostChars(groups[i]) {
      DigitsAreNotDots(groups[i], 10);
      DigitsAreHostChars(groups[i]);
    }
    LowerJoin(groups);
    JoinHostChars(groups);
    HostCharsExclude(ip);
    SplitJoin(groups, '.');
  }

  lemma RangesOfPair(a: nat, b: nat)
    ensures a <= 255 && (if b <= 255 then IsPrivateIpv4(a * 0x100_0000 + b * 0x1_0000) else a in {0, 10, 127}) <==>
            || a in {0, 10, 127}
            || (a == 100 && 64 <= b <= 127)
            || (a == 169 && b == 254)
            || (a == 172 && 16 <= b <= 31)
            || (a == 192 && b == 168)
  {
  }

  lemma GroupVerdict(ip: string, a: nat, b: nat, lib: Library)
    requires LooksLikeIpv4(ip) && Lower(ip) == ip && !HasColon(ip) && Group(ip, 0) == a && Group(ip, 1) == b
    ensures IsPrivateIp(ip, lib) <==>
            a <= 255 && (if b <= 255 then IsPrivateIpv4(a * 0x100_0000 + b * 0x1_0000) else a in {0, 10, 127})
  {
    RangesOfPair(a, b);
  }

  /**
    Dotted groups with or without leading zeros, as a resolver may spell an address, are judged by
    the range test on their first two numbers, and by the first alone if the second is no byte.
  */
  lemma DottedVerdict(groups: seq<string>, lib: Library)
    requires AreGroups(groups)
    ensures var a, b := Value(groups[0], 10), Value(groups[1], 10);
            IsPrivateIp(Join(groups, "."), lib) <==>
            a <= 255 && (if b <= 255 then IsPrivateIpv4(a * 0x100_0000 + b * 0x1_0000) else a in {0, 10, 127})
  {
    GroupsAreRead(groups);
    GroupVerdict(Join(groups, "."), Value(groups[0], 10), Value(groups[1], 10), lib);
  }

  /** A final newline goes unnoticed. */
  lemma NewlineIsUnnoticed(address: string, lib: Library)
    requires ':' !in address && (address == "" || address[|address| - 1] != '\n')
    ensures IsPrivateIp(address + "\n", lib) == IsPrivateIp(address, lib)
  {
    var ip := Lower(address);
    LowerConcat(address, "\n");
    assert Lower("\n") == "\n";
    assert address != "" ==> ip[|ip| - 1] == LowerChar(address[|address| - 1]);
    assert (ip + "\n")[..|ip|] == ip;
  }

  /** Any other text without a colon is no private address, whatever it is. */
  lemma OtherTextIsPublic(address: string, lib: Library) returns (groups: seq<string>)
    requires ':' !in address && IsPrivateIp(address, lib)
    ensures AreGroups(groups) && (Lower(address) == Join(groups, ".") || Lower(address) == Join(groups, ".") + "\n")
  {
    var ip := Lower(address);
    groups := Split(Line(ip), '.');
    JoinSplit(Line(ip), '.');
    assert ip != "" ==> ip == ip[..|ip| - 1] + [ip[|ip| - 1]];
  }

  /** Judging :: and ::1 as embedded IPv4 addresses would give the answer the carve-out gives. */
  lemma {:induction false} CarveOutIsRedundant(bits: nat, lib: Library)
    requires bits == 0 || bits == 1
    ensures IsPrivateIp(Quad(bits), lib)
  {
    QuadVerdict(bits, lib);
  }

  // ----- Host names --------------------------------------------------------

  /** NFKC and casefold: on ASCII text, lower-casing; otherwise left to the library. */
  function Fold(s: string, lib: Library): string {
    if IsAscii(s) then Lower(s) else lib.foldUnicode(s)
  }

  function StripBrackets(host: string): string {
    if |host| >= 2 && host[0] == '[' && host[|host| - 1] == ']' then host[1..|host| - 1] else host
  }

  /** What `_normalize_host` computes: three rounds of decoding, brackets off, folded, final dots off. */
  function NormalizeHost(hostname: string, lib: Library): string {
    StripTrailing(Fold(StripBrackets(Decoded(hostname, 3, lib.utf8)), lib), '.')
  }

  /** The bounded loop: decode until nothing changes. */
  method DecodeRounds(hostname: string, utf8: Utf8) returns (host: string)
    ensures host == Decoded(hostname, 3, utf8)
  {
    host := hostname;
    for round := 0 to 3
      invariant Decoded(hostname, 3, utf8) == Decoded(host, 3 - round, utf8)
    {
      var decoded := Unquote(host, utf8);
      if decoded == host {
        FixpointStays(host, 3 - round, utf8);
        break;
      }
      host := decoded;
    }
  }

  method Normalize(hostname: string, lib: Library) returns (host: string)
    ensures host == NormalizeHost(hostname, lib)
  {
    host := DecodeRounds(hostname, lib.utf8);
    if |host| >= 2 && host[0] == '[' && host[|host| - 1] == ']' {
      host := host[1..|host| - 1];
    }
    host := Fold(host, lib);
    host := StripTrailing(host, '.');
  }

  datatype Verdict = Private | Public | Raises

  function Judge(private: bool): Verdict {
    if private then Private else Public
  }

  predicate IsLocalhost(host: string) {
    host == "localhost" || EndsWith(host, ".localhost")
  }

  /** The names that stand for the worker's own machine. */
  predicate IsLocalName(host: string) {
    host == "localhost" || (|host| >= 10 && host[|host| - 10..] == ".localhost")
  }

  /** `_is_private_host`, which raises when `as_ipv4` does. */
  function PrivateHost(hostname: string, lib: Library): Verdict {
    JudgeNormalized(NormalizeHost(hostname, lib), lib)
  }

  function JudgeNormalized(host: string, lib: Library): Verdict {
    if IsLocalhost(host) then Private
    else if HasColon(host) then Judge(IsPrivateIp(host, lib))
    else match Ipv4Of(host)
      case Address(quad) => Judge(IsPrivateIp(quad, lib))
      case NotIpv4 => Public
      case RaisesValueError => Raises
  }

  /** The characters that occur in spelled addresses. */
  predicate HostChars(s: string) {
    forall i :: 0 <= i < |s| ==> s[i] in "0123456789abcdefx."
  }

  lemma DigitsAreHostChars(s: string)
    requires AllDigits(s, 16)
    ensures HostChars(s)
  {
    forall i | 0 <= i < |s| ensures s[i] in "0123456789abcdefx." {
      OfDigit(s[i]);
      assert "0123456789abcdefx."[DigitValue(s[i])] == DIGITS[DigitValue(s[i])];
    }
  }

  lemma PartHostChars(n: nat, form: Form)
    ensures HostChars(PrintPart(n, form))
  {
    match form
    case Dec => DigitsAreHostChars(Repr(n, 10));
    case Oct(z) => ValueOfRepr(z, n, 8); DigitsAreHostChars(Zeros(z) + Repr(n, 8));
    case Hex(z) => ValueOfRepr(z, n, 16); DigitsAreHostChars(Zeros(z) + Repr(n, 16));
  }

  lemma {:induction false} JoinHostChars(parts: seq<string>)
    requires 1 <= |parts| && forall i :: 0 <= i < |parts| ==> HostChars(parts[i])
    ensures HostChars(Join(parts, "."))
  {
    if |parts| > 1 {
      JoinHostChars(parts[1..]);
    }
  }

  lemma SpellHostChars(v: nat, forms: seq<Form>, dot: bool)
    requires 1 <= |forms| <= 4
    ensures HostChars(Spell(v, forms, dot))
  {
    var ns := PartValues(v, |forms|);
    forall i | 0 <= i < |forms| ensures HostChars(PrintParts(ns, forms)[i]) {
      PartHostChars(ns[i], forms[i]);
    }
    JoinHostChars(PrintParts(ns, forms));
  }

  lemma LocalhostHasL(host: string)
    requires IsLocalhost(host)
    ensures !Excludes(host, 'l')
  {
    if host == "localhost" {
      assert host[0] == 'l';
    } else {
      assert host[|host| - 10..][1] == 'l';
    }
  }

  lemma LowerHostChars(s: string)
    requires HostChars(Lower(s))
    ensures IsAscii(s) && Excludes(s, '%') && Excludes(s, '[')
  {
    forall i | 0 <= i < |s| ensures s[i] as int < 128 && s[i] != '%' && s[i] != '[' {
      assert Lower(s)[i] in "0123456789abcdefx.";
    }
  }

  /** Final dots do not matter, and neither does case, for a host made of address characters. */
  lemma NormalizeSpelled(host: string, lib: Library)
    requires HostChars(Lower(host))
    ensures NormalizeHost(host, lib) == StripTrailing(Lower(host), '.')
  {
    LowerHostChars(host);
    UnquotePlain(host, lib.utf8);
    FixpointStays(host, 3, lib.utf8);
  }

  lemma {:induction false} StripAppended(s: string, dots: nat)
    requires s == "" || s[|s| - 1] != '.'
    ensures StripTrailing(s + seq(dots, i => '.'), '.') == s
  {
    var t := s + seq(dots, i => '.');
    if dots > 0 {
      assert t[..|t| - 1] == s + seq(dots - 1, i => '.');
      StripAppended(s, dots - 1);
    } else {
      assert t == s;
    }
  }

  function Dots(n: nat): string {
    seq(n, i => '.')
  }

  lemma SpellEndsWithDigit(v: nat, forms: seq<Form>)
    requires 1 <= |forms| <= 4
    ensures Spell(v, forms, false) != "" && Spell(v, forms, false)[|Spell(v, forms, false)| - 1] != '.'
  {
    var ns := PartValues(v, |forms|);
    var parts := PrintParts(ns, forms);
    PrintPartShape(ns[|forms| - 1], forms[|forms| - 1]);
    JoinLast(parts);
  }

  lemma {:induction false} JoinLast(parts: seq<string>)
    requires 1 <= |parts| && parts[|parts| - 1] != ""
    ensures Join(parts, ".") != "" && Join(parts, ".")[|Join(parts, ".")| - 1] == parts[|parts| - 1][|parts[|parts| - 1]| - 1]
  {
    if |parts| > 1 {
      JoinLast(parts[1..]);
    }
  }

  /** A host that denotes an IPv4 address: a spelling, with any number of final dots. */
  ghost predicate HostDenotes(host: string, v: nat) {
    exists forms, dots :: v < TWO_32 && 1 <= |forms| <= 4 && Lower(host) == Spell(v, forms, false) + Dots(dots)
  }

  lemma SpelledNormalForm(host: string, v: nat, forms: seq<Form>, dots: nat, lib: Library)
    requires 1 <= |forms| <= 4 && Lower(host) == Spell(v, forms, false) + Dots(dots)
    ensures NormalizeHost(host, lib) == Spell(v, forms, false)
  {
    SpellHostChars(v, forms, false);
    assert HostChars(Lower(host));
    NormalizeSpelled(host, lib);
    SpellEndsWithDigit(v, forms);
    StripAppended(Spell(v, forms, false), dots);
  }

  lemma SpelledIsAddress(v: nat, forms: seq<Form>, lib: Library)
    requires v < TWO_32 && 1 <= |forms| <= 4
    ensures JudgeNormalized(Spell(v, forms, false), lib) == Judge(IsPrivateIpv4(v))
  {
    var spelled := Spell(v, forms, false);
    SpellHostChars(v, forms, false);
    HostCharsExclude(spelled);
    assert !IsLocalhost(spelled) by {
      if IsLocalhost(spelled) {
        LocalhostHasL(spelled);
      }
    }
    SpelledIsLower(v, forms);
    ReadsEverySpelling(spelled, v, forms, false);
    QuadVerdict(v, lib);
  }

  /** However an IPv4 host is spelled, the guard's verdict is the plain range test on its value. */
  lemma {:induction false} SpelledHostVerdict(host: string, v: nat, lib: Library)
    requires HostDenotes(host, v)
    ensures PrivateHost(host, lib) == Judge(IsPrivateIpv4(v))
  {
    var forms, dots :| v < TWO_32 && 1 <= |forms| <= 4 && Lower(host) == Spell(v, forms, false) + Dots(dots);
    SpelledNormalForm(host, v, forms, dots, lib);
    SpelledIsAddress(v, forms, lib);
  }

  lemma SpelledIsLower(v: nat, forms: seq<Form>)
    requires 1 <= |forms| <= 4
    ensures Lower(Spell(v, forms, false)) == Spell(v, forms, false)
  {
    var ns := PartValues(v, |forms|);
    forall i | 0 <= i < |forms| ensures Lower(PrintParts(ns, forms)[i]) == PrintParts(ns, forms)[i] {
      PrintPartShape(ns[i], forms[i]);
    }
    LowerJoin(PrintParts(ns, forms));
  }

  /** A host without percent signs and brackets is folded, and its final dots come off. */
  lemma {:induction false} PlainHostFolds(host: string, folded: string, dots: nat, lib: Library)
    requires Excludes(host, '%') && !IsBracketed(host) && (folded == "" || folded[|folded| - 1] != '.')
    requires (if IsAscii(host) then Lower(host) else lib.foldUnicode(host)) == folded + Dots(dots)
    ensures NormalizeHost(host, lib) == folded
  {
    UnquotePlain(host, lib.utf8);
    FixpointStays(host, 3, lib.utf8);
    StripAppended(folded, dots);
  }

  /** So a host that is no ASCII text, but folds to a spelling of an address, is judged by its value too. */
  lemma {:induction false} FoldedSpellingVerdict(host: string, v: nat, forms: seq<Form>, dots: nat, lib: Library)
    requires v < TWO_32 && 1 <= |forms| <= 4
    requires Excludes(host, '%') && !IsBracketed(host) && !IsAscii(host) && lib.foldUnicode(host) == Spell(v, forms, false) + Dots(dots)
    ensures PrivateHost(host, lib) == Judge(IsPrivateIpv4(v))
  {
    SpellEndsWithDigit(v, forms);
    PlainHostFolds(host, Spell(v, forms, false), dots, lib);
    SpelledIsAddress(v, forms, lib);
  }

  lemma NormalFormReadsDecoded(one: string, other: string, lib: Library)
    requires Decoded(one, 3, lib.utf8) == Decoded(other, 3, lib.utf8)
    ensures NormalizeHost(one, lib) == NormalizeHost(other, lib)
  {
  }

  lemma LowerTwice(s: string)
    ensures Lower(Lower(s)) == Lower(s) && (IsAscii(s) ==> IsAscii(Lower(s)))
    ensures Excludes(s, '%') ==> Excludes(Lower(s), '%')
  {
  }

  predicate IsBracketed(host: string) {
    |host| >= 2 && host[0] == '[' && host[|host| - 1] == ']'
  }

  lemma PlainNormalizes(host: string, lib: Library)
    requires IsAscii(host) && Excludes(host, '%')
    ensures NormalizeHost(host, lib) == StripTrailing(Lower(StripBrackets(host)), '.')
  {
    UnquotePlain(host, lib.utf8);
    FixpointStays(host, 3, lib.utf8);
  }

  /** One pair of brackets around an ASCII host leaves its normal form and its verdict unchanged, and so does its case. */
  lemma SurfaceIsTransparent(host: string, lib: Library)
    requires IsAscii(host) && Excludes(host, '%') && !IsBracketed(host)
    ensures NormalizeHost("[" + host + "]", lib) == NormalizeHost(host, lib) == NormalizeHost(Lower(host), lib)
    ensures PrivateHost("[" + host + "]", lib) == PrivateHost(host, lib) == PrivateHost(Lower(host), lib)
  {
    LowerTwice(host);
    var bracketed := "[" + host + "]";
    assert bracketed[1..|bracketed| - 1] == host;
    PlainNormalizes(bracketed, lib);
    PlainNormalizes(host, lib);
    PlainNormalizes(Lower(host), lib);
    assert |host| >= 2 ==> Lower(host)[0] == LowerChar(host[0]) && Lower(host)[|host| - 1] == LowerChar(host[|host| - 1]);
  }

  /** Up to three percent-encoded layers leave the normalised host, and so the verdict, unchanged. */
  lemma {:induction false} WrappingIsTransparent(wrapped: string, host: string, layers: nat, lib: Library)
    requires IsWrapped(wrapped, host, layers) && layers <= 3
    requires IsAscii(host) && Excludes(host, '%')
    ensures NormalizeHost(wrapped, lib) == NormalizeHost(host, lib)
    ensures PrivateHost(wrapped, lib) == PrivateHost(host, lib)
  {
    DecodingUnwraps(wrapped, host, layers, 3, lib.utf8);
    UnquotePlain(host, lib.utf8);
    FixpointStays(host, 3, lib.utf8);
    NormalFormReadsDecoded(wrapped, host, lib);
  }

  /** The two together: any spelling of an address inside up to three layers is judged by its number. */
  lemma {:induction false} WrappedSpellingVerdict(wrapped: string, host: string, layers: nat, v: nat, lib: Library)
    requires IsWrapped(wrapped, host, layers) && layers <= 3 && HostDenotes(host, v)
    ensures PrivateHost(wrapped, lib) == Judge(IsPrivateIpv4(v))
  {
    var forms, dots :| v < TWO_32 && 1 <= |forms| <= 4 && Lower(host) == Spell(v, forms, false) + Dots(dots);
    SpellHostChars(v, forms, false);
    assert HostChars(Lower(host));
    LowerHostChars(host);
    WrappingIsTransparent(wrapped, host, layers, lib);
    SpelledHostVerdict(host, v, lib);
  }

  /** Escaping just the leading percent sign of an escape is a layer. */
  lemma EscapedPercent(tail: string)
    requires Excludes(tail, '%')
    ensures IsLayer("%25" + tail, "%" + tail)
  {
    PlainIsLayer(tail);
    var e := "%25" + tail;
    assert e[3..] == tail && ("%" + tail)[1..] == tail;
    assert IsEscape(e) && EscapedByte(e) == '%' as int;
  }

  /** `%61` with its percent sign escaped `times` times over. */
  function Nested(times: nat): (s: string)
    ensures |s| >= 3 && s[0] == '%' && Excludes(s[1..], '%') && IsAscii(s)
  {
    if times == 0 then "%61" else "%25" + Nested(times - 1)[1..]
  }

  lemma {:induction false} NestedIsWrapped(times: nat)
    ensures IsWrapped(Nested(times), "a", times + 1)
    ensures times > 0 ==> IsLayer(Nested(times), Nested(times - 1))
  {
    if times == 0 {
      assert IsLayer("%61", "a") && IsWrapped("a", "a", 0);
    } else {
      NestedIsWrapped(times - 1);
      var inner := Nested(times - 1);
      EscapedPercent(inner[1..]);
      assert inner == "%" + inner[1..];
      assert IsLayer(Nested(times), inner) && IsWrapped(inner, "a", times);
    }
  }

  lemma {:induction false} NestedDecodes(times: nat, rounds: nat, utf8: Utf8)
    requires rounds <= times
    ensures Decoded(Nested(times), rounds, utf8) == Nested(times - rounds)
  {
    if rounds > 0 {
      NestedIsWrapped(times);
      UnquoteUndoesLayer(Nested(times), Nested(times - 1), utf8);
      NestedDecodes(times - 1, rounds - 1, utf8);
    }
  }

  /** A host that still starts with a percent sign after three rounds keeps it in its normal form. */
  lemma PercentSurvives(hostname: string, lib: Library)
    requires var left := Decoded(hostname, 3, lib.utf8); left != "" && left[0] == '%' && IsAscii(left)
    ensures NormalizeHost(hostname, lib) == "" || NormalizeHost(hostname, lib)[0] == '%'
  {
    var left := Decoded(hostname, 3, lib.utf8);
    assert Lower(left)[0] == '%';
  }

  lemma PlainNormalForm(lib: Library)
    ensures NormalizeHost("a", lib) == "a"
  {
    UnquotePlain("a", lib.utf8);
    FixpointStays("a", 3, lib.utf8);
    assert Lower("a") == "a";
  }

  /** The bound of three is tight: four or more layers can hide a host from the guard's normal form. */
  lemma MoreLayersAreNotUndone(layers: nat, lib: Library)
    requires layers >= 4
    ensures exists wrapped :: IsWrapped(wrapped, "a", layers) && NormalizeHost(wrapped, lib) != NormalizeHost("a", lib)
  {
    var wrapped := Nested(layers - 1);
    NestedIsWrapped(layers - 1);
    NestedDecodes(layers - 1, 3, lib.utf8);
    PercentSurvives(wrapped, lib);
    PlainNormalForm(lib);
    assert "a"[0] != '%';
  }

  ghost predicate SpellsPrivateIpv4(host: string) {
    exists v: nat :: v < TWO_32 && IsPrivateIpv4(v) && Denotes(host, v)
  }

  lemma Ipv4Verdict(host: string, lib: Library)
    ensures SpellsPrivateIpv4(host) <==> Ipv4Of(host).Address? && IsPrivateIp(Ipv4Of(host).text, lib)
  {
    if SpellsPrivateIpv4(host) {
      var v: nat :| v < TWO_32 && IsPrivateIpv4(v) && Denotes(host, v);
      AcceptsExactlyTheSpellings(host, v);
      QuadVerdict(v, lib);
    }
    if Ipv4Of(host).Address? {
      OnlySpellingsAreRead(host);
      var w: nat :| Denotes(host, w) && Ipv4Of(host) == Address(Quad(w));
      QuadVerdict(w, lib);
    }
  }

  /** What the guard blocks, in full: names under localhost, private IPv6 text, private IPv4 spellings. */
  lemma {:induction false} BlocksExactly(hostname: string, lib: Library)
    ensures PrivateHost(hostname, lib) == Private <==>
            var host := NormalizeHost(hostname, lib);
            || IsLocalName(host)
            || (':' in host && lib.parseIpv6(Lower(host)).Some? && IsPrivateIpv6(lib.parseIpv6(Lower(host)).value.bits))
            || (':' !in host && SpellsPrivateIpv4(host))
  {
    var host := NormalizeHost(hostname, lib);
    Ipv4Verdict(host, lib);
    if HasColon(host) && lib.parseIpv6(Lower(host)).Some? {
      Ipv6Verdict(host, lib);
    }
  }

  /** The guard raises exactly on an overlong decimal that no earlier test has answered for. */
  lemma RaisesExactly(hostname: string, lib: Library)
    ensures PrivateHost(hostname, lib) == Raises <==>
            var host := NormalizeHost(hostname, lib);
            !IsLocalName(host) && ':' !in host && MeetsOverlong(host)
  {
    RaisesExactlyOnOverlongDecimals(NormalizeHost(hostname, lib));
  }
}
