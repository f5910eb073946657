/** Proxy URLs: `build_proxy_options` and the rotating session ids. */
module Proxy {
  import opened Options
  import opened Numerals
  import opened Text
  import opened Percent
  import opened UrlParts

  const SID_PLACEHOLDER: string := "<sid>"

  // ----- Session ids -------------------------------------------------------

  const SID_COUNT: nat := 1_000_000

  type SidNumber = n: nat | n < SID_COUNT

  lemma SidFits(n: SidNumber)
    ensures |Repr(n, 10)| <= 6
  {
    assert Pow(10, 6) == 1_000_000;
    ReprLength(n, 10, 6);
  }

  /** `generate_sid` for one draw: six digits, zero-padded. */
  function SidText(n: SidNumber): (s: string)
    ensures |s| == 6
  {
    SidFits(n);
    Zeros(6 - |Repr(n, 10)|) + Repr(n, 10)
  }

  /** The rendering is a bijection between 0..999999 and the six-digit strings. */
  lemma SidTextIsBijective(n: SidNumber, s: string)
    requires |s| == 6 && AllDigits(s, 10)
    ensures AllDigits(SidText(n), 10) && Value(SidText(n), 10) == n
    ensures Value(s, 10) < SID_COUNT && SidText(Value(s, 10)) == s
  {
    SidFits(n);
    ValueOfRepr(6 - |Repr(n, 10)|, n, 10);
    assert Pow(10, 6) == 1_000_000;
    ValueBound(s, 10);
    ReprOfValue(s, 10);
  }

  // ----- build_proxy_options -----------------------------------------------

  datatype ProxyOptions = ProxyOptions(server: string, username: Option<string>, password: Option<string>)

  /** `proxy_url.replace("<sid>", sid)`. */
  function Substitute(s: string, sid: string): string {
    if s == "" then ""
    else if |s| >= 5 && s[..5] == SID_PLACEHOLDER then sid + Substitute(s[5..], sid)
    else [s[0]] + Substitute(s[1..], sid)
  }

  predicate IsProxyScheme(scheme: string) {
    scheme == "http" || scheme == "https" || scheme == "socks5"
  }

  /** The options for a URL that has been split; None where the source raises ValueError. */
  function OptionsOf(parts: Url, checks: UrlChecks): Option<ProxyOptions> {
    var port, host, info := PortOf(parts.netloc), Hostname(parts.netloc), UserInfo(parts.netloc);
    if !port.PortNumber? || !IsProxyScheme(parts.scheme) || host == "" then None
    else if parts.path != "" || parts.query != "" || parts.fragment != "" then None
    else
      var serverHost := if ':' in host then "[" + host + "]" else host;
      Some(ProxyOptions(
             parts.scheme + "://" + serverHost + ":" + Repr(port.n, 10),
             if info.Some? && info.value.before != "" then Some(Unquote(info.value.before, checks.utf8)) else None,
             if info.Some? && info.value.found then Some(Unquote(info.value.after, checks.utf8)) else None))
  }

  function BuildProxyOptions(proxyUrl: string, sid: string, checks: UrlChecks): Option<ProxyOptions> {
    match UrlSplit(Substitute(proxyUrl, sid), checks)
    case None => None
    case Some(parts) => OptionsOf(parts, checks)
  }

  /** An upstream proxy: one of three protocols, a host, an explicit port and nothing behind it. */
  predicate IsProxy(parts: Url) {
    && parts.scheme in {"http", "https", "socks5"} && Hostname(parts.netloc) != "" && PortOf(parts.netloc).PortNumber?
    && parts.path == "" && parts.query == "" && parts.fragment == ""
  }

  /** `build_proxy_options` accepts exactly the URLs that split, with the session id in place, into such parts. */
  lemma AcceptsExactlyProxies(proxyUrl: string, sid: string, checks: UrlChecks)
    ensures BuildProxyOptions(proxyUrl, sid, checks).Some? <==>
            UrlSplit(Substitute(proxyUrl, sid), checks).Some? && IsProxy(UrlSplit(Substitute(proxyUrl, sid), checks).value)
  {
  }

  // ----- The server never carries the userinfo -------------------------------

  lemma LowerExcludesAt(s: string)
    requires Excludes(s, '@')
    ensures Excludes(Lower(s), '@')
  {
    forall i | 0 <= i < |s| ensures Lower(s)[i] != '@' {
      assert s[i] != '@';
    }
  }

  lemma HostnameHasNoAt(netloc: string)
    ensures Excludes(Hostname(netloc), '@')
  {
    var info := HostInfo(netloc);
    CutKeepsExcluded(info, '[', '@');
    CutKeepsExcluded(Cut(info, '[').after, ']', '@');
    CutKeepsExcluded(info, ':', '@');
    var host := HostAndPort(info).0;
    CutKeepsExcluded(host, '%', '@');
    LowerExcludesAt(Cut(host, '%').before);
  }

  lemma ConcatExcludes(a: string, b: string, c: char)
    requires Excludes(a, c) && Excludes(b, c)
    ensures Excludes(a + b, c)
  {
  }

  lemma OptionsServerHasNoAt(parts: Url, checks: UrlChecks)
    requires OptionsOf(parts, checks).Some?
    ensures Excludes(OptionsOf(parts, checks).value.server, '@')
  {
    HostnameHasNoAt(parts.netloc);
    var host, port := Hostname(parts.netloc), Repr(PortOf(parts.netloc).n, 10);
    assert forall i :: 0 <= i < |port| ==> DigitValue(port[i]) < 10;
    var serverHost := if ':' in host then "[" + host + "]" else host;
    assert Excludes(parts.scheme, '@');
    ConcatExcludes(parts.scheme, "://", '@');
    ConcatExcludes(parts.scheme + "://", serverHost, '@');
    ConcatExcludes(parts.scheme + "://" + serverHost, ":", '@');
    ConcatExcludes(parts.scheme + "://" + serverHost + ":", port, '@');
  }

  /** Whatever the URL and session id, the server string that is logged contains no `@`. */
  lemma ServerHasNoUserinfo(proxyUrl: string, sid: string, checks: UrlChecks)
    requires BuildProxyOptions(proxyUrl, sid, checks).Some?
    ensures Excludes(BuildProxyOptions(proxyUrl, sid, checks).value.server, '@')
  {
    match UrlSplit(Substitute(proxyUrl, sid), checks)
    case Some(parts) => OptionsServerHasNoAt(parts, checks);
  }

  // ----- Round trip --------------------------------------------------------

  /** Characters that need no escaping in a credential, and the escape sign itself. */
  predicate IsSafe(c: char) {
    IsLetter(c) || '0' <= c <= '9' || c == '-' || c == '.' || c == '_' || c == '~' || c == '%'
  }

  predicate AllSafe(s: string) {
    forall i :: 0 <= i < |s| ==> IsSafe(s[i])
  }

  /** A piece of a credential, and a way to write it with every character outside the safe set escaped. */
  predicate Writes(encoded: string, raw: string) {
    AllSafe(encoded) && IsAscii(raw) && IsLayer(encoded, raw)
  }

  /** A credential is pieces of text with the session-id placeholder between them. */
  predicate WritesAll(encoded: seq<string>, raw: seq<string>) {
    |encoded| == |raw| && |raw| >= 1 && forall i :: 0 <= i < |raw| ==> Writes(encoded[i], raw[i])
  }

  predicate IsHostChar(c: char) {
    IsLetter(c) || '0' <= c <= '9' || c == '-' || c == '.'
  }

  predicate IsIpv6Char(c: char) {
    'a' <= LowerChar(c) <= 'f' || '0' <= c <= '9' || c == ':' || c == '.'
  }

  /** A proxy host in any case: a name, or an IPv6 literal that the library's check lets through. */
  datatype Host = Name(name: string) | Literal(address: string) {
    predicate Valid(checks: UrlChecks) {
      match this
      case Name(name) => name != "" && forall i :: 0 <= i < |name| ==> IsHostChar(name[i])
      case Literal(address) =>
        checks.bracketedHost(address) && ':' in address && forall i :: 0 <= i < |address| ==> IsIpv6Char(address[i])
    }

    function Text(): string {
      match this
      case Name(name) => name
      case Literal(address) => "[" + address + "]"
    }
  }

  /** What stands before the host: nothing, a user, or a user and a password, in pieces. */
  datatype Credentials = Nobody | User(user: seq<string>) | UserAndPassword(user: seq<string>, password: seq<string>)

  /** A credential in pieces that need no further escaping. */
  predicate ArePieces(pieces: seq<string>) {
    |pieces| >= 1 && forall i :: 0 <= i < |pieces| ==> AllSafe(pieces[i])
  }

  predicate IsPrintable(c: Credentials) {
    (c.Nobody? || ArePieces(c.user)) && (c.UserAndPassword? ==> ArePieces(c.password))
  }

  /** The userinfo as it is printed, with a mark between the pieces. */
  function PrintInfo(c: Credentials, mark: string): Option<string>
    requires IsPrintable(c)
  {
    match c
    case Nobody => None
    case User(user) => Some(Join(user, mark))
    case UserAndPassword(user, password) => Some(Join(user, mark) + ":" + Join(password, mark))
  }

  /** A proxy URL, with the placeholder (or a session id) wherever a credential has one. */
  function PrintProxy(scheme: string, c: Credentials, host: Host, port: nat, mark: string): string
    requires IsPrintable(c)
  {
    scheme + ":" + ("//" + Authority(PrintInfo(c, mark), host.Text(), Some(Repr(port, 10))))
  }

  /** These credentials, written with every character outside the safe set escaped. */
  predicate WritesCredentials(c: Credentials, raw: Credentials) {
    match c
    case Nobody => raw == Nobody
    case User(user) => raw.User? && WritesAll(user, raw.user)
    case UserAndPassword(user, password) => raw.UserAndPassword? && WritesAll(user, raw.user) && WritesAll(password, raw.password)
  }

  /** The user's name with the session id in place; an empty one is none. */
  function UserName(raw: Credentials, sid: string): Option<string>
    requires !raw.Nobody? ==> |raw.user| >= 1
  {
    if raw.Nobody? || Join(raw.user, sid) == "" then None else Some(Join(raw.user, sid))
  }

  /** The password, which may well be empty. */
  function Password(raw: Credentials, sid: string): Option<string>
    requires raw.UserAndPassword? ==> |raw.password| >= 1
  {
    if raw.UserAndPassword? then Some(Join(raw.password, sid)) else None
  }

  // Substitution.

  lemma SubstituteChar(c: char, rest: string, sid: string)
    requires c != '<'
    ensures Substitute([c] + rest, sid) == [c] + Substitute(rest, sid)
  {
    var s := [c] + rest;
    assert s[1..] == rest;
    assert |s| >= 5 ==> s[..5][0] == c;
  }

  lemma {:induction false} SubstitutePlain(a: string, b: string, sid: string)
    requires Excludes(a, '<')
    ensures Substitute(a + b, sid) == a + Substitute(b, sid)
  {
    if a == "" {
      assert a + b == b;
    } else {
      var c, tail, done := a[0], a[1..], Substitute(b, sid);
      SubstitutePlain(tail, b, sid);
      SubstituteChar(c, tail + b, sid);
      Prepend(a, b);
      Prepend(a, done);
    }
  }

  lemma Prepend(a: string, b: string)
    requires a != ""
    ensures a + b == [a[0]] + (a[1..] + b)
  {
  }

  lemma SubstituteMark(b: string, sid: string)
    ensures Substitute(SID_PLACEHOLDER + b, sid) == sid + Substitute(b, sid)
  {
    var s := SID_PLACEHOLDER + b;
    assert s[..5] == SID_PLACEHOLDER && s[5..] == b;
  }

  lemma SubstituteHead(piece: string, rest: string, sid: string)
    requires Excludes(piece, '<')
    ensures Substitute(piece + SID_PLACEHOLDER + rest, sid) == piece + sid + Substitute(rest, sid)
  {
    SubstituteMark(rest, sid);
    SubstitutePlain(piece, SID_PLACEHOLDER + rest, sid);
    assert piece + SID_PLACEHOLDER + rest == piece + (SID_PLACEHOLDER + rest);
    assert piece + sid + Substitute(rest, sid) == piece + (sid + Substitute(rest, sid));
  }

  lemma {:induction false} SubstituteJoin(pieces: seq<string>, tail: string, sid: string)
    requires |pieces| >= 1 && forall i :: 0 <= i < |pieces| ==> Excludes(pieces[i], '<')
    ensures Substitute(Join(pieces, SID_PLACEHOLDER) + tail, sid) == Join(pieces, sid) + Substitute(tail, sid)
  {
    if |pieces| == 1 {
      SubstitutePlain(pieces[0], tail, sid);
    } else {
      var inner := Join(pieces[1..], SID_PLACEHOLDER);
      SubstituteJoin(pieces[1..], tail, sid);
      SubstituteHead(pieces[0], inner + tail, sid);
      JoinTail(pieces, SID_PLACEHOLDER, tail);
      JoinTail(pieces, sid, Substitute(tail, sid));
    }
  }

  lemma JoinTail(pieces: seq<string>, mark: string, tail: string)
    requires |pieces| >= 2
    ensures Join(pieces, mark) + tail == pieces[0] + mark + (Join(pieces[1..], mark) + tail)
  {
    var inner := Join(pieces[1..], mark);
    assert (pieces[0] + mark + inner) + tail == pieces[0] + mark + (inner + tail);
  }

  lemma SafeExcludes(s: string)
    requires AllSafe(s)
    ensures Excludes(s, '<') && Excludes(s, '@') && Excludes(s, ':') && Excludes(s, '[') && Excludes(s, ']')
    ensures IsAscii(s)
  {
  }

  lemma DigitsAreSafe(s: string)
    requires AllDigits(s, 10)
    ensures AllSafe(s) && Excludes(s, '%')
  {
    assert forall i :: 0 <= i < |s| ==> DigitValue(s[i]) < 10;
  }

  lemma {:induction false} JoinSafe(pieces: seq<string>, mark: string)
    requires |pieces| >= 1 && AllSafe(mark) && forall i :: 0 <= i < |pieces| ==> AllSafe(pieces[i])
    ensures AllSafe(Join(pieces, mark))
  {
    if |pieces| > 1 {
      JoinSafe(pieces[1..], mark);
    }
  }

  // Credentials.

  lemma {:induction false} LayerConcat(e1: string, s1: string, e2: string, s2: string)
    requires IsLayer(e1, s1) && IsLayer(e2, s2)
    ensures IsLayer(e1 + e2, s1 + s2)
  {
    if s1 == "" {
      assert e1 + e2 == e2 && s1 + s2 == s2;
    } else {
      assert (s1 + s2)[1..] == s1[1..] + s2;
      if IsEscape(e1) && EscapedByte(e1) == s1[0] as int && IsLayer(e1[3..], s1[1..]) {
        LayerConcat(e1[3..], s1[1..], e2, s2);
        assert (e1 + e2)[3..] == e1[3..] + e2;
      } else {
        LayerConcat(e1[1..], s1[1..], e2, s2);
        assert (e1 + e2)[1..] == e1[1..] + e2;
      }
    }
  }

  lemma {:induction false} JoinedLayer(encoded: seq<string>, raw: seq<string>, sid: string)
    requires WritesAll(encoded, raw) && AllDigits(sid, 10)
    ensures IsLayer(Join(encoded, sid), Join(raw, sid)) && IsAscii(Join(raw, sid))
  {
    DigitsAreSafe(sid);
    SafeExcludes(sid);
    if |raw| > 1 {
      PlainIsLayer(sid);
      JoinedLayer(encoded[1..], raw[1..], sid);
      LayerConcat(encoded[0], raw[0], sid, sid);
      LayerConcat(encoded[0] + sid, raw[0] + sid, Join(encoded[1..], sid), Join(raw[1..], sid));
    }
  }

  /** Decoding a substituted credential gives the raw pieces around the session id. */
  lemma CredentialDecodes(encoded: seq<string>, raw: seq<string>, sid: string, utf8: Utf8)
    requires WritesAll(encoded, raw) && AllDigits(sid, 10)
    ensures Unquote(Join(encoded, sid), utf8) == Join(raw, sid)
    ensures AllSafe(Join(encoded, sid))
    ensures Join(encoded, sid) == "" ==> Join(raw, sid) == ""
  {
    JoinedLayer(encoded, raw, sid);
    UnquoteUndoesLayer(Join(encoded, sid), Join(raw, sid), utf8);
    DigitsAreSafe(sid);
    JoinSafe(encoded, sid);
  }

  lemma EmptyCredential(encoded: seq<string>, raw: seq<string>, sid: string)
    requires WritesAll(encoded, raw) && AllDigits(sid, 10)
    ensures Join(encoded, sid) == "" <==> Join(raw, sid) == ""
  {
    JoinedLayer(encoded, raw, sid);
  }

  // The authority.

  lemma HostTextExcludes(host: Host, checks: UrlChecks)
    requires host.Valid(checks)
    ensures Excludes(host.Text(), '@') && Excludes(host.Text(), '<') && IsAscii(host.Text())
    ensures forall i :: 0 <= i < |host.Text()| ==> !EndsAuthority(host.Text()[i]) && !IsUnsafe(host.Text()[i])
  {
  }

  function BareHost(host: Host): string {
    if host.Name? then host.name else host.address
  }

  lemma BareHostShape(host: Host, checks: UrlChecks)
    requires host.Valid(checks)
    ensures IsHostText(host.Text(), BareHost(host)) && Excludes(BareHost(host), '%') && BareHost(host) != ""
    ensures ':' in Lower(BareHost(host)) <==> host.Literal?
  {
    var bare := BareHost(host);
    if host.Literal? {
      var i :| 0 <= i < |bare| && bare[i] == ':';
      assert Lower(bare)[i] == ':';
    }
    assert WithZone(bare, None) == bare;
  }

  lemma LowerOfHost(host: Host)
    ensures Lower(host.Text()) == if host.Name? then Lower(BareHost(host)) else "[" + Lower(BareHost(host)) + "]"
  {
  }

  /** What the accessors read from a printed authority. */
  lemma AuthorityReadsBack(info: Option<string>, host: Host, port: string, checks: UrlChecks)
    requires host.Valid(checks) && AllDigits(port, 10)
    ensures var netloc := Authority(info, host.Text(), Some(port));
            && UserInfo(netloc) == (if info.Some? then Some(Cut(info.value, ':')) else None)
            && Hostname(netloc) == Lower(BareHost(host))
            && PortOf(netloc) == PortText(port)
  {
    DigitsAreSafe(port);
    SafeExcludes(port);
    BareHostShape(host, checks);
    var bare := BareHost(host);
    assert WithZone(bare, None) == bare && WithZone(Lower(bare), None) == Lower(bare);
    AuthorityIsRead(info, host.Text(), bare, None, Some(port));
  }

  // The URL.

  lemma SplitPlainUrl(scheme: string, netloc: string, checks: UrlChecks)
    requires IsScheme(scheme)
    requires IsPlain(netloc) && IsAscii(netloc)
    requires BracketsPass(netloc, checks)
    ensures UrlSplit(scheme + ":" + ("//" + netloc), checks) == Some(Url(Lower(scheme), netloc, "", "", ""))
  {
    SplitsAt(scheme, netloc, "", checks);
    assert netloc + "" == netloc;
  }

  lemma SchemesArePlain(scheme: string)
    requires IsProxyScheme(Lower(scheme))
    ensures IsScheme(scheme) && Excludes(scheme, '<')
  {
    var lowered := Lower(scheme);
    assert forall i :: 0 <= i < |lowered| ==> 'a' <= lowered[i] <= 'z' || lowered[i] == '5';
    forall i | 0 <= i < |scheme| ensures IsSchemeChar(scheme[i]) && scheme[i] != '<' {
      assert lowered[i] == LowerChar(scheme[i]);
    }
    assert 'a' <= lowered[0] <= 'z';
  }

  lemma PortReadsBack(port: nat)
    requires port <= 65535
    ensures AllDigits(Repr(port, 10), 10) && 1 <= |Repr(port, 10)| <= 5 && Value(Repr(port, 10), 10) == port
  {
    assert Pow(10, 5) == 100_000;
    ReprLength(port, 10, 5);
    ValueOfRepr(0, port, 10);
    assert Zeros(0) + Repr(port, 10) == Repr(port, 10);
  }

  lemma PiecesExclude(pieces: seq<string>)
    requires ArePieces(pieces)
    ensures forall i :: 0 <= i < |pieces| ==> Excludes(pieces[i], '<')
  {
    forall i | 0 <= i < |pieces| ensures Excludes(pieces[i], '<') {
      SafeExcludes(pieces[i]);
    }
  }

  function Front(info: Option<string>): string {
    if info.Some? then info.value + "@" else ""
  }

  lemma SubstitutePair(user: seq<string>, password: seq<string>, rest: string, sid: string)
    requires ArePieces(user) && ArePieces(password)
    ensures Substitute(Join(user, SID_PLACEHOLDER) + ":" + Join(password, SID_PLACEHOLDER) + "@" + rest, sid)
            == Join(user, sid) + ":" + Join(password, sid) + "@" + Substitute(rest, sid)
  {
    PiecesExclude(user);
    PiecesExclude(password);
    var u, p := Join(user, SID_PLACEHOLDER), Join(password, SID_PLACEHOLDER);
    SubstitutePlain("@", rest, sid);
    SubstituteJoin(password, "@" + rest, sid);
    SubstitutePlain(":", p + ("@" + rest), sid);
    SubstituteJoin(user, ":" + (p + ("@" + rest)), sid);
    InFour(u, p, rest);
    InFour(Join(user, sid), Join(password, sid), Substitute(rest, sid));
  }

  lemma InFour(u: string, p: string, rest: string)
    ensures u + ":" + p + "@" + rest == u + (":" + (p + ("@" + rest)))
  {
    assert ":" + p + "@" + rest == ":" + (p + ("@" + rest));
    assert u + ":" + p + "@" + rest == u + (":" + p + "@" + rest);
  }

  lemma SubstituteInfo(c: Credentials, rest: string, sid: string)
    requires IsPrintable(c)
    ensures Substitute(Front(PrintInfo(c, SID_PLACEHOLDER)) + rest, sid) == Front(PrintInfo(c, sid)) + Substitute(rest, sid)
  {
    match c
    case Nobody => assert "" + rest == rest && "" + Substitute(rest, sid) == Substitute(rest, sid);
    case User(user) =>
      PiecesExclude(user);
      SubstitutePlain("@", rest, sid);
      SubstituteJoin(user, "@" + rest, sid);
      Associate(Join(user, SID_PLACEHOLDER), "@", rest);
      Associate(Join(user, sid), "@", Substitute(rest, sid));
    case UserAndPassword(user, password) => SubstitutePair(user, password, rest, sid);
  }

  lemma PrintedShape(scheme: string, info: Option<string>, rest: string)
    ensures scheme + ":" + ("//" + (Front(info) + rest)) == scheme + "://" + (Front(info) + rest)
  {
    assert scheme + ":" + "//" == scheme + "://";
    Associate(scheme + ":", "//", Front(info) + rest);
  }

  /** Substituting the session id into a printed URL prints it with the id in place. */
  lemma SubstitutePrinted(scheme: string, c: Credentials, host: Host, port: nat, sid: string, checks: UrlChecks)
    requires IsProxyScheme(Lower(scheme)) && host.Valid(checks) && IsPrintable(c) && port <= 65535
    ensures Substitute(PrintProxy(scheme, c, host, port, SID_PLACEHOLDER), sid) == PrintProxy(scheme, c, host, port, sid)
  {
    SchemesArePlain(scheme);
    HostTextExcludes(host, checks);
    PortReadsBack(port);
    DigitsAreSafe(Repr(port, 10));
    SafeExcludes(Repr(port, 10));
    var rest := host.Text() + (":" + Repr(port, 10));
    SubstitutePlain(rest, "", sid);
    assert rest + "" == rest;
    SubstituteInfo(c, rest, sid);
    SubstitutePlain(scheme + "://", Front(PrintInfo(c, SID_PLACEHOLDER)) + rest, sid);
    PrintedShape(scheme, PrintInfo(c, SID_PLACEHOLDER), rest);
    PrintedShape(scheme, PrintInfo(c, sid), rest);
  }

  lemma LiteralBrackets(front: string, address: string, tail: string)
    requires Excludes(front, '[') && Excludes(address, ']')
    ensures var netloc := front + ("[" + address + "]" + tail);
            && '[' in netloc && ']' in netloc
            && Cut(Cut(netloc, '[').after, ']').before == address
  {
    var netloc := front + ("[" + address + "]" + tail);
    assert netloc == front + ['['] + (address + [']'] + tail);
    CutAt(front, '[', address + [']'] + tail);
    CutAt(address, ']', tail);
    assert netloc[|front|] == '[' && netloc[|front| + 1 + |address|] == ']';
  }

  lemma PlainConcat(a: string, b: string)
    requires IsPlain(a) && IsAscii(a) && IsPlain(b) && IsAscii(b)
    ensures IsPlain(a + b) && IsAscii(a + b)
  {
  }

  lemma SafeIsPlain(s: string)
    requires AllSafe(s)
    ensures IsPlain(s) && IsAscii(s)
  {
  }

  lemma BracketsAreChecked(front: string, host: Host, port: string, checks: UrlChecks)
    requires Excludes(front, '[') && Excludes(front, ']') && host.Valid(checks) && AllSafe(port)
    ensures BracketsPass(front + (host.Text() + (":" + port)), checks)
  {
    SafeExcludes(port);
    match host
    case Name(name) => NameHasNoBrackets(front, name, port);
    case Literal(address) => LiteralBrackets(front, address, ":" + port);
  }

  lemma NameHasNoBrackets(front: string, name: string, port: string)
    requires Excludes(front, '[') && Excludes(front, ']') && Excludes(port, '[') && Excludes(port, ']')
    requires forall i :: 0 <= i < |name| ==> IsHostChar(name[i])
    ensures '[' !in front + (name + (":" + port)) && ']' !in front + (name + (":" + port))
  {
  }

  /** Text of safe characters, colons and an at sign. */
  predicate IsInfoText(s: string) {
    forall i :: 0 <= i < |s| ==> IsSafe(s[i]) || s[i] == ':' || s[i] == '@'
  }

  lemma InfoIsPlain(s: string)
    requires IsInfoText(s)
    ensures IsPlain(s) && IsAscii(s) && Excludes(s, '[') && Excludes(s, ']')
  {
  }

  lemma FrontIsInfoText(c: Credentials, sid: string)
    requires IsPrintable(c) && AllDigits(sid, 10)
    ensures IsInfoText(Front(PrintInfo(c, sid)))
  {
    DigitsAreSafe(sid);
    if !c.Nobody? {
      JoinSafe(c.user, sid);
    }
    if c.UserAndPassword? {
      JoinSafe(c.password, sid);
    }
  }

  /** The authority of a printed URL passes urlsplit's own checks. */
  lemma PrintedAuthority(c: Credentials, host: Host, port: string, sid: string, checks: UrlChecks)
    requires IsPrintable(c) && AllDigits(sid, 10) && host.Valid(checks) && AllSafe(port)
    ensures var netloc := Authority(PrintInfo(c, sid), host.Text(), Some(port));
            IsPlain(netloc) && IsAscii(netloc) && BracketsPass(netloc, checks)
  {
    var front := Front(PrintInfo(c, sid));
    FrontIsInfoText(c, sid);
    InfoIsPlain(front);
    SafeIsPlain(port);
    HostTextExcludes(host, checks);
    PlainConcat(":", port);
    PlainConcat(host.Text(), ":" + port);
    PlainConcat(front, host.Text() + (":" + port));
    BracketsAreChecked(front, host, port, checks);
  }

  lemma ServerText(scheme: string, host: Host, port: string)
    ensures Lower(scheme) + "://" + (if host.Literal? then "[" + Lower(BareHost(host)) + "]" else Lower(BareHost(host))) + ":" + port
            == Lower(scheme + "://" + host.Text()) + ":" + port
  {
    LowerOfHost(host);
    LowerConcat(scheme, "://");
    LowerConcat(scheme + "://", host.Text());
    assert Lower("://") == "://";
  }

  function Decoded(text: string, checks: UrlChecks): string {
    Unquote(text, checks.utf8)
  }

  lemma OptionsReadBack(scheme: string, info: Option<string>, host: Host, port: nat, checks: UrlChecks)
    requires IsProxyScheme(scheme) && host.Valid(checks) && port <= 65535
    ensures var cut := if info.Some? then Cut(info.value, ':') else Pieces("", false, "");
            OptionsOf(Url(scheme, Authority(info, host.Text(), Some(Repr(port, 10))), "", "", ""), checks)
            == Some(ProxyOptions(
                      scheme + "://" + (if host.Literal? then "[" + Lower(BareHost(host)) + "]" else Lower(BareHost(host))) + ":" + Repr(port, 10),
                      if cut.before != "" then Some(Decoded(cut.before, checks)) else None,
                      if cut.found then Some(Decoded(cut.after, checks)) else None))
  {
    PortReadsBack(port);
    AuthorityReadsBack(info, host, Repr(port, 10), checks);
    BareHostShape(host, checks);
  }

  /** Cutting printed userinfo and decoding its parts gives back what it was printed from. */
  lemma InfoReadsBack(c: Credentials, raw: Credentials, sid: string, checks: UrlChecks)
    requires WritesCredentials(c, raw) && AllDigits(sid, 10)
    ensures var info := PrintInfo(c, sid);
            var cut := if info.Some? then Cut(info.value, ':') else Pieces("", false, "");
            && UserName(raw, sid) == (if cut.before != "" then Some(Decoded(cut.before, checks)) else None)
            && Password(raw, sid) == (if cut.found then Some(Decoded(cut.after, checks)) else None)
  {
    if !c.Nobody? {
      CredentialDecodes(c.user, raw.user, sid, checks.utf8);
      EmptyCredential(c.user, raw.user, sid);
      SafeExcludes(Join(c.user, sid));
    }
    match c
    case Nobody =>
    case User(user) => CutAbsent(Join(user, sid), ':');
    case UserAndPassword(user, password) =>
      CredentialDecodes(password, raw.password, sid, checks.utf8);
      CutAt(Join(user, sid), ':', Join(password, sid));
  }

  /**
    Printing any allowed scheme, any credentials with the placeholder anywhere in them, host and
    port, in whatever case, and parsing the result for a session id, gives back the raw
    credentials with the id in place, as far as there are any, and the bare server in lower case.
  */
  lemma ProxyRoundTrip(scheme: string, c: Credentials, raw: Credentials, host: Host, port: nat, sid: string, checks: UrlChecks)
    requires Lower(scheme) in {"http", "https", "socks5"} && host.Valid(checks) && port <= 65535 && AllDigits(sid, 10)
    requires WritesCredentials(c, raw)
    ensures BuildProxyOptions(PrintProxy(scheme, c, host, port, "<sid>"), sid, checks)
            == Some(ProxyOptions(Lower(scheme + "://" + host.Text()) + ":" + Repr(port, 10), UserName(raw, sid), Password(raw, sid)))
  {
    SubstitutePrinted(scheme, c, host, port, sid, checks);
    SchemesArePlain(scheme);
    PortReadsBack(port);
    DigitsAreSafe(Repr(port, 10));
    PrintedAuthority(c, host, Repr(port, 10), sid, checks);
    SplitPlainUrl(scheme, Authority(PrintInfo(c, sid), host.Text(), Some(Repr(port, 10))), checks);
    OptionsReadBack(Lower(scheme), PrintInfo(c, sid), host, port, checks);
    InfoReadsBack(c, raw, sid, checks);
    ServerText(scheme, host, Repr(port, 10));
  }
}
