/** `urllib.parse.urlsplit`, its accessors and `urlunsplit`, as far as the worker relies on them. */
module UrlParts {
  import opened Options
  import opened Numerals
  import opened Text
  import opened Percent

  // ----- String cutting ----------------------------------------------------

  /** `s.partition(c)`: what is before the first c, whether there is one, and what is after it. */
  datatype Pieces = Pieces(before: string, found: bool, after: string)

  function Cut(s: string, c: char): (p: Pieces)
    ensures Excludes(p.before, c)
  {
    if s == "" then Pieces("", false, "")
    else if s[0] == c then Pieces("", true, s[1..])
    else
      var p := Cut(s[1..], c);
      Pieces([s[0]] + p.before, p.found, p.after)
  }

  /** `s.rpartition(c)`. */
  function LastCut(s: string, c: char): (p: Pieces)
    ensures Excludes(p.after, c)
  {
    if s == "" then Pieces("", false, "")
    else if s[|s| - 1] == c then Pieces(s[..|s| - 1], true, "")
    else
      var p := LastCut(s[..|s| - 1], c);
      Pieces(p.before, p.found, p.after + [s[|s| - 1]])
  }

  lemma {:induction false} CutAt(a: string, c: char, b: string)
    requires Excludes(a, c)
    ensures Cut(a + [c] + b, c) == Pieces(a, true, b)
  {
    if a == "" {
      assert ([] + [c] + b)[1..] == b;
    } else {
      CutAt(a[1..], c, b);
      assert (a + [c] + b)[1..] == a[1..] + [c] + b;
      assert a == [a[0]] + a[1..];
    }
  }

  lemma {:induction false} CutAbsent(s: string, c: char)
    requires Excludes(s, c)
    ensures Cut(s, c) == Pieces(s, false, "")
  {
    if s != "" {
      CutAbsent(s[1..], c);
      assert s == [s[0]] + s[1..];
    }
  }

  lemma {:induction false} LastCutAt(a: string, c: char, b: string)
    requires Excludes(b, c)
    ensures LastCut(a + [c] + b, c) == Pieces(a, true, b)
  {
    var s := a + [c] + b;
    if b == "" {
      assert s[..|s| - 1] == a;
    } else {
      LastCutAt(a, c, b[..|b| - 1]);
      assert s[..|s| - 1] == a + [c] + b[..|b| - 1];
      assert b == b[..|b| - 1] + [b[|b| - 1]];
    }
  }

  lemma {:induction false} LastCutAbsent(s: string, c: char)
    requires Excludes(s, c)
    ensures LastCut(s, c) == Pieces("", false, s)
  {
    if s != "" {
      LastCutAbsent(s[..|s| - 1], c);
      assert s == s[..|s| - 1] + [s[|s| - 1]];
    }
  }

  // ----- urlsplit ----------------------------------------------------------

  /** The checks of `urlsplit` left to the library: bracketed hosts, and non-ASCII authorities. */
  datatype UrlChecks = UrlChecks(bracketedHost: string -> bool, authority: string -> bool, utf8: Utf8)

  datatype Url = Url(scheme: string, netloc: string, path: string, query: string, fragment: string)

  function LeftStrip(s: string): string {
    if s != "" && s[0] <= ' ' then LeftStrip(s[1..]) else s
  }

  predicate IsUnsafe(c: char) {
    c == '\t' || c == '\r' || c == '\n'
  }

  function WithoutUnsafe(s: string): string {
    if s == "" then ""
    else (if IsUnsafe(s[0]) then "" else [s[0]]) + WithoutUnsafe(s[1..])
  }

  predicate IsLetter(c: char) {
    'a' <= c <= 'z' || 'A' <= c <= 'Z'
  }

  predicate IsSchemeChar(c: char) {
    IsLetter(c) || '0' <= c <= '9' || c == '+' || c == '-' || c == '.'
  }

  predicate IsScheme(s: string) {
    s != "" && IsLetter(s[0]) && forall i :: 0 <= i < |s| ==> IsSchemeChar(s[i])
  }

  predicate EndsAuthority(c: char) {
    c == '/' || c == '?' || c == '#'
  }

  function AuthorityLength(s: string): (n: nat)
    ensures n <= |s|
  {
    if s == "" || EndsAuthority(s[0]) then 0 else 1 + AuthorityLength(s[1..])
  }

  /** Brackets come in pairs, around a host the library accepts. */
  predicate BracketsPass(netloc: string, checks: UrlChecks) {
    && ('[' in netloc) == (']' in netloc)
    && ('[' in netloc ==> checks.bracketedHost(Cut(Cut(netloc, '[').after, ']').before))
  }

  /** `urlsplit(url)`; None for its ValueErrors. */
  function UrlSplit(url: string, checks: UrlChecks): Option<Url> {
    var u := WithoutUnsafe(LeftStrip(url));
    var head := Cut(u, ':');
    var scheme := if head.found && IsScheme(head.before) then Lower(head.before) else "";
    var rest := if head.found && IsScheme(head.before) then head.after else u;
    if |rest| >= 2 && rest[..2] == "//" then
      var n := AuthorityLength(rest[2..]);
      var netloc := rest[2..][..n];
      if !BracketsPass(netloc, checks) || (!IsAscii(netloc) && !checks.authority(netloc)) then None
      else Some(AfterAuthority(scheme, netloc, rest[2..][n..]))
    else Some(AfterAuthority(scheme, "", rest))
  }

  function AfterAuthority(scheme: string, netloc: string, tail: string): Url {
    var hash := Cut(tail, '#');
    var question := Cut(hash.before, '?');
    Url(scheme, netloc, question.before, question.after, hash.after)
  }

  function HostInfo(netloc: string): string {
    LastCut(netloc, '@').after
  }

  /** The raw host and port of `_hostinfo`. */
  function HostAndPort(hostinfo: string): (string, string) {
    var bracket := Cut(hostinfo, '[');
    if bracket.found then
      var inside := Cut(bracket.after, ']');
      (inside.before, Cut(inside.after, ':').after)
    else
      var colon := Cut(hostinfo, ':');
      (colon.before, colon.after)
  }

  /** `.hostname`: lower-cased up to a zone id. */
  function Hostname(netloc: string): string {
    var host := HostAndPort(HostInfo(netloc)).0;
    var zone := Cut(host, '%');
    Lower(zone.before) + if zone.found then "%" + zone.after else ""
  }

  /** `.port`: missing, a ValueError, or a number. */
  datatype Port = NoPort | BadPort | PortNumber(n: nat)

  function PortOf(netloc: string): Port {
    var port := HostAndPort(HostInfo(netloc)).1;
    if port == "" then NoPort
    else if AllDigits(port, 10) && |port| <= 4300 && Value(port, 10) <= 65535 then PortNumber(Value(port, 10))
    else BadPort
  }

  function UserInfo(netloc: string): Option<Pieces> {
    var at := LastCut(netloc, '@');
    if at.found then Some(Cut(at.before, ':')) else None
  }

  /** Brackets that come alone are refused, and so is a bracketed host that the library does not know. */
  lemma BracketsExactly(front: string, address: string, tail: string, checks: UrlChecks)
    requires Excludes(front, '[') && Excludes(address, ']')
    ensures BracketsPass(front + ['['] + (address + [']'] + tail), checks) == checks.bracketedHost(address)
    ensures BracketsPass(front, checks) <==> Excludes(front, ']')
    ensures !BracketsPass(address + ['['] + address, checks)
  {
    CutAt(front, '[', address + [']'] + tail);
    CutAt(address, ']', tail);
    var netloc := front + ['['] + (address + [']'] + tail);
    assert netloc[|front|] == '[' && netloc[|front| + 1 + |address|] == ']';
    assert (address + ['['] + address)[|address|] == '[';
  }

  // What the accessors read.

  /** An authority: what comes before its "@", if it has one, then the host, and what comes after its ":", if it has one. */
  function Authority(userinfo: Option<string>, host: string, port: Option<string>): string {
    (if userinfo.Some? then userinfo.value + "@" else "") + (host + if port.Some? then ":" + port.value else "")
  }

  lemma HostInfoIsRead(userinfo: Option<string>, hostinfo: string)
    requires Excludes(hostinfo, '@')
    ensures var netloc := (if userinfo.Some? then userinfo.value + "@" else "") + hostinfo;
            && HostInfo(netloc) == hostinfo
            && UserInfo(netloc) == if userinfo.Some? then Some(Cut(userinfo.value, ':')) else None
  {
    if userinfo.Some? {
      LastCutAt(userinfo.value, '@', hostinfo);
      assert userinfo.value + "@" + hostinfo == userinfo.value + ['@'] + hostinfo;
    } else {
      LastCutAbsent(hostinfo, '@');
      assert "" + hostinfo == hostinfo;
    }
  }

  lemma NameIsRead(name: string, port: Option<string>)
    requires Excludes(name, '[') && Excludes(name, ':') && (port.Some? ==> Excludes(port.value, '['))
    ensures HostAndPort(name + if port.Some? then ":" + port.value else "") == (name, if port.Some? then port.value else "")
  {
    var hostinfo := name + if port.Some? then ":" + port.value else "";
    CutAbsent(hostinfo, '[');
    if port.Some? {
      assert hostinfo == name + [':'] + port.value;
      CutAt(name, ':', port.value);
    } else {
      assert hostinfo == name;
      CutAbsent(name, ':');
    }
  }

  lemma LiteralIsRead(address: string, port: Option<string>)
    requires Excludes(address, ']')
    ensures HostAndPort("[" + address + "]" + if port.Some? then ":" + port.value else "") == (address, if port.Some? then port.value else "")
  {
    var more := if port.Some? then ":" + port.value else "";
    CutAt("", '[', address + "]" + more);
    assert "[" + address + "]" + more == "" + ['['] + (address + "]" + more);
    CutAt(address, ']', more);
    assert address + "]" + more == address + [']'] + more;
    if port.Some? {
      CutAt("", ':', port.value);
      assert more == "" + [':'] + port.value;
    } else {
      CutAbsent(more, ':');
    }
  }

  /** A host as it stands in an authority, and without the brackets it may stand in. */
  predicate IsHostText(host: string, bare: string) {
    || (host == bare && Excludes(bare, '[') && Excludes(bare, ':') && Excludes(bare, '@'))
    || (host == "[" + bare + "]" && Excludes(bare, ']') && Excludes(bare, '@'))
  }

  /** A host, and the zone it may have. */
  function WithZone(name: string, zone: Option<string>): string {
    name + if zone.Some? then "%" + zone.value else ""
  }

  lemma ZoneIsCut(name: string, zone: Option<string>)
    requires Excludes(name, '%')
    ensures Cut(WithZone(name, zone), '%') == Pieces(name, zone.Some?, if zone.Some? then zone.value else "")
  {
    if zone.Some? {
      CutAt(name, '%', zone.value);
      assert WithZone(name, zone) == name + ['%'] + zone.value;
    } else {
      assert WithZone(name, zone) == name;
      CutAbsent(name, '%');
    }
  }

  /**
    Of any authority, whatever its userinfo, the accessors read the host without brackets and in
    lower case, its zone left alone, the port if it is a number of at most 65535, and the userinfo
    cut at its first colon.
  */
  lemma AuthorityIsRead(userinfo: Option<string>, host: string, name: string, zone: Option<string>, port: Option<string>)
    requires IsHostText(host, WithZone(name, zone)) && Excludes(name, '%')
    requires port.Some? ==> Excludes(port.value, '[') && Excludes(port.value, '@')
    ensures var netloc := Authority(userinfo, host, port);
            && UserInfo(netloc) == (if userinfo.Some? then Some(Cut(userinfo.value, ':')) else None)
            && Hostname(netloc) == WithZone(Lower(name), zone)
            && PortOf(netloc) == if port.Some? then PortText(port.value) else NoPort
  {
    var hostinfo := host + if port.Some? then ":" + port.value else "";
    var bare := WithZone(name, zone);
    HostInfoIsRead(userinfo, hostinfo);
    if host == bare && Excludes(bare, '[') && Excludes(bare, ':') && Excludes(bare, '@') {
      NameIsRead(bare, port);
    } else {
      LiteralIsRead(bare, port);
    }
    ZoneIsCut(name, zone);
  }

  /** What a port's text means: nothing, a number if it is one in range, or an error. */
  function PortText(text: string): Port {
    if text == "" then NoPort
    else if AllDigits(text, 10) && |text| <= 4300 && Value(text, 10) < 0x1_0000 then PortNumber(Value(text, 10))
    else BadPort
  }

  lemma {:induction false} CutKeepsExcluded(s: string, c: char, d: char)
    requires Excludes(s, d)
    ensures Excludes(Cut(s, c).before, d) && Excludes(Cut(s, c).after, d)
  {
    if s != "" && s[0] != c {
      CutKeepsExcluded(s[1..], c, d);
    }
  }

  predicate IsPlain(s: string) {
    forall i :: 0 <= i < |s| ==> s[i] != '/' && s[i] != '?' && s[i] != '#' && !IsUnsafe(s[i])
  }

  lemma {:induction false} NothingUnsafe(s: string)
    requires forall i :: 0 <= i < |s| ==> !IsUnsafe(s[i])
    ensures WithoutUnsafe(s) == s
  {
    if s != "" {
      NothingUnsafe(s[1..]);
      assert s == [s[0]] + s[1..];
    }
  }

  // ----- urlunsplit --------------------------------------------------------

  lemma {:induction false} CutJoins(s: string, c: char)
    ensures var p := Cut(s, c); s == p.before + if p.found then [c] + p.after else p.after
    ensures !Cut(s, c).found ==> Cut(s, c).after == ""
  {
    if s != "" && s[0] != c {
      CutJoins(s[1..], c);
      assert s == [s[0]] + s[1..];
    }
  }

  lemma {:induction false} AuthorityIsPrefix(s: string)
    ensures var n := AuthorityLength(s);
            && (forall i :: 0 <= i < n ==> !EndsAuthority(s[i]))
            && (n < |s| ==> EndsAuthority(s[n]))
  {
    if s != "" && !EndsAuthority(s[0]) {
      AuthorityIsPrefix(s[1..]);
      assert forall i :: 1 <= i < AuthorityLength(s) ==> s[i] == s[1..][i - 1];
    }
  }

  lemma {:induction false} AuthorityEnds(netloc: string, tail: string)
    requires IsPlain(netloc) && (tail == "" || EndsAuthority(tail[0]))
    ensures AuthorityLength(netloc + tail) == |netloc|
  {
    if netloc == "" {
      assert netloc + tail == tail;
    } else {
      AuthorityEnds(netloc[1..], tail);
      assert (netloc + tail)[1..] == netloc[1..] + tail;
    }
  }

  predicate NothingUnsafeIn(s: string) {
    forall i :: 0 <= i < |s| ==> !IsUnsafe(s[i])
  }

  lemma {:induction false} UnsafeIsGone(s: string)
    ensures NothingUnsafeIn(WithoutUnsafe(s)) && |WithoutUnsafe(s)| <= |s|
  {
    if s != "" {
      UnsafeIsGone(s[1..]);
    }
  }

  /** A tail of a URL as `urlsplit` leaves it: empty, or starting where the authority ended. */
  predicate IsTail(t: string) {
    NothingUnsafeIn(t) && (t == "" || t[0] == '/' || t[0] == '?' || t[0] == '#')
  }

  /** What `urlunsplit` puts after the authority. */
  function Tail(parts: Url): string {
    parts.path
    + (if parts.query != "" then "?" + parts.query else "")
    + if parts.fragment != "" then "#" + parts.fragment else ""
  }

  /** Parts that `urlsplit` can have produced behind an authority. */
  predicate IsSplit(parts: Url, checks: UrlChecks) {
    && IsPlain(parts.netloc) && BracketsPass(parts.netloc, checks) && (IsAscii(parts.netloc) || checks.authority(parts.netloc))
    && Excludes(parts.path, '#') && Excludes(parts.path, '?') && NothingUnsafeIn(parts.path)
    && (parts.path == "" || parts.path[0] == '/')
    && Excludes(parts.query, '#') && NothingUnsafeIn(parts.query) && NothingUnsafeIn(parts.fragment)
  }

  lemma CutFirst(s: string, c: char)
    requires Cut(s, c).before != ""
    ensures s != "" && s[0] == Cut(s, c).before[0]
  {
    CutJoins(s, c);
  }

  lemma CutIsClean(s: string, c: char)
    requires NothingUnsafeIn(s)
    ensures NothingUnsafeIn(Cut(s, c).before) && NothingUnsafeIn(Cut(s, c).after)
  {
    CutJoins(s, c);
    var p := Cut(s, c);
    forall i | 0 <= i < |p.before| ensures !IsUnsafe(p.before[i]) {
      assert p.before[i] == s[i];
    }
    forall i | 0 <= i < |p.after| ensures !IsUnsafe(p.after[i]) {
      assert p.after[i] == s[|s| - |p.after| + i];
    }
  }

  lemma TailIsSplit(scheme: string, netloc: string, t: string, checks: UrlChecks)
    requires IsPlain(netloc) && BracketsPass(netloc, checks) && (IsAscii(netloc) || checks.authority(netloc))
    requires IsTail(t)
    ensures IsSplit(AfterAuthority(scheme, netloc, t), checks)
    ensures t != "" && t[0] == '/' ==> AfterAuthority(scheme, netloc, t).path != ""
  {
    var hash := Cut(t, '#');
    CutIsClean(t, '#');
    CutIsClean(hash.before, '?');
    CutKeepsExcluded(hash.before, '?', '#');
    if Cut(hash.before, '?').before != "" {
      CutFirst(hash.before, '?');
      CutFirst(t, '#');
      assert IsSplit(AfterAuthority(scheme, netloc, t), checks);
    }
  }

  lemma TailShrinks(scheme: string, netloc: string, t: string)
    ensures |Tail(AfterAuthority(scheme, netloc, t))| <= |t|
  {
    CutJoins(t, '#');
    CutJoins(Cut(t, '#').before, '?');
  }

  lemma OptionalPart(a: string, c: char, b: string)
    requires Excludes(a, c)
    ensures Cut(a + (if b != "" then [c] + b else ""), c).before == a
    ensures Cut(a + (if b != "" then [c] + b else ""), c).after == b
  {
    if b == "" {
      assert a + "" == a;
      CutAbsent(a, c);
    } else {
      assert a + ([c] + b) == a + [c] + b;
      CutAt(a, c, b);
    }
  }

  function PathAndQuery(parts: Url): string {
    parts.path + if parts.query != "" then ['?'] + parts.query else ""
  }

  lemma TailInTwo(parts: Url)
    ensures Tail(parts) == PathAndQuery(parts) + if parts.fragment != "" then ['#'] + parts.fragment else ""
  {
  }

  lemma NoFragmentBefore(parts: Url)
    requires Excludes(parts.path, '#') && Excludes(parts.query, '#')
    ensures Excludes(PathAndQuery(parts), '#')
  {
  }

  lemma TailIsTail(parts: Url, checks: UrlChecks)
    requires IsSplit(parts, checks) && parts.path != ""
    ensures IsTail(Tail(parts)) && Tail(parts)[0] == '/'
  {
  }

  /** Joining split parts and splitting what was joined gives the parts back. */
  lemma TailReadsBack(parts: Url, checks: UrlChecks)
    requires IsSplit(parts, checks) && parts.path != ""
    ensures IsTail(Tail(parts))
    ensures AfterAuthority(parts.scheme, parts.netloc, Tail(parts)) == parts
  {
    TailIsTail(parts, checks);
    NoFragmentBefore(parts);
    TailInTwo(parts);
    OptionalPart(PathAndQuery(parts), '#', parts.fragment);
    OptionalPart(parts.path, '?', parts.query);
  }

  /** Splitting puts the cuts exactly where the scheme and the authority end, and fails exactly on an authority that its checks refuse. */
  lemma SplitsAt(scheme: string, netloc: string, t: string, checks: UrlChecks)
    requires IsScheme(scheme) && IsPlain(netloc) && IsTail(t)
    ensures UrlSplit(scheme + ":" + ("//" + (netloc + t)), checks)
            == if BracketsPass(netloc, checks) && (IsAscii(netloc) || checks.authority(netloc)) then Some(AfterAuthority(Lower(scheme), netloc, t))
               else None
  {
    var rest := "//" + (netloc + t);
    var url := scheme + ":" + rest;
    CleanUrl(scheme, netloc, t);
    NothingUnsafe(url);
    assert Excludes(scheme, ':') by {
      assert forall i :: 0 <= i < |scheme| ==> IsSchemeChar(scheme[i]);
    }
    CutAt(scheme, ':', rest);
    assert rest[..2] == "//" && rest[2..] == netloc + t;
    AuthorityEnds(netloc, t);
    assert (netloc + t)[..|netloc|] == netloc && (netloc + t)[|netloc|..] == t;
  }

  lemma UnsafeBetween(a: string, c: char, b: string)
    requires c in "\t\r\n"
    ensures WithoutUnsafe(a + [c] + b) == WithoutUnsafe(a + b)
  {
    if a == "" {
      assert [] + [c] + b == [c] + b && ([c] + b)[1..] == b && a + b == b;
    } else {
      UnsafeBetween(a[1..], c, b);
      assert (a + [c] + b)[1..] == a[1..] + [c] + b && (a + b)[1..] == a[1..] + b;
    }
  }

  /** What is left of a text once the splitter has cleaned it. */
  function Cleaned(url: string): string {
    WithoutUnsafe(LeftStrip(url))
  }

  lemma {:induction false} CleanedAlike(a: string, c: char, b: string)
    requires c in "\t\r\n"
    ensures Cleaned(a + [c] + b) == Cleaned(a + b)
  {
    if a == "" {
      assert [] + [c] + b == [c] + b && ([c] + b)[1..] == b && a + b == b;
    } else if a[0] <= ' ' {
      CleanedAlike(a[1..], c, b);
      assert (a + [c] + b)[1..] == a[1..] + [c] + b && (a + b)[1..] == a[1..] + b;
    } else {
      UnsafeBetween(a, c, b);
    }
  }

  /** Tabs and line ends anywhere in a URL, and spaces and control characters before it, make no difference. */
  lemma SplitIgnores(a: string, c: char, b: string, checks: UrlChecks)
    ensures c in "\t\r\n" ==> UrlSplit(a + [c] + b, checks) == UrlSplit(a + b, checks)
    ensures c as int <= 32 ==> UrlSplit([c] + b, checks) == UrlSplit(b, checks)
  {
    if c in "\t\r\n" {
      CleanedAlike(a, c, b);
      SplitsCleaned(a + [c] + b, a + b, checks);
    }
    if c as int <= 32 {
      assert ([c] + b)[1..] == b;
      SplitsCleaned([c] + b, b, checks);
    }
  }

  lemma SplitsCleaned(url: string, other: string, checks: UrlChecks)
    requires Cleaned(url) == Cleaned(other)
    ensures UrlSplit(url, checks) == UrlSplit(other, checks)
  {
  }

  lemma CleanUrl(scheme: string, netloc: string, t: string)
    requires IsScheme(scheme) && IsPlain(netloc) && IsTail(t)
    ensures var url := scheme + ":" + ("//" + (netloc + t)); LeftStrip(url) == url && NothingUnsafeIn(url)
  {
    var url := scheme + ":" + ("//" + (netloc + t));
    assert IsSchemeChar(scheme[0]) && url[0] == scheme[0];
    forall i | 0 <= i < |url| ensures !IsUnsafe(url[i]) {
      if i < |scheme| {
        assert IsSchemeChar(scheme[i]);
      } else if |scheme| + 3 <= i < |scheme| + 3 + |netloc| {
        assert url[i] == netloc[i - |scheme| - 3];
      } else if |scheme| + 3 + |netloc| <= i {
        assert url[i] == t[i - |scheme| - 3 - |netloc|];
      }
    }
  }

  /** Whatever `urlsplit` returns with an authority is such a split. */
  lemma SplitIsSplit(url: string, checks: UrlChecks)
    requires UrlSplit(url, checks).Some? && UrlSplit(url, checks).value.netloc != ""
    ensures IsSplit(UrlSplit(url, checks).value, checks)
  {
    var u := WithoutUnsafe(LeftStrip(url));
    UnsafeIsGone(LeftStrip(url));
    var head := Cut(u, ':');
    CutIsClean(u, ':');
    var scheme := if head.found && IsScheme(head.before) then Lower(head.before) else "";
    var rest := if head.found && IsScheme(head.before) then head.after else u;
    var text := rest[2..];
    AuthorityIsPrefix(text);
    var n := AuthorityLength(text);
    assert NothingUnsafeIn(text) by {
      assert forall i :: 0 <= i < |text| ==> text[i] == rest[i + 2];
    }
    assert IsPlain(text[..n]);
    assert IsTail(text[n..]);
    TailIsSplit(scheme, text[..n], text[n..], checks);
  }
}
