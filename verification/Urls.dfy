/**
  `check_url`: what a job may fetch. The private-host guard of `Hosts` judges the host of the
  URL as it was split; the URL handed to the browser is put together again from the same parts.
*/
module Urls {
  import opened Options
  import opened Text
  import opened Percent
  import opened FetchSpec
  import opened Ipv4
  import opened Hosts
  import opened UrlParts

  const FORBIDDEN_PREFIXES: seq<string> := ["file:", "chrome:", "chrome-extension:", "about:"]

  datatype Refusal =
    | EmptyUrl
    | ForbiddenProtocol(prefix: string)
    | MalformedUrl              // urlsplit or the port raised ValueError
    | OtherScheme(scheme: string)
    | NoHostname
    | PrivateAddress

  datatype UrlCheck = Checked(url: string) | Refused(why: Refusal) | CheckRaises

  /** `_SCHEME_RE` matches. */
  predicate HasScheme(s: string) {
    var head := Cut(s, ':');
    head.found && IsScheme(head.before) && "//" <= head.after
  }

  function WithScheme(text: string): string {
    if HasScheme(text) then text else "https://" + text
  }

  function FirstPrefix(lowered: string, prefixes: seq<string>): Option<string> {
    if prefixes == [] then None
    else if prefixes[0] <= lowered then Some(prefixes[0])
    else FirstPrefix(lowered, prefixes[1..])
  }

  predicate IsWeb(scheme: string) {
    scheme == "http" || scheme == "https"
  }

  /** `urlunsplit` of the parts of a web URL, with "/" for a missing path. */
  function Href(parts: Url): string {
    WebUrl(parts.scheme, parts.netloc, Tail(Rooted(parts)))
  }

  function WebUrl(scheme: string, netloc: string, tail: string): string {
    scheme + ":" + ("//" + (netloc + tail))
  }

  function Rooted(parts: Url): Url {
    if parts.path == "" then parts.(path := "/") else parts
  }

  function CheckParts(parts: Url, blockPrivate: bool, lib: Library): UrlCheck {
    var host := Hostname(parts.netloc);
    if PortOf(parts.netloc).BadPort? then Refused(MalformedUrl)
    else if !IsWeb(parts.scheme) then Refused(OtherScheme(parts.scheme))
    else if host == "" then Refused(NoHostname)
    else if blockPrivate && PrivateHost(host, lib).Raises? then CheckRaises
    else if blockPrivate && PrivateHost(host, lib).Private? then Refused(PrivateAddress)
    else Checked(Href(parts))
  }

  function CheckText(text: string, blockPrivate: bool, lib: Library, checks: UrlChecks): UrlCheck {
    match UrlSplit(WithScheme(text), checks)
    case None => Refused(MalformedUrl)
    case Some(parts) => CheckParts(parts, blockPrivate, lib)
  }

  function CheckUrl(value: Json, blockPrivate: bool, lib: Library, checks: UrlChecks): UrlCheck {
    if !value.Str? || IsBlank(value.s) then Refused(EmptyUrl)
    else
      var text := Strip(value.s);
      match FirstPrefix(Lower(text), FORBIDDEN_PREFIXES)
      case Some(prefix) => Refused(ForbiddenProtocol(prefix))
      case None => CheckText(text, blockPrivate, lib, checks)
  }

  // ----- The fetched URL is the judged one -----------------------------------

  lemma HostnameNeedsAuthority()
    ensures Hostname("") == ""
  {
  }

  lemma WebSchemes(scheme: string)
    requires IsWeb(scheme)
    ensures IsScheme(scheme) && Lower(scheme) == scheme
  {
    if scheme == "http" {
      assert Lower("http") == "http";
    } else {
      assert Lower("https") == "https";
    }
  }

  /** Parts that passed. */
  ghost predicate Passes(parts: Url, blockPrivate: bool, lib: Library, checks: UrlChecks) {
    && IsSplit(parts, checks) && IsWeb(parts.scheme)
    && Hostname(parts.netloc) != "" && !PortOf(parts.netloc).BadPort?
    && (blockPrivate ==> PrivateHost(Hostname(parts.netloc), lib) == Public)
  }

  lemma CheckedPartsPass(url: string, blockPrivate: bool, lib: Library, checks: UrlChecks)
    requires UrlSplit(url, checks).Some? && CheckParts(UrlSplit(url, checks).value, blockPrivate, lib).Checked?
    ensures Passes(UrlSplit(url, checks).value, blockPrivate, lib, checks)
  {
    HostnameNeedsAuthority();
    SplitIsSplit(url, checks);
  }

  lemma RootedPasses(parts: Url, blockPrivate: bool, lib: Library, checks: UrlChecks)
    requires Passes(parts, blockPrivate, lib, checks)
    ensures Passes(Rooted(parts), blockPrivate, lib, checks) && Rooted(parts).path != ""
    ensures Href(Rooted(parts)) == Href(parts)
  {
  }

  /** The parts a checked URL is assembled from. */
  lemma CheckedParts(value: Json, blockPrivate: bool, lib: Library, checks: UrlChecks) returns (parts: Url)
    requires CheckUrl(value, blockPrivate, lib, checks).Checked?
    ensures Passes(parts, blockPrivate, lib, checks) && parts.path != ""
    ensures CheckUrl(value, blockPrivate, lib, checks).url == Href(parts)
  {
    var url := WithScheme(Strip(value.s));
    CheckedPartsPass(url, blockPrivate, lib, checks);
    parts := Rooted(UrlSplit(url, checks).value);
    RootedPasses(UrlSplit(url, checks).value, blockPrivate, lib, checks);
  }

  /** Splitting the assembled URL gives the parts it was assembled from. */
  lemma HrefReadsBack(parts: Url, checks: UrlChecks)
    requires IsSplit(parts, checks) && IsWeb(parts.scheme)
    ensures UrlSplit(Href(parts), checks) == Some(parts.(path := if parts.path == "" then "/" else parts.path))
  {
    WebSchemes(parts.scheme);
    TailReadsBack(Rooted(parts), checks);
    SplitsAt(parts.scheme, parts.netloc, Tail(Rooted(parts)), checks);
  }

  /**
    The URL handed on for a job splits into a web scheme, a usable port and a host that is not
    empty and, if private hosts are blocked, is one the guard judged public.
  */
  lemma FetchedHostWasJudged(value: Json, blockPrivate: bool, lib: Library, checks: UrlChecks)
    requires CheckUrl(value, blockPrivate, lib, checks).Checked?
    ensures var parts := UrlSplit(CheckUrl(value, blockPrivate, lib, checks).url, checks);
            && parts.Some? && parts.value.scheme in {"http", "https"} && parts.value.path != ""
            && Hostname(parts.value.netloc) != "" && !PortOf(parts.value.netloc).BadPort?
            && (blockPrivate ==> PrivateHost(Hostname(parts.value.netloc), lib) == Public)
  {
    var parts := CheckedParts(value, blockPrivate, lib, checks);
    HrefReadsBack(parts, checks);
  }

  /** No URL whose host spells a private IPv4 address, in whatever radices, parts, dots and percent-encoding, is handed on. */
  lemma {:induction false} NoPrivateSpellingPasses(value: Json, lib: Library, checks: UrlChecks, host: string, layers: nat, v: nat)
    requires CheckUrl(value, true, lib, checks).Checked?
    requires UrlSplit(CheckUrl(value, true, lib, checks).url, checks).Some?
    requires var parts := UrlSplit(CheckUrl(value, true, lib, checks).url, checks).value;
             IsWrapped(Hostname(parts.netloc), host, layers) && layers <= 3 && HostDenotes(host, v)
    ensures !IsPrivateIpv4(v)
  {
    FetchedHostWasJudged(value, true, lib, checks);
    var parts := UrlSplit(CheckUrl(value, true, lib, checks).url, checks).value;
    WrappedSpellingVerdict(Hostname(parts.netloc), host, layers, v, lib);
  }

  // ----- Which check ends how --------------------------------------------------

  /** The parts that the private-host guard is asked about. */
  predicate ReachesGuard(parts: Url) {
    parts.scheme in {"http", "https"} && Hostname(parts.netloc) != "" && !PortOf(parts.netloc).BadPort?
  }

  /** The value is a text that is not blank. */
  predicate IsText(value: Json) {
    value.Str? && !IsBlank(value.s)
  }

  /** The text starts with one of the four protocols that are never fetched. */
  predicate IsForbidden(text: string, prefix: string) {
    prefix in {"file:", "chrome:", "chrome-extension:", "about:"} && prefix <= Lower(text)
  }

  lemma FirstOfFour(text: string, a: string, b: string, c: string, d: string)
    ensures FirstPrefix(text, [a, b, c, d])
            == if a <= text then Some(a) else if b <= text then Some(b) else if c <= text then Some(c) else if d <= text then Some(d) else None
  {
    FirstPrefixStep(text, a, [b, c, d]);
    FirstPrefixStep(text, b, [c, d]);
    FirstPrefixStep(text, c, [d]);
    FirstPrefixStep(text, d, []);
    assert [a] + [b, c, d] == [a, b, c, d] && [b] + [c, d] == [b, c, d] && [c] + [d] == [c, d] && [d] + [] == [d];
  }

  lemma FirstPrefixStep(text: string, prefix: string, rest: seq<string>)
    ensures FirstPrefix(text, [prefix] + rest) == if prefix <= text then Some(prefix) else FirstPrefix(text, rest)
  {
    assert ([prefix] + rest)[1..] == rest;
  }

  lemma ForbiddenExactly(text: string, prefix: string)
    ensures FirstPrefix(Lower(text), FORBIDDEN_PREFIXES) == Some(prefix) <==> IsForbidden(text, prefix)
  {
    var lowered := Lower(text);
    FirstOfFour(lowered, "file:", "chrome:", "chrome-extension:", "about:");
    assert "file:"[0] == 'f' && "chrome:"[0] == 'c' && "chrome-extension:"[0] == 'c' && "about:"[0] == 'a';
    assert "chrome:"[6] == ':' && "chrome-extension:"[6] == '-';
  }

  /** A non-blank text with none of those protocols. */
  predicate IsPermitted(value: Json) {
    IsText(value) && forall prefix :: prefix in {"file:", "chrome:", "chrome-extension:", "about:"} ==> !IsForbidden(Strip(value.s), prefix)
  }

  lemma PermittedExactly(value: Json)
    ensures IsPermitted(value) <==> IsText(value) && FirstPrefix(Lower(Strip(value.s)), FORBIDDEN_PREFIXES) == None
  {
    if IsText(value) {
      var found := FirstPrefix(Lower(Strip(value.s)), FORBIDDEN_PREFIXES);
      if found.Some? {
        ForbiddenExactly(Strip(value.s), found.value);
      }
      forall prefix ensures found == Some(prefix) <==> IsForbidden(Strip(value.s), prefix) {
        ForbiddenExactly(Strip(value.s), prefix);
      }
    }
  }

  /** A letter, more letters, digits and the signs of a scheme up to n, and "://" there. */
  predicate SchemeEndsAt(s: string, n: nat) {
    && 1 <= n && n + 3 <= |s| && s[n..n + 3] == "://" && 'a' <= LowerChar(s[0]) <= 'z'
    && forall i :: 0 <= i < n ==> 'a' <= LowerChar(s[i]) <= 'z' || '0' <= s[i] <= '9' || s[i] in "+-."
  }

  lemma IsSchemeExactly(s: string)
    ensures IsScheme(s) <==>
            && s != "" && 'a' <= LowerChar(s[0]) <= 'z'
            && forall i :: 0 <= i < |s| ==> 'a' <= LowerChar(s[i]) <= 'z' || '0' <= s[i] <= '9' || s[i] in "+-."
  {
    forall i | 0 <= i < |s|
      ensures IsSchemeChar(s[i]) <==> 'a' <= LowerChar(s[i]) <= 'z' || '0' <= s[i] <= '9' || s[i] in "+-."
    {
      assert s[i] in "+-." <==> s[i] == '+' || s[i] == '-' || s[i] == '.';
    }
  }

  /** The pattern for a scheme, as the two cuts of the model find it. */
  lemma HasSchemeExactly(s: string)
    ensures HasScheme(s) <==> exists n: nat :: SchemeEndsAt(s, n)
  {
    var head := Cut(s, ':');
    CutJoins(s, ':');
    IsSchemeExactly(head.before);
    if HasScheme(s) {
      var n := |head.before|;
      assert s[n..n + 3] == [':'] + head.after[..2];
      assert forall i :: 0 <= i < n ==> s[i] == head.before[i];
      assert SchemeEndsAt(s, n);
    }
    forall n: nat | SchemeEndsAt(s, n) ensures HasScheme(s) {
      SchemeIsCut(s, n);
    }
  }

  lemma SchemeIsCut(s: string, n: nat)
    requires SchemeEndsAt(s, n)
    ensures HasScheme(s)
  {
    var before, after := s[..n], s[n + 1..];
    assert s[n] == s[n..n + 3][0] && s == before + [':'] + after;
    assert Excludes(before, ':');
    CutAt(before, ':', after);
    IsSchemeExactly(before);
    assert after[..2] == s[n..n + 3][1..] == "//";
  }

  /** What is split: the stripped text, with https where it names no scheme. */
  ghost function SplitOf(value: Json, checks: UrlChecks): Option<Url>
    requires value.Str?
  {
    var text := Strip(value.s);
    UrlSplit(if exists n: nat :: SchemeEndsAt(text, n) then text else "https://" + text, checks)
  }

  lemma SplitOfText(value: Json, checks: UrlChecks)
    requires value.Str?
    ensures SplitOf(value, checks) == UrlSplit(WithScheme(Strip(value.s)), checks)
  {
    HasSchemeExactly(Strip(value.s));
  }

  /** The parts in one text, "/" standing for a missing path. */
  function UrlText(parts: Url): string {
    parts.scheme + "://" + parts.netloc
    + (if parts.path == "" then "/" else parts.path)
    + (if parts.query == "" then "" else "?" + parts.query)
    + (if parts.fragment == "" then "" else "#" + parts.fragment)
  }

  lemma HrefIsText(parts: Url)
    ensures Href(parts) == UrlText(parts)
  {
    var path := if parts.path == "" then "/" else parts.path;
    var query := if parts.query != "" then "?" + parts.query else "";
    var fragment := if parts.fragment != "" then "#" + parts.fragment else "";
    assert Tail(Rooted(parts)) == path + query + fragment;
    InOneText(parts.scheme, parts.netloc, path, query, fragment);
  }

  lemma InOneText(scheme: string, netloc: string, path: string, query: string, fragment: string)
    ensures scheme + ":" + ("//" + (netloc + (path + query + fragment))) == scheme + "://" + netloc + path + query + fragment
  {
    assert scheme + ":" + ("//" + (netloc + (path + query + fragment))) == scheme + "://" + (netloc + (path + query + fragment));
    assert netloc + (path + query + fragment) == netloc + path + query + fragment;
  }

  /** The answer that a value's split parts call for. */
  ghost predicate PartsEnd(outcome: UrlCheck, parts: Url, blockPrivate: bool, lib: Library) {
    match outcome
    case Refused(EmptyUrl) => false
    case Refused(ForbiddenProtocol(_)) => false
    case Refused(MalformedUrl) => PortOf(parts.netloc).BadPort?
    case Refused(OtherScheme(scheme)) =>
      !PortOf(parts.netloc).BadPort? && scheme == parts.scheme && scheme !in {"http", "https"}
    case Refused(NoHostname) =>
      !PortOf(parts.netloc).BadPort? && parts.scheme in {"http", "https"} && Hostname(parts.netloc) == ""
    case Refused(PrivateAddress) => ReachesGuard(parts) && blockPrivate && PrivateHost(Hostname(parts.netloc), lib) == Private
    case Checked(url) =>
      && ReachesGuard(parts) && (blockPrivate ==> PrivateHost(Hostname(parts.netloc), lib) == Public)
      && url == UrlText(parts)
    case CheckRaises =>
      && ReachesGuard(parts) && blockPrivate
      && var host := NormalizeHost(Hostname(parts.netloc), lib);
      !IsLocalName(host) && ':' !in host && MeetsOverlong(host)
  }

  /** When a check ends with this answer. */
  ghost predicate EndsWithAnswer(outcome: UrlCheck, value: Json, blockPrivate: bool, lib: Library, checks: UrlChecks) {
    match outcome
    case Refused(EmptyUrl) => !IsText(value)
    case Refused(ForbiddenProtocol(prefix)) => IsText(value) && IsForbidden(Strip(value.s), prefix)
    case _ =>
      && IsPermitted(value)
      && if SplitOf(value, checks) == None then outcome == Refused(MalformedUrl)
         else PartsEnd(outcome, SplitOf(value, checks).value, blockPrivate, lib)
  }

  lemma PartsRefusedExactly(why: Refusal, parts: Url, blockPrivate: bool, lib: Library)
    ensures CheckParts(parts, blockPrivate, lib) == Refused(why) <==> PartsEnd(Refused(why), parts, blockPrivate, lib)
  {
  }

  lemma PartsCheckedExactly(url: string, parts: Url, blockPrivate: bool, lib: Library)
    ensures CheckParts(parts, blockPrivate, lib) == Checked(url) <==> PartsEnd(Checked(url), parts, blockPrivate, lib)
  {
    HrefIsText(parts);
  }

  lemma PartsRaiseExactly(parts: Url, blockPrivate: bool, lib: Library)
    ensures CheckParts(parts, blockPrivate, lib) == CheckRaises <==> PartsEnd(CheckRaises, parts, blockPrivate, lib)
  {
    RaisesExactly(Hostname(parts.netloc), lib);
  }

  lemma PartsEndExactly(outcome: UrlCheck, parts: Url, blockPrivate: bool, lib: Library)
    ensures CheckParts(parts, blockPrivate, lib) == outcome <==> PartsEnd(outcome, parts, blockPrivate, lib)
  {
    match outcome
    case Refused(why) => PartsRefusedExactly(why, parts, blockPrivate, lib);
    case Checked(url) => PartsCheckedExactly(url, parts, blockPrivate, lib);
    case CheckRaises => PartsRaiseExactly(parts, blockPrivate, lib);
  }

  /**
    `check_url` for every value there is: each of its answers, the URL it hands on and the
    exception it lets through included, is given exactly in the cases stated for it.
  */
  lemma ChecksExactly(value: Json, blockPrivate: bool, lib: Library, checks: UrlChecks, outcome: UrlCheck)
    ensures CheckUrl(value, blockPrivate, lib, checks) == outcome <==> EndsWithAnswer(outcome, value, blockPrivate, lib, checks)
  {
    PermittedExactly(value);
    if IsText(value) {
      SplitOfText(value, checks);
      if outcome.Refused? && outcome.why.ForbiddenProtocol? {
        ForbiddenExactly(Strip(value.s), outcome.why.prefix);
      }
      if SplitOf(value, checks).Some? {
        PartsEndExactly(outcome, SplitOf(value, checks).value, blockPrivate, lib);
      }
    }
  }

  // ----- The address screening -----------------------------------------------

  /** `_resolve` on each name: the addresses, or None where it raises. */
  type Resolver = string -> Option<seq<string>>

  /** A host that is an address, so that nothing is left to resolve. */
  predicate IsLiteral(host: string) {
    ':' in host || Ipv4Of(host).Address?
  }

  predicate AnyPrivate(addresses: seq<string>, lib: Library) {
    exists i :: 0 <= i < |addresses| && IsPrivateIp(addresses[i], lib)
  }

  /** `resolves_to_private`, on the normalised host; None where `as_ipv4` raises. */
  function ResolvesToPrivate(url: string, resolve: Resolver, lib: Library, checks: UrlChecks): Option<bool> {
    match UrlSplit(url, checks)
    case None => Some(false)
    case Some(parts) => HostResolvesToPrivate(Hostname(parts.netloc), resolve, lib)
  }

  function HostResolvesToPrivate(hostname: string, resolve: Resolver, lib: Library): Option<bool> {
    var host := NormalizeHost(hostname, lib);
    if hostname == "" || host == "" || HasColon(host) then Some(false)
    else match Ipv4Of(host)
      case Address(_) => Some(false)
      case RaisesValueError => None
      case NotIpv4 => Some(resolve(host).Some? && AnyPrivate(resolve(host).value, lib))
  }

  /** The host is a name, and no literal, that resolves, and to at least one private address. */
  ghost predicate ResolvesPrivately(host: string, resolve: Resolver, lib: Library) {
    && host != "" && !IsLiteral(host)
    && resolve(host).Some? && exists address :: address in resolve(host).value && IsPrivateIp(address, lib)
  }

  /** Nothing private is left once a host has passed both guards. */
  ghost predicate Screened(host: string, resolve: Resolver, lib: Library) {
    && !IsLocalName(host)
    && (':' in host ==> !IsPrivateIp(host, lib))
    && !SpellsPrivateIpv4(host)
    && !ResolvesPrivately(host, resolve, lib)
  }

  lemma AnyPrivateExactly(addresses: seq<string>, lib: Library)
    ensures AnyPrivate(addresses, lib) <==> exists address :: address in addresses && IsPrivateIp(address, lib)
  {
    assert forall i :: 0 <= i < |addresses| ==> addresses[i] in addresses;
  }

  /** What a name resolves to, for a host that is one. */
  lemma NameScreens(host: string, resolve: Resolver, lib: Library)
    ensures ResolvesPrivately(host, resolve, lib) <==>
            host != "" && !IsLiteral(host) && resolve(host).Some? && AnyPrivate(resolve(host).value, lib)
  {
    if resolve(host).Some? {
      AnyPrivateExactly(resolve(host).value, lib);
    }
  }

  /** A host that the first guard found public is screened by what it resolves to, and by nothing else. */
  lemma PublicIsScreened(hostname: string, resolve: Resolver, lib: Library)
    requires hostname != "" && PrivateHost(hostname, lib) == Public
    ensures var host := NormalizeHost(hostname, lib);
            && HostResolvesToPrivate(hostname, resolve, lib) == Some(ResolvesPrivately(host, resolve, lib))
            && (Screened(host, resolve, lib) <==> !ResolvesPrivately(host, resolve, lib))
  {
    PublicIsNotPrivate(hostname, lib);
    NameScreens(NormalizeHost(hostname, lib), resolve, lib);
  }

  lemma PublicIsNotPrivate(hostname: string, lib: Library)
    requires PrivateHost(hostname, lib) == Public
    ensures var host := NormalizeHost(hostname, lib);
            !IsLocalName(host) && (':' in host ==> !IsPrivateIp(host, lib)) && !SpellsPrivateIpv4(host)
    ensures var host := NormalizeHost(hostname, lib); ':' in host || !Ipv4Of(host).RaisesValueError?
  {
    var host := NormalizeHost(hostname, lib);
    Ipv4Verdict(host, lib);
    if SpellsPrivateIpv4(host) {
      SpellingsHaveNoColon(host);
    }
  }

  lemma SpellingsHaveNoColon(host: string)
    requires SpellsPrivateIpv4(host)
    ensures !HasColon(host)
  {
    var v: nat :| v < TWO_32 && IsPrivateIpv4(v) && Denotes(host, v);
    var forms, dot :| SpellsAs(host, v, forms, dot);
    SpellHostChars(v, forms, dot);
    HostCharsExclude(Lower(host));
    assert forall i :: 0 <= i < |host| && host[i] == ':' ==> Lower(host)[i] == ':';
  }

  /**
    The two guards together: for a URL `check_url` let through, the screening never raises, and it
    finds something exactly if the host is a name one of whose resolved addresses is private. If it
    finds nothing, nothing private is left: what the screening skips is indeed covered by the check.
  */
  lemma {:induction false} GuardsCompose(value: Json, resolve: Resolver, lib: Library, checks: UrlChecks)
    requires CheckUrl(value, true, lib, checks).Checked?
    ensures var url := CheckUrl(value, true, lib, checks).url;
            && UrlSplit(url, checks).Some?
            && var host := NormalizeHost(Hostname(UrlSplit(url, checks).value.netloc), lib);
            && ResolvesToPrivate(url, resolve, lib, checks) == Some(ResolvesPrivately(host, resolve, lib))
            && (Screened(host, resolve, lib) <==> !ResolvesPrivately(host, resolve, lib))
  {
    FetchedHostWasJudged(value, true, lib, checks);
    var parts := UrlSplit(CheckUrl(value, true, lib, checks).url, checks).value;
    PublicIsScreened(Hostname(parts.netloc), resolve, lib);
  }

  /**
    The screening for every URL and host, whether checked or not: it raises exactly on an overlong
    decimal, and finds something exactly if the host is a name that resolves to a private address.
  */
  lemma ScreensExactly(url: string, resolve: Resolver, lib: Library, checks: UrlChecks)
    ensures var parts, answer := UrlSplit(url, checks), ResolvesToPrivate(url, resolve, lib, checks);
            if parts == None || Hostname(parts.value.netloc) == "" then answer == Some(false)
            else
              var host := NormalizeHost(Hostname(parts.value.netloc), lib);
              && (answer == None <==> host != "" && ':' !in host && MeetsOverlong(host))
              && (answer == Some(true) <==> !MeetsOverlong(host) && ResolvesPrivately(host, resolve, lib))
  {
    if UrlSplit(url, checks).Some? {
      HostScreensExactly(Hostname(UrlSplit(url, checks).value.netloc), resolve, lib);
    }
  }

  lemma HostScreensExactly(hostname: string, resolve: Resolver, lib: Library)
    ensures hostname == "" ==> HostResolvesToPrivate(hostname, resolve, lib) == Some(false)
    ensures hostname != "" ==>
              var host, answer := NormalizeHost(hostname, lib), HostResolvesToPrivate(hostname, resolve, lib);
              && (answer == None <==> host != "" && ':' !in host && MeetsOverlong(host))
              && (answer == Some(true) <==> !MeetsOverlong(host) && ResolvesPrivately(host, resolve, lib))
  {
    var host := NormalizeHost(hostname, lib);
    RaisesExactlyOnOverlongDecimals(host);
    NameScreens(host, resolve, lib);
  }

  // ----- Checking twice ------------------------------------------------------

  lemma LastIsIn(s: string)
    requires s != "" && !IsSpace(s[|s| - 1]) && !IsSpace(s[0])
    ensures Strip(s) == s && !IsBlank(s)
  {
  }

  lemma {:induction false} NoSuchPrefix(text: string, prefixes: seq<string>)
    requires text != "" && forall i :: 0 <= i < |prefixes| ==> prefixes[i] != "" && prefixes[i][0] != text[0]
    ensures FirstPrefix(text, prefixes) == None
  {
    if prefixes != [] {
      assert prefixes[0][0] != text[0];
      NoSuchPrefix(text, prefixes[1..]);
    }
  }

  lemma NoForbiddenPrefix(scheme: string, rest: string)
    requires IsWeb(scheme)
    ensures FirstPrefix(Lower(scheme + ":" + rest), FORBIDDEN_PREFIXES) == None
  {
    NoSuchPrefix(Lower(scheme + ":" + rest), FORBIDDEN_PREFIXES);
  }

  lemma KeepsItsScheme(scheme: string, rest: string)
    requires IsWeb(scheme)
    ensures WithScheme(scheme + ":" + ("//" + rest)) == scheme + ":" + ("//" + rest)
  {
    WebSchemes(scheme);
    assert Excludes(scheme, ':') by {
      assert forall i :: 0 <= i < |scheme| ==> IsSchemeChar(scheme[i]);
    }
    CutAt(scheme, ':', "//" + rest);
  }

  /** An authority and a tail as `urlsplit` yields them. */
  predicate Splittable(netloc: string, t: string, checks: UrlChecks) {
    IsTail(t) && IsPlain(netloc) && BracketsPass(netloc, checks) && (IsAscii(netloc) || checks.authority(netloc))
  }

  /** Checking a URL in web form comes down to checking its parts. */
  lemma CheckWebUrl(scheme: string, netloc: string, t: string, blockPrivate: bool, lib: Library, checks: UrlChecks)
    requires IsWeb(scheme) && Splittable(netloc, t, checks)
    requires var url := WebUrl(scheme, netloc, t); !IsSpace(url[|url| - 1])
    ensures CheckUrl(Str(WebUrl(scheme, netloc, t)), blockPrivate, lib, checks)
            == CheckParts(AfterAuthority(scheme, netloc, t), blockPrivate, lib)
  {
    LastIsIn(WebUrl(scheme, netloc, t));
    NoForbiddenPrefix(scheme, "//" + (netloc + t));
    KeepsItsScheme(scheme, netloc + t);
    WebSchemes(scheme);
    SplitsAt(scheme, netloc, t, checks);
  }

  lemma HttpsIsKept(t: string)
    ensures WithScheme("https://" + t) == "https://" + t
  {
    assert "https://" + t == "https" + ":" + ("//" + t);
    KeepsItsScheme("https", t);
  }

  lemma CheckHttps(t: string, blockPrivate: bool, lib: Library, checks: UrlChecks)
    requires t != "" && !IsSpace(t[|t| - 1])
    ensures CheckUrl(Str("https://" + t), blockPrivate, lib, checks) == CheckText("https://" + t, blockPrivate, lib, checks)
  {
    assert "https://" + t == "https" + ":" + ("//" + t);
    LastIsIn("https://" + t);
    NoForbiddenPrefix("https", "//" + t);
  }

  /** Text without a scheme is checked as if it had been written with https. */
  lemma SchemelessIsHttps(text: string, blockPrivate: bool, lib: Library, checks: UrlChecks)
    requires IsPermitted(Str(text)) && !exists n: nat :: SchemeEndsAt(Strip(text), n)
    ensures CheckUrl(Str(text), blockPrivate, lib, checks) == CheckUrl(Str("https://" + Strip(text)), blockPrivate, lib, checks)
  {
    HasSchemeExactly(Strip(text));
    PermittedExactly(Str(text));
    HttpsIsKept(Strip(text));
    CheckHttps(Strip(text), blockPrivate, lib, checks);
    assert CheckUrl(Str(text), blockPrivate, lib, checks) == CheckText(Strip(text), blockPrivate, lib, checks);
  }

  /** Stripping text whose front ends cleanly cuts only behind that front. */
  lemma {:induction false} StripsBehind(front: string, tail: string) returns (n: nat)
    requires front != "" && !IsSpace(front[0]) && !IsSpace(front[|front| - 1])
    ensures n <= |tail| && Strip(front + tail) == front + tail[..n]
    ensures !IsSpace((front + tail[..n])[|front| + n - 1])
    ensures tail != "" && IsSpace(tail[|tail| - 1]) ==> n < |tail|
    decreases |tail|
  {
    var s := front + tail;
    if tail == "" || !IsSpace(tail[|tail| - 1]) {
      n := |tail|;
      assert tail[..n] == tail;
    } else {
      var less := tail[..|tail| - 1];
      n := StripsBehind(front, less);
      assert s[..|s| - 1] == front + less;
      assert less[..n] == tail[..n];
    }
  }

  lemma CheckStrips(s: string, blockPrivate: bool, lib: Library, checks: UrlChecks)
    requires s != "" && !IsSpace(s[0])
    requires Strip(s) != "" && Strip(s)[0] == s[0] && !IsSpace(Strip(s)[|Strip(s)| - 1])
    ensures CheckUrl(Str(s), blockPrivate, lib, checks) == CheckUrl(Str(Strip(s)), blockPrivate, lib, checks)
  {
    LastIsIn(Strip(s));
  }

  lemma Regrouped(scheme: string, netloc: string, a: string, b: string)
    ensures WebUrl(scheme, netloc, a) + b == WebUrl(scheme, netloc, a + b)
  {
    assert netloc + (a + b) == netloc + a + b;
    assert "//" + (netloc + a) + b == "//" + (netloc + a + b);
  }

  /** Stripping a web URL with a path leaves a web URL with a path, and cuts it if it ended in white space. */
  lemma StrippedWebUrl(scheme: string, netloc: string, t: string) returns (n: nat)
    requires IsWeb(scheme) && t != "" && t[0] == '/'
    ensures 1 <= n <= |t| && Strip(WebUrl(scheme, netloc, t)) == WebUrl(scheme, netloc, t[..n])
    ensures var url := WebUrl(scheme, netloc, t[..n]); !IsSpace(url[|url| - 1])
    ensures IsSpace(t[|t| - 1]) ==> n < |t|
  {
    var more := t[1..];
    assert t == "/" + more;
    Regrouped(scheme, netloc, "/", more);
    var k := StripsBehind(WebUrl(scheme, netloc, "/"), more);
    n := k + 1;
    assert t[..n] == "/" + more[..k];
    Regrouped(scheme, netloc, "/", more[..k]);
  }

  lemma WebUrlIsStripped(scheme: string, netloc: string, t: string, n: nat, blockPrivate: bool, lib: Library, checks: UrlChecks)
    requires IsWeb(scheme) && n <= |t| && Strip(WebUrl(scheme, netloc, t)) == WebUrl(scheme, netloc, t[..n])
    requires var url := WebUrl(scheme, netloc, t[..n]); !IsSpace(url[|url| - 1])
    ensures CheckUrl(Str(WebUrl(scheme, netloc, t)), blockPrivate, lib, checks)
            == CheckUrl(Str(WebUrl(scheme, netloc, t[..n])), blockPrivate, lib, checks)
  {
    CheckStrips(WebUrl(scheme, netloc, t), blockPrivate, lib, checks);
  }

  /** Checking a web URL with a path never makes it longer. */
  lemma CheckedIsNoLonger(scheme: string, netloc: string, t: string, blockPrivate: bool, lib: Library, checks: UrlChecks)
    requires IsWeb(scheme) && Splittable(netloc, t, checks) && t != "" && t[0] == '/'
    requires var url := WebUrl(scheme, netloc, t); !IsSpace(url[|url| - 1])
    ensures var again := CheckUrl(Str(WebUrl(scheme, netloc, t)), blockPrivate, lib, checks);
            again.Checked? ==> |again.url| <= |WebUrl(scheme, netloc, t)|
  {
    CheckWebUrl(scheme, netloc, t, blockPrivate, lib, checks);
    TailIsSplit(scheme, netloc, t, checks);
    TailShrinks(scheme, netloc, t);
  }

  lemma PrefixIsSplittable(netloc: string, t: string, n: nat, checks: UrlChecks)
    requires Splittable(netloc, t, checks) && 1 <= n <= |t|
    ensures Splittable(netloc, t[..n], checks) && t[..n][0] == t[0]
  {
  }

  lemma LengthOfWebUrl(scheme: string, netloc: string, t: string)
    requires t != ""
    ensures |WebUrl(scheme, netloc, t)| == |scheme| + 3 + |netloc| + |t|
    ensures WebUrl(scheme, netloc, t)[|WebUrl(scheme, netloc, t)| - 1] == t[|t| - 1]
  {
  }

  /** A URL with white space at its end comes out of a second check shorter. */
  lemma SecondCheckCuts(scheme: string, netloc: string, t: string, blockPrivate: bool, lib: Library, checks: UrlChecks)
    requires IsWeb(scheme) && Splittable(netloc, t, checks) && t != "" && t[0] == '/' && IsSpace(t[|t| - 1])
    ensures var again := CheckUrl(Str(WebUrl(scheme, netloc, t)), blockPrivate, lib, checks);
            again.Checked? ==> |again.url| < |WebUrl(scheme, netloc, t)|
  {
    var n := StrippedWebUrl(scheme, netloc, t);
    WebUrlIsStripped(scheme, netloc, t, n, blockPrivate, lib, checks);
    PrefixIsSplittable(netloc, t, n, checks);
    CheckedIsNoLonger(scheme, netloc, t[..n], blockPrivate, lib, checks);
    LengthOfWebUrl(scheme, netloc, t);
    LengthOfWebUrl(scheme, netloc, t[..n]);
  }

  lemma SecondCheckAgrees(parts: Url, blockPrivate: bool, lib: Library, checks: UrlChecks)
    requires Passes(parts, blockPrivate, lib, checks) && parts.path != ""
    requires !IsSpace(Href(parts)[|Href(parts)| - 1])
    ensures CheckUrl(Str(Href(parts)), blockPrivate, lib, checks) == Checked(Href(parts))
  {
    TailReadsBack(parts, checks);
    CheckWebUrl(parts.scheme, parts.netloc, Tail(parts), blockPrivate, lib, checks);
  }

  lemma HrefIsWebUrl(parts: Url)
    requires parts.path != ""
    ensures Href(parts) == WebUrl(parts.scheme, parts.netloc, Tail(parts)) && Tail(parts) != ""
  {
  }

  lemma PartsCheckedAgain(parts: Url, blockPrivate: bool, lib: Library, checks: UrlChecks)
    requires Passes(parts, blockPrivate, lib, checks) && parts.path != ""
    ensures Href(parts) != ""
    ensures CheckUrl(Str(Href(parts)), blockPrivate, lib, checks) == Checked(Href(parts)) <==> !IsSpace(Href(parts)[|Href(parts)| - 1])
  {
    HrefIsWebUrl(parts);
    LengthOfWebUrl(parts.scheme, parts.netloc, Tail(parts));
    if IsSpace(Href(parts)[|Href(parts)| - 1]) {
      TailReadsBack(parts, checks);
      SecondCheckCuts(parts.scheme, parts.netloc, Tail(parts), blockPrivate, lib, checks);
    } else {
      SecondCheckAgrees(parts, blockPrivate, lib, checks);
    }
  }

  /** Checking the checked URL again gives the same URL exactly if it does not end in white space. */
  lemma {:induction false} CheckingTwice(value: Json, blockPrivate: bool, lib: Library, checks: UrlChecks)
    requires CheckUrl(value, blockPrivate, lib, checks).Checked?
    ensures var href := CheckUrl(value, blockPrivate, lib, checks).url;
            href != "" && (CheckUrl(Str(href), blockPrivate, lib, checks) == Checked(href) <==> !IsSpace(href[|href| - 1]))
  {
    var parts := CheckedParts(value, blockPrivate, lib, checks);
    PartsCheckedAgain(parts, blockPrivate, lib, checks);
  }

  /** A bare lower-case name is its own host, without a port. */
  lemma BareAuthority(name: string)
    requires Excludes(name, '[') && Excludes(name, ':') && Excludes(name, '%') && Excludes(name, '@') && Lower(name) == name
    ensures Hostname(name) == name && PortOf(name) == NoPort
  {
    CutAbsent(name, '[');
    CutAbsent(name, ':');
    CutAbsent(name, '%');
    LastCutAbsent(name, '@');
    assert name + "" == name;
  }

  lemma HostA()
    ensures Hostname("a") == "a" && PortOf("a") == NoPort
  {
    assert Lower("a") == "a";
    BareAuthority("a");
  }

  const SHIELDED: Url := Url("http", "a", "/b ", "", "")

  lemma ShieldedParts()
    ensures AfterAuthority("http", "a", "/b ?") == SHIELDED
  {
    CutAbsent("/b ?", '#');
    CutAt("/b ", '?', "");
    assert "/b " + ['?'] + "" == "/b ?";
    assert Cut("/b ?", '#') == Pieces("/b ?", false, "") && Cut("/b ?", '?') == Pieces("/b ", true, "");
  }

  lemma ShieldedTexts()
    ensures WebUrl("http", "a", "/b ?") == "http://a/b ?" && Href(SHIELDED) == "http://a/b "
  {
    assert Tail(Rooted(SHIELDED)) == "/b ";
  }

  lemma ShieldedIsSplittable(checks: UrlChecks)
    ensures Splittable("a", "/b ?", checks) && ReachesGuard(SHIELDED)
  {
    HostA();
  }

  lemma ShieldedPasses(lib: Library, checks: UrlChecks)
    ensures CheckUrl(Str("http://a/b ?"), false, lib, checks) == Checked("http://a/b ")
  {
    ShieldedParts();
    ShieldedTexts();
    ShieldedIsSplittable(checks);
    PassesThrough("http", "a", "/b ?", SHIELDED, "http://a/b ?", lib, checks);
  }

  lemma PassesThrough(scheme: string, netloc: string, t: string, parts: Url, url: string, lib: Library, checks: UrlChecks)
    requires IsWeb(scheme) && Splittable(netloc, t, checks) && parts == AfterAuthority(scheme, netloc, t) && ReachesGuard(parts)
    requires url == WebUrl(scheme, netloc, t) && !IsSpace(url[|url| - 1])
    ensures CheckUrl(Str(url), false, lib, checks) == Checked(Href(parts))
  {
    CheckReachesGuard(parts, lib);
    CheckWebUrl(scheme, netloc, t, false, lib, checks);
  }

  /** So it is not idempotent on every input: an empty query can shield a space that the first check then leaves at the end. */
  lemma {:induction false} ShieldedSpace(lib: Library, checks: UrlChecks)
    ensures CheckUrl(Str("http://a/b ?"), false, lib, checks) == Checked("http://a/b ")
    ensures CheckUrl(Str("http://a/b "), false, lib, checks) != Checked("http://a/b ")
  {
    ShieldedPasses(lib, checks);
    CheckingTwice(Str("http://a/b ?"), false, lib, checks);
  }

  lemma OnesAreBare(n: nat, checks: UrlChecks)
    requires n > 0
    ensures Hostname(Ones(n)) == Ones(n) && PortOf(Ones(n)) == NoPort && Splittable(Ones(n), "", checks)
  {
    assert Lower(Ones(n)) == Ones(n);
    BareAuthority(Ones(n));
  }

  lemma OnesNormalize(n: nat, lib: Library)
    requires n > 0
    ensures NormalizeHost(Ones(n), lib) == Ones(n) && !IsLocalhost(Ones(n)) && !HasColon(Ones(n))
  {
    assert Lower(Ones(n)) == Ones(n);
    assert HostChars(Ones(n)) by {
      assert "0123456789abcdefx."[1] == '1';
    }
    NormalizeSpelled(Ones(n), lib);
    if IsLocalhost(Ones(n)) {
      LocalhostHasL(Ones(n));
    }
  }

  lemma OnesRefuseToBeJudged(n: nat, lib: Library)
    requires n > 4300
    ensures PrivateHost(Ones(n), lib) == Raises
  {
    OnesNormalize(n, lib);
    OnesRaise(n);
  }

  lemma CheckReachesGuard(parts: Url, lib: Library)
    requires ReachesGuard(parts)
    ensures CheckParts(parts, false, lib) == Checked(Href(parts))
    ensures PrivateHost(Hostname(parts.netloc), lib) == Raises ==> CheckParts(parts, true, lib) == CheckRaises
  {
  }

  lemma EmptyTail(scheme: string, netloc: string)
    ensures AfterAuthority(scheme, netloc, "") == Url(scheme, netloc, "", "", "")
  {
  }

  /** URLs on which the check raises, whatever the libraries do. */
  lemma OverlongUrlRaises(n: nat, lib: Library, checks: UrlChecks)
    requires n > 4300
    ensures CheckUrl(Str(WebUrl("http", Ones(n), "")), true, lib, checks) == CheckRaises
  {
    OnesAreBare(n, checks);
    OnesRefuseToBeJudged(n, lib);
    CheckReachesGuard(Url("http", Ones(n), "", "", ""), lib);
    EmptyTail("http", Ones(n));
    var url := WebUrl("http", Ones(n), "");
    assert url[|url| - 1] == '1';
    CheckWebUrl("http", Ones(n), "", true, lib, checks);
  }
}
