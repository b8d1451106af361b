/** Remote URLs (source_identity.rs): the normal form an accepted URL is kept in. */
module RemoteUrls {
  import opened Basics
  import opened Text
  import opened Splitting

  const MAX_URL_CHARS := 512
  const MAX_HOST_CHARS := 253
  const MAX_LABEL_CHARS := 63
  const DEFAULT_PORT := 443
  const MAX_PORT := 65535
  const PREFIX := "https://"

  datatype UrlError =
    | TooLong | UnsupportedScheme | QueryOrFragment | MissingPath | CredentialInAuthority
    | InvalidHost | MissingHost | InvalidPort | InvalidPath

  // ---- Parsing ----

  predicate IsAlphanumeric(c: char) {
    IsDigit(c) || 'a' <= c <= 'z' || 'A' <= c <= 'Z'
  }

  predicate IsPathChar(c: char) {
    IsAlphanumeric(c) || c == '-' || c == '_' || c == '.' || c == '~'
  }

  predicate LabelAdmitted(name: string) {
    && 0 < |name| <= MAX_LABEL_CHARS && name[0] != '-' && name[|name| - 1] != '-'
    && forall i :: 0 <= i < |name| ==> IsAlphanumeric(name[i]) || name[i] == '-'
  }

  predicate HostAdmitted(host: string) {
    && host != [] && |host| <= MAX_HOST_CHARS
    && forall name :: name in Split(host, '.') ==> LabelAdmitted(name)
  }

  predicate SegmentAdmitted(segment: string) {
    && segment != [] && segment != "." && segment != ".."
    && forall i :: 0 <= i < |segment| ==> IsPathChar(segment[i])
  }

  predicate PathAdmitted(path: string) {
    path != [] && forall segment :: segment in Split(path, '/') ==> SegmentAdmitted(segment)
  }

  function ParseU16(s: string): Option<nat> {
    ParseUnsigned(s, MAX_PORT)
  }

  function ParsePort(port: string): Option<nat> {
    if port == [] || ':' in port || (|port| > 1 && port[0] == '0') then None
    else if ParseU16(port) == Some(0) then None
    else ParseU16(port)
  }

  function CheckHost(host: string, port: Option<nat>): Result<(string, Option<nat>), UrlError> {
    if host == [] then Err(MissingHost)
    else if !HostAdmitted(Lower(host)) then Err(InvalidHost)
    else Ok((Lower(host), port))
  }

  function ParseAuthority(authority: string): Result<(string, Option<nat>), UrlError> {
    if (authority != [] && authority[0] == '[') || ']' in authority then Err(InvalidHost)
    else
      match SplitOnce(authority, ':')
      case None => CheckHost(authority, None)
      case Some((host, port)) =>
        if ParsePort(port).None? then Err(InvalidPort) else CheckHost(host, ParsePort(port))
  }

  function StripSlash(path: string): string {
    if path != [] && path[|path| - 1] == '/' then path[..|path| - 1] else path
  }

  function NormalizePath(path: string): Result<string, UrlError> {
    var stripped := StripSlash(path);
    if stripped == [] then Err(MissingPath)
    else if !PathAdmitted(stripped) then Err(InvalidPath)
    else Ok(stripped)
  }

  /** The two sides of the first "://". */
  function SplitScheme(s: string): (r: Option<(string, string)>)
    ensures r.Some? ==> s == r.value.0 + "://" + r.value.1
  {
    if |s| < 3 then None
    else if s[..3] == "://" then
      assert s == [] + "://" + s[3..];
      Some(([], s[3..]))
    else
      var rest := SplitScheme(s[1..]);
      if rest.None? then None
      else
        assert s == [s[0]] + s[1..];
        assert s == ([s[0]] + rest.value.0) + "://" + rest.value.1;
        Some(([s[0]] + rest.value.0, rest.value.1))
  }

  /** A port is stated only when it is not the default. */
  function PortText(port: Option<nat>): string {
    match port
    case None => ""
    case Some(n) => if n == DEFAULT_PORT then "" else ":" + Decimal(n)
  }

  function ParseRest(rest: string): Result<string, UrlError> {
    if '?' in rest || '#' in rest then Err(QueryOrFragment)
    else
      match SplitOnce(rest, '/')
      case None => Err(MissingPath)
      case Some((authority, path)) =>
        if '@' in authority then Err(CredentialInAuthority)
        else
          match ParseAuthority(authority)
          case Err(error) => Err(error)
          case Ok((host, port)) =>
            match NormalizePath(path)
            case Err(error) => Err(error)
            case Ok(normal) => Ok(PREFIX + host + PortText(port) + "/" + normal)
  }

  function Parse(value: string): Result<string, UrlError> {
    var trimmed := Trim(value);
    if |trimmed| > MAX_URL_CHARS then Err(TooLong)
    else
      match SplitScheme(trimmed)
      case None => Err(UnsupportedScheme)
      case Some((scheme, rest)) => if Lower(scheme) != "https" then Err(UnsupportedScheme) else ParseRest(rest)
  }

  // ---- Reading an accepted URL ----

  function Parts(url: string): (string, string) {
    var rest := if PREFIX <= url then url[|PREFIX|..] else [];
    match SplitOnce(rest, '/')
    case None => (rest, [])
    case Some((authority, path)) => (authority, "/" + path)
  }

  function Host(url: string): string {
    var authority := Parts(url).0;
    match SplitOnce(authority, ':')
    case None => authority
    case Some((host, _)) => host
  }

  function Port(url: string): Option<nat> {
    match SplitOnce(Parts(url).0, ':')
    case None => None
    case Some((_, port)) => ParseU16(port)
  }

  function Path(url: string): string {
    Parts(url).1
  }

  // ---- The grammar ----

  /** What a URL says: a lowercase host, a port that is not the default, and a
      path without its leading slash. */
  datatype Remote = Remote(host: string, port: Option<nat>, path: string)
  {
    predicate Valid() {
      && HostAdmitted(host) && Lower(host) == host
      && (port.Some? ==> 0 < port.value <= MAX_PORT && port.value != DEFAULT_PORT)
      && PathAdmitted(path)
    }

    function Print(): string {
      PREFIX + host + PortText(port) + "/" + path
    }
  }

  /** The text of a port and the number it stands for. */
  predicate PortSpells(text: string, n: nat) {
    && 0 < n <= MAX_PORT
    && if text != [] && text[0] == '+' then text != "+" && AllDigits(text[1..]) && DecimalValue(text[1..]) == n
       else text != [] && text[0] != '0' && AllDigits(text) && DecimalValue(text) == n
  }

  predicate PortMeans(text: string, port: Option<nat>) {
    || (text == [] && port.None?)
    || (text != [] && text[0] == ':'
        && if port.None? then PortSpells(text[1..], DEFAULT_PORT)
           else port.value != DEFAULT_PORT && PortSpells(text[1..], port.value))
  }

  /** The ways to write a URL down. */
  datatype Spelling = Spelling(scheme: string, host: string, port: string, path: string)
  {
    function Text(): string {
      scheme + "://" + (host + port + ['/'] + path)
    }

    predicate Means(r: Remote) {
      && Lower(scheme) == "https"
      && Lower(host) == r.host && HostAdmitted(r.host)
      && PortMeans(port, r.port)
      && (path == r.path || path == r.path + "/") && PathAdmitted(r.path)
    }
  }

  /** A value spells a remote when, trimmed and short enough, it is one of the ways
      to write it. */
  ghost predicate Spells(value: string, r: Remote) {
    |Trim(value)| <= MAX_URL_CHARS && exists s: Spelling :: s.Text() == Trim(value) && s.Means(r)
  }

  // ---- Which characters can occur ----

  lemma HostCharacters(host: string)
    requires HostAdmitted(host)
    ensures forall i :: 0 <= i < |host| ==> IsAlphanumeric(host[i]) || host[i] == '-' || host[i] == '.'
  {
    forall i | 0 <= i < |host| ensures IsAlphanumeric(host[i]) || host[i] == '-' || host[i] == '.' {
      PiecesHoldEveryCharacter(host, '.', i);
      if host[i] != '.' {
        var k :| 0 <= k < |Split(host, '.')| && host[i] in Split(host, '.')[k];
        assert LabelAdmitted(Split(host, '.')[k]);
      }
    }
  }

  lemma SpelledHostCharacters(host: string)
    requires HostAdmitted(Lower(host))
    ensures host != []
    ensures forall i :: 0 <= i < |host| ==> IsAlphanumeric(host[i]) || host[i] == '-' || host[i] == '.'
  {
    assert Lower(host) != [];
    hide HostAdmitted;
    HostCharacters(Lower(host));
    forall i | 0 <= i < |host| ensures IsAlphanumeric(host[i]) || host[i] == '-' || host[i] == '.' {
      assert Lower(host)[i] == LowerChar(host[i]);
    }
  }

  lemma PathCharacters(path: string)
    requires PathAdmitted(path)
    ensures path != []
    ensures forall i :: 0 <= i < |path| ==> IsPathChar(path[i]) || path[i] == '/'
    ensures path[|path| - 1] != '/'
  {
    hide IsPathChar;
    forall i | 0 <= i < |path| ensures IsPathChar(path[i]) || path[i] == '/' {
      PiecesHoldEveryCharacter(path, '/', i);
      if path[i] != '/' {
        var k :| 0 <= k < |Split(path, '/')| && path[i] in Split(path, '/')[k];
        assert SegmentAdmitted(Split(path, '/')[k]);
      }
    }
    assert !SegmentAdmitted([]);
    if path[|path| - 1] == '/' {
      TrailingSeparatorLeavesEmpty(path, '/');
    }
  }

  predicate IsLabel(name: string) {
    && 1 <= |name| <= 63 && name[0] != '-' && name[|name| - 1] != '-'
    && forall i :: 0 <= i < |name| ==>
         'a' <= name[i] <= 'z' || 'A' <= name[i] <= 'Z' || '0' <= name[i] <= '9' || name[i] == '-'
  }

  /** Any labels joined by dots are a host, if they are not too long together, and
      nothing else is. */
  lemma HostsAre(host: string)
    ensures HostAdmitted(host) <==>
      && 1 <= |host| <= 253
      && exists labels: seq<string> ::
           labels != [] && host == JoinWith(labels, '.') && forall k :: 0 <= k < |labels| ==> IsLabel(labels[k])
  {
    hide Split;
    var labels := Split(host, '.');
    SplitIs(host, '.', labels);
    if HostAdmitted(host) {
      assert forall k :: 0 <= k < |labels| ==> labels[k] in labels && LabelAdmitted(labels[k]);
    }
    if given: seq<string> :| given != [] && host == JoinWith(given, '.')
                             && forall k :: 0 <= k < |given| ==> IsLabel(given[k])
    {
      SplitIs(host, '.', given);
    }
  }

  predicate IsSegment(segment: string) {
    && segment != [] && segment != "." && segment != ".."
    && forall i :: 0 <= i < |segment| ==>
         || 'a' <= segment[i] <= 'z' || 'A' <= segment[i] <= 'Z' || '0' <= segment[i] <= '9'
         || segment[i] in {'-', '_', '.', '~'}
  }

  /** Any segments joined by slashes are a path, and nothing else is. */
  lemma PathsAre(path: string)
    ensures PathAdmitted(path) <==>
      exists segments: seq<string> ::
        && segments != [] && path == JoinWith(segments, '/')
        && forall k :: 0 <= k < |segments| ==> IsSegment(segments[k])
  {
    hide Split;
    var segments := Split(path, '/');
    SplitIs(path, '/', segments);
    if PathAdmitted(path) {
      assert forall k :: 0 <= k < |segments| ==> segments[k] in segments && SegmentAdmitted(segments[k]);
    }
    if given: seq<string> :| given != [] && path == JoinWith(given, '/')
                             && forall k :: 0 <= k < |given| ==> IsSegment(given[k])
    {
      SplitIs(path, '/', given);
      assert given[0] != [];
    }
  }

  predicate IsPortChar(c: char) {
    IsDigit(c) || c == '+' || c == ':'
  }

  lemma PortCharacters(text: string, port: Option<nat>)
    requires PortMeans(text, port)
    ensures forall i :: 0 <= i < |text| ==> IsPortChar(text[i])
    ensures text != [] ==> text[0] == ':' && ':' !in text[1..]
  {
    hide DecimalValue;
    if text != [] {
      var digits := if text[1] == '+' then text[2..] else text[1..];
      assert AllDigits(digits);
      assert text == if text[1] == '+' then [':', '+'] + digits else [':'] + digits;
    }
  }

  // ---- Ports ----

  lemma PortParses(text: string, n: nat)
    ensures ParsePort(text) == Some(n) <==> PortSpells(text, n)
  {
    assert DecimalValue("0") == 0;
    hide DecimalValue;
    if text != [] && text[0] == '+' {
      assert text == ['+'] + text[1..];
    } else if |text| == 1 {
      assert text == [text[0]];
    }
  }

  lemma {:induction false} DecimalLeads(n: nat)
    requires n > 0
    ensures Decimal(n)[0] != '0'
  {
    if n >= 10 {
      DecimalLeads(n / 10);
    }
  }

  lemma PrintedPort(n: nat)
    requires 0 < n <= MAX_PORT
    ensures PortSpells(Decimal(n), n) && ParseU16(Decimal(n)) == Some(n)
  {
    hide Decimal;
    DecimalLeads(n);
    DecimalValueOfDecimal(n);
  }

  /** No way to write a port is shorter than the one printed. */
  lemma PrintedPortIsShortest(text: string, port: Option<nat>)
    requires PortMeans(text, port)
    ensures |PortText(port)| <= |text|
  {
    hide DecimalValue, Decimal;
    if port.Some? {
      DecimalIsShortest(if text[1] == '+' then text[2..] else text[1..]);
    }
  }

  // ---- Parsing decides the grammar ----

  lemma {:induction false} SchemeBeforeColon(scheme: string, rest: string)
    requires ':' !in scheme
    ensures SplitScheme(scheme + "://" + rest) == Some((scheme, rest))
  {
    var s := scheme + "://" + rest;
    if scheme == [] {
      assert s[..3] == "://" && s[3..] == rest;
    } else {
      assert s[0] == scheme[0] && s[1..] == scheme[1..] + "://" + rest;
      SchemeBeforeColon(scheme[1..], rest);
      assert [scheme[0]] + scheme[1..] == scheme;
    }
  }

  lemma HttpsHasNoColon(scheme: string)
    requires Lower(scheme) == "https"
    ensures ':' !in scheme
  {
    forall i | 0 <= i < |scheme| ensures scheme[i] != ':' {
      assert Lower(scheme)[i] == LowerChar(scheme[i]);
    }
  }

  /** What the authority and the path of a spelling are, taken apart again. */
  lemma AuthorityParses(host: string, text: string, r: Remote)
    requires Lower(host) == r.host && HostAdmitted(r.host) && PortMeans(text, r.port)
    ensures
      var authority := ParseAuthority(host + text);
      authority.Ok? && authority.value.0 == r.host && PortText(authority.value.1) == PortText(r.port)
  {
    hide HostAdmitted, PortMeans, PortSpells, ParsePort, Decimal;
    SpelledHostCharacters(host);
    PortCharacters(text, r.port);
    var authority := host + text;
    assert authority[0] == host[0];
    assert ']' !in authority && authority[0] != '[' && ':' !in host;
    if text == [] {
      assert authority == host;
      assert r.port.None? by {
        EmptyPort(r.port);
      }
    } else {
      assert authority == host + [':'] + text[1..];
      SplitAtFirst(host, ':', text[1..]);
      StatedPort(text, r.port);
    }
  }

  lemma EmptyPort(port: Option<nat>)
    requires PortMeans([], port)
    ensures port.None?
  {
  }

  lemma StatedPort(text: string, port: Option<nat>)
    requires PortMeans(text, port) && text != []
    ensures ParsePort(text[1..]).Some? && PortText(ParsePort(text[1..])) == PortText(port)
  {
    hide PortSpells, ParsePort, Decimal;
    PortParses(text[1..], if port.None? then DEFAULT_PORT else port.value);
  }

  lemma PathParses(path: string, r: Remote)
    requires (path == r.path || path == r.path + "/") && PathAdmitted(r.path)
    ensures NormalizePath(path) == Ok(r.path)
  {
    PathCharacters(r.path);
    assert path == r.path + "/" ==> path[..|path| - 1] == r.path;
  }

  lemma RestParses(s: Spelling, r: Remote)
    requires s.Means(r)
    ensures ParseRest(s.host + s.port + ['/'] + s.path) == Ok(r.Print())
  {
    hide HostAdmitted, PathAdmitted, PortMeans, ParseAuthority, NormalizePath, Decimal, PortText;
    var authority := s.host + s.port;
    var rest := authority + ['/'] + s.path;
    SpelledHostCharacters(s.host);
    PortCharacters(s.port, r.port);
    PathCharacters(r.path);
    assert '/' !in authority && '@' !in authority && '?' !in authority && '#' !in authority;
    assert '?' !in s.path && '#' !in s.path;
    SplitAtFirst(authority, '/', s.path);
    AuthorityParses(s.host, s.port, r);
    PathParses(s.path, r);
  }

  lemma SpellingParses(value: string, s: Spelling, r: Remote)
    requires |Trim(value)| <= MAX_URL_CHARS && s.Text() == Trim(value) && s.Means(r)
    ensures Parse(value) == Ok(r.Print())
  {
    hide ParseRest, Trim, PortMeans, PathAdmitted, HostAdmitted;
    HttpsHasNoColon(s.scheme);
    SchemeBeforeColon(s.scheme, s.host + s.port + ['/'] + s.path);
    RestParses(s, r);
  }

  lemma ParsedAuthorityIsSpelled(authority: string) returns (host: string, text: string, port: Option<nat>)
    requires ParseAuthority(authority).Ok?
    ensures authority == host + text && Lower(host) == ParseAuthority(authority).value.0 && HostAdmitted(Lower(host))
    ensures PortMeans(text, port) && PortText(port) == PortText(ParseAuthority(authority).value.1)
  {
    hide HostAdmitted, PortSpells, ParsePort, Decimal;
    var split := SplitOnce(authority, ':');
    port := ParseAuthority(authority).value.1;
    if split.None? {
      host, text := authority, [];
    } else {
      host, text := split.value.0, ":" + split.value.1;
      PortParses(split.value.1, port.value);
      assert text[1..] == split.value.1;
      assert host + text == authority;
      port := if port == Some(DEFAULT_PORT) then None else port;
    }
  }

  lemma ParsedIsSpelled(value: string) returns (s: Spelling, r: Remote)
    requires Parse(value).Ok?
    ensures |Trim(value)| <= MAX_URL_CHARS && s.Text() == Trim(value) && s.Means(r)
  {
    hide Trim, PathAdmitted, HostAdmitted, PortMeans, ParseAuthority, PortText;
    var (scheme, rest) := SplitScheme(Trim(value)).value;
    var (authority, path) := SplitOnce(rest, '/').value;
    var host, text, port := ParsedAuthorityIsSpelled(authority);
    var normal := NormalizePath(path).value;
    r := Remote(Lower(host), port, normal);
    s := Spelling(scheme, host, text, path);
    assert path == normal || path == normal + "/";
  }

  /** A URL is accepted exactly when it is spelled by the grammar, and what is kept
      is the one printed form of what it says. */
  lemma ParseDecidesGrammar(value: string, url: string)
    ensures Parse(value) == Ok(url) <==> exists r: Remote :: Spells(value, r) && url == r.Print()
  {
    hide Parse, Trim;
    if Parse(value).Ok? {
      var s, r := ParsedIsSpelled(value);
      SpellingParses(value, s, r);
      assert Spells(value, r);
    }
    if r: Remote :| Spells(value, r) && url == r.Print() {
      var s: Spelling :| s.Text() == Trim(value) && s.Means(r);
      SpellingParses(value, s, r);
    }
  }

  // ---- On which ground a text is refused ----

  lemma SchemesAre(value: string, scheme: string, rest: string)
    requires Lower(scheme) == "https"
    ensures Trim(value) == scheme + "://" + rest && |Trim(value)| <= MAX_URL_CHARS ==> Parse(value) == ParseRest(rest)
  {
    hide Trim, ParseRest;
    HttpsHasNoColon(scheme);
    SchemeBeforeColon(scheme, rest);
  }

  /** A text is judged by its length first, and then by its scheme. */
  lemma SchemeIsJudged(value: string)
    ensures Parse(value) == Err(TooLong) <==> |Trim(value)| > 512
    ensures Parse(value) == Err(UnsupportedScheme) <==>
      && |Trim(value)| <= 512
      && forall scheme: string, rest: string :: Trim(value) == scheme + "://" + rest ==> Lower(scheme) != "https"
  {
    hide Trim, ParseRest;
    var split := SplitScheme(Trim(value));
    if split.Some? {
      assert Trim(value) == split.value.0 + "://" + split.value.1;
      RestErrors(split.value.1);
    }
    if scheme: string, rest: string :| Trim(value) == scheme + "://" + rest && Lower(scheme) == "https" {
      SchemesAre(value, scheme, rest);
      RestErrors(rest);
    }
  }

  lemma RestErrors(rest: string)
    ensures ParseRest(rest) != Err(TooLong) && ParseRest(rest) != Err(UnsupportedScheme)
  {
    hide SplitOnce, HostAdmitted, PathAdmitted, ParsePort, Decimal;
  }

  /** After the scheme, a query or fragment is refused first, then a missing slash, then
      a credential, and then the authority is judged before the path. */
  lemma RestIsJudged(authority: string, path: string)
    requires '/' !in authority
    ensures
      var rest := authority + ['/'] + path;
      var r, host := ParseRest(rest), ParseAuthority(authority);
      if '?' in rest || '#' in rest then r == Err(QueryOrFragment)
      else if '@' in authority then r == Err(CredentialInAuthority)
      else if host.Err? then r == Err(host.error)
      else if path == "" || path == "/" then r == Err(MissingPath)
      else r.Ok? || r == Err(InvalidPath)
    ensures ParseRest(authority) ==
            if '?' in authority || '#' in authority then Err(QueryOrFragment) else Err(MissingPath)
  {
    hide ParseAuthority, PathAdmitted, Decimal;
    SplitAtFirst(authority, '/', path);
    assert path != [] && path[|path| - 1] == '/' ==> path == path[..|path| - 1] + ['/'];
  }

  /** Of an authority brackets are refused first, then the port, then a missing host, and
      then a bad one. */
  lemma AuthorityIsJudged(host: string, port: Option<string>)
    requires ':' !in host
    ensures
      var authority := host + if port.Some? then [':'] + port.value else [];
      var r := ParseAuthority(authority);
      if (authority != [] && authority[0] == '[') || ']' in authority then r == Err(InvalidHost)
      else if port.Some? && forall n: nat :: !PortSpells(port.value, n) then r == Err(InvalidPort)
      else if host == "" then r == Err(MissingHost)
      else if !HostAdmitted(Lower(host)) then r == Err(InvalidHost)
      else r.Ok? && r.value.0 == Lower(host)
  {
    hide HostAdmitted, PortSpells, ParsePort, SplitOnce;
    var authority := host + if port.Some? then [':'] + port.value else [];
    if port.Some? {
      assert authority == host + [':'] + port.value;
      SplitAtFirst(host, ':', port.value);
      forall n: nat {
        PortParses(port.value, n);
      }
      if ParsePort(port.value).Some? {
        assert PortSpells(port.value, ParsePort(port.value).value);
      }
    } else {
      assert authority == host;
      assert SplitOnce(host, ':').None?;
    }
  }

  // ---- The printed form ----

  /** The way to write a remote that is printed. */
  function Printed(r: Remote): Spelling {
    Spelling("https", r.host, PortText(r.port), r.path)
  }

  lemma PrintedMeans(r: Remote)
    requires r.Valid()
    ensures Printed(r).Text() == r.Print() && Printed(r).Means(r)
  {
    hide HostAdmitted, PathAdmitted, PortSpells, Decimal, ParseU16;
    if r.port.Some? {
      PrintedPort(r.port.value);
      assert PortText(r.port)[1..] == Decimal(r.port.value);
    }
  }

  lemma MeansValid(s: Spelling, r: Remote)
    requires s.Means(r)
    ensures r.Valid() && |r.Print()| <= |s.Text()|
  {
    hide HostAdmitted, PathAdmitted, PortText;
    forall i | 0 <= i < |r.host| ensures Lower(r.host)[i] == r.host[i] {
      assert r.host[i] == LowerChar(s.host[i]);
    }
    assert Lower(r.host) == r.host;
    assert |s.scheme| == |Lower(s.scheme)| == 5;
    PrintedPortIsShortest(s.port, r.port);
  }

  lemma PrintedIsTrimmed(r: Remote)
    requires r.Valid()
    ensures Trim(r.Print()) == r.Print()
  {
    hide HostAdmitted, PathAdmitted, PortText, Trim;
    PathCharacters(r.path);
    var url := r.Print();
    assert url[0] == 'h' && url[|url| - 1] == r.path[|r.path| - 1];
    TrimKeeps(url);
  }

  /** Accepted text is left alone when it is parsed again. */
  lemma ParseIsIdempotent(value: string)
    requires Parse(value).Ok?
    ensures Parse(Parse(value).value) == Parse(value)
  {
    hide Parse, Trim, HostAdmitted, PathAdmitted, PortText;
    ParseDecidesGrammar(value, Parse(value).value);
    var r: Remote :| Spells(value, r) && Parse(value).value == r.Print();
    var s: Spelling :| s.Text() == Trim(value) && s.Means(r);
    MeansValid(s, r);
    PrintedIsTrimmed(r);
    PrintedMeans(r);
    SpellingParses(r.Print(), Printed(r), r);
  }

  lemma AuthoritySplits(r: Remote)
    requires r.Valid()
    ensures
      var authority := r.host + PortText(r.port);
      && '/' !in authority
      && (r.port.None? ==> SplitOnce(authority, ':') == None && authority == r.host)
      && (r.port.Some? ==> exists text :: SplitOnce(authority, ':') == Some((r.host, text)) && ParseU16(text) == r.port)
  {
    hide HostAdmitted, PathAdmitted, PortMeans, Decimal, ParseU16, SplitOnce;
    PrintedMeans(r);
    var authority := r.host + PortText(r.port);
    SpelledHostCharacters(r.host);
    PortCharacters(PortText(r.port), r.port);
    assert '/' !in authority && ':' !in r.host;
    if r.port.None? {
      assert authority == r.host;
    } else {
      PrintedPort(r.port.value);
      assert authority == r.host + [':'] + Decimal(r.port.value);
      SplitAtFirst(r.host, ':', Decimal(r.port.value));
    }
  }

  lemma PartsOf(authority: string, path: string)
    requires '/' !in authority
    ensures Parts(PREFIX + authority + "/" + path) == (authority, "/" + path)
  {
    hide SplitOnce;
    var url := PREFIX + authority + "/" + path;
    assert url[..|PREFIX|] == PREFIX && url[|PREFIX|..] == authority + ['/'] + path;
    SplitAtFirst(authority, '/', path);
  }

  lemma PartsOfPrinted(r: Remote)
    requires r.Valid()
    ensures Parts(r.Print()) == (r.host + PortText(r.port), "/" + r.path)
  {
    hide HostAdmitted, PathAdmitted, PortText, SplitOnce, Parts, ParseU16;
    AuthoritySplits(r);
    PartsOf(r.host + PortText(r.port), r.path);
    assert r.Print() == PREFIX + (r.host + PortText(r.port)) + "/" + r.path;
  }

  /** The host, the port and the path of a printed URL are the ones printed. */
  lemma AccessorsRecover(r: Remote)
    requires r.Valid()
    ensures Host(r.Print()) == r.host && Port(r.Print()) == r.port && Path(r.Print()) == "/" + r.path
  {
    hide HostAdmitted, PathAdmitted, PortText, SplitOnce, Parts, ParseU16;
    PartsOfPrinted(r);
    AuthoritySplits(r);
  }

  /** Two accepted texts are kept as the same URL exactly when they say the same
      host, the same effective port and the same path. */
  lemma SameUrlSameRemote(v: string, w: string, r: Remote, q: Remote)
    requires Spells(v, r) && Spells(w, q)
    ensures Parse(v).Ok? && Parse(w).Ok?
    ensures Parse(v) == Parse(w) <==> r == q
  {
    hide Parse, Trim, HostAdmitted, PathAdmitted, PortText, Host, Port, Path;
    var s: Spelling :| s.Text() == Trim(v) && s.Means(r);
    var t: Spelling :| t.Text() == Trim(w) && t.Means(q);
    SpellingParses(v, s, r);
    SpellingParses(w, t, q);
    MeansValid(s, r);
    MeansValid(t, q);
    AccessorsRecover(r);
    AccessorsRecover(q);
    assert Path(r.Print())[1..] == r.path && Path(q.Print())[1..] == q.path;
  }
}
