/** The host and port of a remote, read from its address: URLs with an authority as in sections
    3.2.1 to 3.2.3 of RFC 3986, and scp-like addresses. */
module RemoteAddress {
  import opened Text

  datatype HostPort = HostPort(host: string, port: int)

  // ---- Reading ----

  /** The first place a text occurs, or -1. */
  function FindText(s: string, t: string): (k: int)
    ensures -1 <= k <= |s|
    ensures k >= 0 ==> t <= s[k..]
  {
    if t <= s then 0
    else if s == "" then -1
    else var k := FindText(s[1..], t); if k < 0 then -1 else k + 1
  }

  /** The last place a character occurs, or -1. */
  function RFind(s: string, c: char): (k: int)
    ensures -1 <= k < |s|
    ensures k >= 0 ==> s[k] == c
  {
    if s == "" then -1
    else if s[|s| - 1] == c then |s| - 1
    else RFind(s[..|s| - 1], c)
  }

  /** The text before the first `c`, or all of it. */
  function UpTo(s: string, c: char): string {
    if Find(s, c) < 0 then s else s[..Find(s, c)]
  }

  predicate IsDigit(c: char) { '0' <= c <= '9' }

  predicate IsSpace(c: char) { c == ' ' || '\t' <= c <= '\r' }

  function DigitsFrom(s: string, value: int): int {
    if s == "" || !IsDigit(s[0]) then value
    else DigitsFrom(s[1..], 10 * value + (s[0] as int - '0' as int))
  }

  /** `atoi`: blanks, a sign, digits; 0 without digits. */
  function Atoi(s: string): int {
    if s == "" then 0
    else if IsSpace(s[0]) then Atoi(s[1..])
    else if s[0] == '-' then -DigitsFrom(s[1..], 0)
    else if s[0] == '+' then DigitsFrom(s[1..], 0)
    else DigitsFrom(s, 0)
  }

  /** The port a scheme implies; 0 when it is not known. */
  function DefaultPort(scheme: string): int {
    match scheme
    case "https" => 443
    case "http" => 80
    case "git" => 9418
    case "ssh" => 22
    case _ => 0
  }

  function NonEmptyHost(h: HostPort): Option<HostPort> {
    if h.host == "" then None else Some(h)
  }

  /** A host with an optional port; a host in brackets may contain colons. */
  function HostPortOf(hostport: string, defaultPort: int): Option<HostPort> {
    if hostport != "" && hostport[0] == '[' then
      var rb := Find(hostport, ']');
      if rb < 0 then None
      else
        NonEmptyHost(HostPort(hostport[1..rb],
                              if rb + 1 < |hostport| && hostport[rb + 1] == ':' then Atoi(hostport[rb + 2..])
                                  else defaultPort))
    else
      var colon := RFind(hostport, ':');
      if colon >= 0 && Find(hostport, ':') == colon then
        var port := Atoi(hostport[colon + 1..]);
        NonEmptyHost(HostPort(hostport[..colon], if port <= 0 then defaultPort else port))
      else NonEmptyHost(HostPort(hostport, defaultPort))
  }

  /** What follows the user information, which ends at the first `@` unless a `/` is before it. */
  function AfterUser(rest: string): string {
    var slash, at := Find(rest, '/'), Find(rest, '@');
    if at >= 0 && (slash < 0 || at < slash) then rest[at + 1..] else rest
  }

  function ScpHost(u: string): Option<HostPort> {
    var at := Find(u, '@');
    NonEmptyHost(HostPort(UpTo(if at < 0 then u else u[at + 1..], ':'), 22))
  }

  function UrlHost(scheme: string, rest: string): Option<HostPort> {
    HostPortOf(UpTo(AfterUser(rest), '/'), DefaultPort(scheme))
  }

  predicate IsLocal(u: string) {
    u != "" && (u[0] == '/' || u[0] == '.' || "file://" <= u)
  }

  /** The host and port a remote is at; none for a local path and when there is no host. */
  function ParseAddress(u: string): Option<HostPort> {
    if u == "" || IsLocal(u) then None
    else
      var schemeEnd := FindText(u, "://");
      if schemeEnd < 0 then ScpHost(u)
      else UrlHost(u[..schemeEnd], u[schemeEnd + 3..])
  }

  method ParseRemoteHostPort(url: string) returns (r: Option<HostPort>)
    ensures r == ParseAddress(url)
  {
    if url == "" {
      return None;
    }
    if url[0] == '/' || url[0] == '.' || "file://" <= url {
      return None;
    }
    var schemeEnd := FindText(url, "://");
    if schemeEnd < 0 {
      r := SplitScp(url);
    } else {
      r := SplitUrl(url[..schemeEnd], url[schemeEnd + 3..]);
    }
  }

  /** In an scp-like address a colon separates the path, not a port. */
  method SplitScp(url: string) returns (r: Option<HostPort>)
    ensures r == ScpHost(url)
  {
    var rest := url;
    var at := Find(rest, '@');
    if at >= 0 {
      rest := rest[at + 1..];
    }
    var colon := Find(rest, ':');
    var host := if colon < 0 then rest else rest[..colon];
    return if host == "" then None else Some(HostPort(host, 22));
  }

  method SplitUrl(scheme: string, afterScheme: string) returns (r: Option<HostPort>)
    ensures r == UrlHost(scheme, afterScheme)
  {
    var defaultPort := SchemePort(scheme);
    var rest := StripUser(afterScheme);
    var end := Find(rest, '/');
    r := SplitHostPort(if end < 0 then rest else rest[..end], defaultPort);
  }

  method SchemePort(scheme: string) returns (port: int)
    ensures port == DefaultPort(scheme)
  {
    if scheme == "https" {
      port := 443;
    } else if scheme == "http" {
      port := 80;
    } else if scheme == "git" {
      port := 9418;
    } else if scheme == "ssh" {
      port := 22;
    } else {
      port := 0;
    }
  }

  method StripUser(afterScheme: string) returns (rest: string)
    ensures rest == AfterUser(afterScheme)
  {
    rest := afterScheme;
    var slash, at := Find(rest, '/'), Find(rest, '@');
    if at >= 0 && (slash < 0 || at < slash) {
      rest := rest[at + 1..];
    }
  }

  method SplitHostPort(hostport: string, defaultPort: int) returns (r: Option<HostPort>)
    ensures r == HostPortOf(hostport, defaultPort)
  {
    var host, port := hostport, defaultPort;
    if hostport != "" && hostport[0] == '[' {
      var rb := Find(hostport, ']');
      if rb < 0 {
        return None;
      }
      host := hostport[1..rb];
      if rb + 1 < |hostport| && hostport[rb + 1] == ':' {
        port := Atoi(hostport[rb + 2..]);
      }
    } else {
      var colon := RFind(hostport, ':');
      if colon >= 0 && Find(hostport, ':') == colon {
        host := hostport[..colon];
        port := Atoi(hostport[colon + 1..]);
        if port <= 0 {
          port := defaultPort;
        }
      }
    }
    return if host == "" then None else Some(HostPort(host, port));
  }

  // ---- Decimal numbers ----

  function Digit(d: nat): char
    requires d < 10
  {
    '0' + d as char
  }

  function Decimal(n: nat): (s: string)
    ensures s != "" && forall c <- s :: IsDigit(c)
  {
    if n < 10 then [Digit(n)] else Decimal(n / 10) + [Digit(n % 10)]
  }

  lemma {:induction false} DigitsSnoc(s: string, c: char, value: int)
    requires (forall d <- s :: IsDigit(d)) && IsDigit(c)
    ensures DigitsFrom(s + [c], value) == 10 * DigitsFrom(s, value) + (c as int - '0' as int)
  {
    if s == "" {
      assert ([c])[1..] == "";
    } else {
      assert (s + [c])[1..] == s[1..] + [c];
      DigitsSnoc(s[1..], c, 10 * value + (s[0] as int - '0' as int));
    }
  }

  lemma {:induction false} DecimalReads(n: nat)
    ensures DigitsFrom(Decimal(n), 0) == n
  {
    if n < 10 {
      assert Decimal(n)[1..] == "";
    } else {
      DecimalReads(n / 10);
      DigitsSnoc(Decimal(n / 10), Digit(n % 10), 0);
    }
  }

  /** Reading a printed number gives it back. */
  lemma AtoiUndoesDecimal(n: nat)
    ensures Atoi(Decimal(n)) == n
  {
    DecimalReads(n);
    assert IsDigit(Decimal(n)[0]);
  }

  // ---- Printing ----

  datatype Host = Name(text: string) | Bracketed(text: string)

  datatype Url = Url(scheme: string, user: Option<string>, host: Host, port: Option<nat>, path: string)

  function PrintHost(h: Host, port: Option<nat>): string {
    (if h.Name? then h.text else "[" + h.text + "]") + (if port.Some? then ":" + Decimal(port.value) else "")
  }

  function PrintUser(user: Option<string>): string {
    if user.Some? then user.value + "@" else ""
  }

  function PrintUrl(a: Url): string {
    a.scheme + "://" + (PrintUser(a.user) + PrintHost(a.host, a.port) + a.path)
  }

  predicate Without(s: string, cs: string) {
    forall c <- s :: c !in cs
  }

  predicate HostOk(h: Host) {
    h.text != "" && if h.Name? then Without(h.text, "/@:") && h.text[0] != '[' else Without(h.text, "/@]")
  }

  /** The parts are free of the characters that delimit them. */
  predicate UrlOk(a: Url) {
    && Without(a.scheme, ":") && a.scheme != "file" && (a.scheme != "" ==> a.scheme[0] != '/' && a.scheme[0] != '.')
    && (a.user.Some? ==> Without(a.user.value, "/@"))
    && HostOk(a.host)
    && (a.port.Some? ==> a.port.value <= 65535)
    && (a.path != "" ==> a.path[0] == '/')
  }

  /** The printed port, or the scheme's; after a plain name port 0 counts as none. */
  function PortOf(a: Url): int {
    if a.port.Some? && (a.port.value != 0 || a.host.Bracketed?) then a.port.value else UsualPort(a.scheme)
  }

  /** The well-known port of a scheme. */
  function UsualPort(scheme: string): int {
    if scheme == "https" then 443
    else if scheme == "http" then 80
    else if scheme == "git" then 9418
    else if scheme == "ssh" then 22
    else 0
  }

  lemma UsualPortIs(scheme: string)
    ensures UsualPort(scheme) == DefaultPort(scheme)
  {
  }

  // ---- Round trips ----

  lemma FindAbsent(s: string, c: char)
    requires c !in s
    ensures Find(s, c) == -1
  {
  }

  lemma UpToFirst(a: string, c: char, b: string)
    requires c !in a && (b == "" || b[0] == c)
    ensures UpTo(a + b, c) == a
  {
    if b == "" {
      assert a + b == a;
      FindAbsent(a, c);
    } else {
      assert a + b == a + [c] + b[1..];
      FindFirst(a, c, b[1..]);
    }
  }

  lemma {:induction false} SchemeEnds(scheme: string, rest: string)
    requires ':' !in scheme
    ensures FindText(scheme + "://" + rest, "://") == |scheme|
  {
    var u := scheme + "://" + rest;
    if scheme == "" {
      assert u[..3] == "://";
    } else {
      assert u[0] == scheme[0];
      assert u[1..] == scheme[1..] + "://" + rest;
      SchemeEnds(scheme[1..], rest);
    }
  }

  lemma FileScheme(u: string)
    requires "file://" <= u
    ensures FindText(u, "://") == 4 && u[..4] == "file"
  {
    var rest := u[7..];
    assert u == "file" + "://" + rest;
    SchemeEnds("file", rest);
  }

  lemma UserStripped(user: Option<string>, host: string, path: string)
    requires user.Some? ==> Without(user.value, "/@")
    requires '@' !in host && '/' !in host && (path != "" ==> path[0] == '/')
    ensures UpTo(AfterUser(PrintUser(user) + host + path), '/') == host
  {
    var rest := PrintUser(user) + host + path;
    if user.Some? {
      var name := user.value;
      assert '@' in "/@" && '/' in "/@";
      assert rest == name + ['@'] + (host + path);
      FindFirst(name, '@', host + path);
      SlashAfter(name + ['@'], host + path);
      assert rest[|name| + 1..] == host + path;
    } else {
      assert rest == host + path;
      NoUser(host, path);
    }
    UpToFirst(host, '/', path);
  }

  lemma SlashAfter(a: string, b: string)
    requires '/' !in a
    ensures Find(a + b, '/') < 0 || Find(a + b, '/') >= |a|
  {
    forall k | 0 <= k < |a| ensures (a + b)[k] != '/' { assert a[k] in a; }
  }

  lemma NoUser(host: string, path: string)
    requires '@' !in host && '/' !in host && (path != "" ==> path[0] == '/')
    ensures AfterUser(host + path) == host + path
  {
    if path == "" {
      assert host + path == host;
      FindAbsent(host, '@');
    } else {
      assert host + path == host + ['/'] + path[1..];
      FindFirst(host, '/', path[1..]);
      forall k | 0 <= k <= |host| ensures (host + path)[k] != '@' {
        if k < |host| { assert host[k] in host; }
      }
    }
  }

  lemma {:induction false} LastColon(a: string, digits: string)
    requires ':' !in digits
    ensures RFind(a + [':'] + digits, ':') == |a|
    decreases |digits|
  {
    var s := a + [':'] + digits;
    if digits == "" {
      assert s[|s| - 1] == ':';
    } else {
      var init := digits[..|digits| - 1];
      assert s[|s| - 1] == digits[|digits| - 1] && s[..|s| - 1] == a + [':'] + init;
      LastColon(a, init);
    }
  }

  lemma NoColon(s: string)
    requires ':' !in s
    ensures RFind(s, ':') == -1
  {
  }

  lemma PlainHostReads(text: string, port: Option<nat>, defaultPort: int)
    requires HostOk(Name(text))
    ensures HostPortOf(PrintHost(Name(text), port), defaultPort) ==
            Some(HostPort(text, if port.None? || port.value == 0 then defaultPort else port.value))
  {
    assert ':' in "/@:";
    var s := PrintHost(Name(text), port);
    assert s[0] == text[0];
    if port.Some? {
      var digits := Decimal(port.value);
      assert s == text + [':'] + digits;
      assert ':' !in digits;
      LastColon(text, digits);
      FindFirst(text, ':', digits);
      assert s[|text| + 1..] == digits && s[..|text|] == text;
      AtoiUndoesDecimal(port.value);
    } else {
      assert s == text;
      NoColon(text);
    }
  }

  lemma BracketedHostReads(text: string, port: Option<nat>, defaultPort: int)
    requires HostOk(Bracketed(text))
    ensures HostPortOf(PrintHost(Bracketed(text), port), defaultPort) ==
            Some(HostPort(text, if port.None? then defaultPort else port.value))
  {
    assert ']' in "/@]";
    var tail := if port.Some? then ":" + Decimal(port.value) else "";
    var s := PrintHost(Bracketed(text), port);
    assert s == ("[" + text) + [']'] + tail;
    FindFirst("[" + text, ']', tail);
    assert s[1..|text| + 1] == text;
    if port.Some? {
      assert s[|text| + 3..] == Decimal(port.value);
      AtoiUndoesDecimal(port.value);
    }
  }

  lemma HostReads(h: Host, port: Option<nat>, defaultPort: int)
    requires HostOk(h)
    ensures HostPortOf(PrintHost(h, port), defaultPort) ==
            Some(HostPort(h.text, if port.None? || (port.value == 0 && h.Name?) then defaultPort else port.value))
    ensures '/' !in PrintHost(h, port) && '@' !in PrintHost(h, port)
  {
    assert '/' in "/@:" && '@' in "/@:" && '/' in "/@]" && '@' in "/@]";
    if port.Some? {
      assert '/' !in Decimal(port.value) && '@' !in Decimal(port.value);
    }
    if h.Name? {
      PlainHostReads(h.text, port, defaultPort);
    } else {
      BracketedHostReads(h.text, port, defaultPort);
    }
  }

  /** Parsing a printed URL gives back its host and port, or the scheme's port when none was
      given. */
  lemma UrlRoundTrip(a: Url)
    requires UrlOk(a)
    ensures ParseAddress(PrintUrl(a)) == Some(HostPort(a.host.text, PortOf(a)))
  {
    var hostport := PrintHost(a.host, a.port);
    assert ':' in ":";
    UrlSplits(a.scheme, PrintUser(a.user) + hostport + a.path);
    HostReads(a.host, a.port, DefaultPort(a.scheme));
    UsualPortIs(a.scheme);
    UserStripped(a.user, hostport, a.path);
  }

  lemma UrlNotLocal(u: string, scheme: string, rest: string)
    requires u == scheme + "://" + rest && FindText(u, "://") == |scheme|
    requires scheme != "file" && (scheme != "" ==> scheme[0] != '/' && scheme[0] != '.')
    ensures u != "" && !IsLocal(u)
  {
    assert u[0] == if scheme == "" then ':' else scheme[0];
    assert u[..|scheme|] == scheme;
    if "file://" <= u {
      FileScheme(u);
    }
  }

  lemma UrlSplits(scheme: string, rest: string)
    requires ':' !in scheme && scheme != "file" && (scheme != "" ==> scheme[0] != '/' && scheme[0] != '.')
    ensures ParseAddress(scheme + "://" + rest) == UrlHost(scheme, rest)
  {
    var u := scheme + "://" + rest;
    SchemeEnds(scheme, rest);
    UrlNotLocal(u, scheme, rest);
    ParsesAt(u, |scheme|, scheme, rest) by {
      assert u[..|scheme|] == scheme && u[|scheme| + 3..] == rest;
    }
  }

  lemma ParsesAt(u: string, k: nat, scheme: string, rest: string)
    requires u != "" && !IsLocal(u) && FindText(u, "://") == k && k + 3 <= |u| && u[..k] == scheme && u[k + 3..] == rest
    ensures ParseAddress(u) == UrlHost(scheme, rest)
  {
  }

  // ---- scp-like addresses ----

  function PrintScp(user: Option<string>, host: string, path: string): string {
    PrintUser(user) + host + ":" + path
  }

  /** What keeps an scp-like address from being read as a URL or a local path. */
  predicate ReadAsScp(u: string) {
    u != "" && FindText(u, "://") < 0 && u[0] != '/' && u[0] != '.'
  }

  lemma ParsesScp(u: string)
    requires ReadAsScp(u)
    ensures ParseAddress(u) == ScpHost(u)
  {
    if "file://" <= u {
      FileScheme(u);
    }
  }

  lemma ScpAfterUser(user: string, host: string, path: string)
    requires '@' !in user
    ensures ScpHost(user + "@" + host + ":" + path) == ScpBefore(host)
  {
    var u, rest := user + "@" + host + ":" + path, host + ":" + path;
    assert u == user + ['@'] + rest;
    FindFirst(user, '@', rest);
    assert u[|user| + 1..] == rest;
    UpToColon(host, path);
  }

  lemma ScpAlone(host: string, path: string)
    requires '@' !in host && '@' !in path
    ensures ScpHost(host + ":" + path) == ScpBefore(host)
  {
    var u := host + ":" + path;
    FindAbsent(u, '@');
    UpToColon(host, path);
  }

  /** The host is cut at its first colon. */
  function ScpBefore(host: string): Option<HostPort> {
    NonEmptyHost(HostPort(UpTo(host, ':'), 22))
  }

  lemma UpToColon(host: string, path: string)
    ensures UpTo(host + ":" + path, ':') == UpTo(host, ':')
  {
    var k := Find(host, ':');
    if k < 0 {
      UpToFirst(host, ':', ":" + path);
      assert host + ":" + path == host + (":" + path);
    } else {
      var before, after := host[..k], host[k + 1..];
      assert ':' !in before;
      FindFirst(before, ':', after + ":" + path);
      assert host + ":" + path == before + [':'] + (after + ":" + path);
      assert (host + ":" + path)[..k] == before;
    }
  }

  lemma CutIff(host: string)
    requires host != ""
    ensures ScpBefore(host) == Some(HostPort(host, 22)) <==> ':' !in host
  {
    if ':' in host {
      assert ':' !in UpTo(host, ':');
    } else {
      FindAbsent(host, ':');
    }
  }

  /** With a user, or without an `@` in the path, the host of a printed scp-like address is found
      just when it has no colon; otherwise it is cut at its first one. */
  lemma ScpRoundTrip(u: string, user: Option<string>, host: string, path: string)
    requires u == PrintScp(user, host, path) && ReadAsScp(u)
    requires host != "" && '@' !in host
    requires if user.Some? then '@' !in user.value else '@' !in path
    ensures ParseAddress(u) == ScpBefore(host)
    ensures ParseAddress(u) == Some(HostPort(host, 22)) <==> ':' !in host
  {
    CutIff(host);
    calc {
      ParseAddress(u);
      { ParsesScp(u); }
      ScpHost(u);
      { PrintedScp(u, user, host, path); }
      ScpBefore(host);
    }
  }

  lemma PrintedScp(u: string, user: Option<string>, host: string, path: string)
    requires u == PrintScp(user, host, path) && '@' !in host
    requires if user.Some? then '@' !in user.value else '@' !in path
    ensures ScpHost(u) == ScpBefore(host)
  {
    if user.Some? {
      ScpAfterUser(user.value, host, path);
    } else {
      ScpAlone(host, path);
      assert u == host + ":" + path;
    }
  }

  /** A bracketed IPv6 literal is therefore cut inside its brackets. */
  lemma ScpBracketed(u: string, user: Option<string>, addr: string, path: string)
    requires u == PrintScp(user, "[" + addr + "]", path) && ReadAsScp(u)
    requires ':' in addr && '@' !in addr
    requires if user.Some? then '@' !in user.value else '@' !in path
    ensures ParseAddress(u) == Some(HostPort("[" + UpTo(addr, ':'), 22))
  {
    ScpRoundTrip(u, user, "[" + addr + "]", path);
    CutInside(addr);
  }

  lemma CutInside(addr: string)
    requires ':' in addr
    ensures UpTo("[" + addr + "]", ':') == "[" + UpTo(addr, ':')
  {
    var k := Find(addr, ':');
    var before, after := addr[..k], addr[k + 1..];
    assert ':' !in "[" + before;
    FindFirst("[" + before, ':', after + "]");
    assert "[" + addr + "]" == ("[" + before) + [':'] + (after + "]");
    assert ("[" + addr + "]")[..k + 1] == "[" + before;
  }

  /** Without a user and with an `@` in the path, the host is found just when what follows the
      first `@` begins like it; otherwise that is taken for the host. */
  lemma ScpHostFromPath(u: string, host: string, before: string, after: string)
    requires u == PrintScp(None, host, before + "@" + after) && ReadAsScp(u)
    requires host != "" && '@' !in host && '@' !in before
    ensures ParseAddress(u) == NonEmptyHost(HostPort(UpTo(after, ':'), 22))
    ensures ParseAddress(u) == Some(HostPort(host, 22)) <==> UpTo(after, ':') == host
  {
    calc {
      ParseAddress(u);
      { ParsesScp(u); }
      ScpHost(u);
      { PrintedAt(u, host, before, after); }
      NonEmptyHost(HostPort(UpTo(after, ':'), 22));
    }
  }

  lemma PrintedAt(u: string, host: string, before: string, after: string)
    requires u == PrintScp(None, host, before + "@" + after) && '@' !in host && '@' !in before
    ensures ScpHost(u) == NonEmptyHost(HostPort(UpTo(after, ':'), 22))
  {
    AtRegroups(host, before, after);
    ScpBehindAt(host + ":" + before, after);
  }

  lemma AtRegroups(host: string, before: string, after: string)
    ensures PrintScp(None, host, before + "@" + after) == (host + ":" + before) + "@" + after
  {
    assert "" + host == host;
  }

  lemma ScpBehindAt(before: string, after: string)
    requires '@' !in before
    ensures ScpHost(before + "@" + after) == NonEmptyHost(HostPort(UpTo(after, ':'), 22))
  {
    var u := before + ['@'] + after;
    FindFirst(before, '@', after);
    assert u[|before| + 1..] == after;
    assert before + "@" + after == u;
  }

  // ---- Addresses that are not as printed ----

  /** A text that is empty or local names no host. */
  lemma LocalHasNone(u: string, path: string)
    ensures u == "" || u == "/" + path || u == "." + path || u == "file://" + path ==> ParseAddress(u) == None
  {
    assert u == "file://" + path ==> "file://" <= u;
  }

  /** What stands for the host in a URL: everything between the slashes, behind the user. */
  lemma AuthorityReads(scheme: string, user: Option<string>, hostport: string, path: string)
    requires Without(scheme, ":") && scheme != "file" && (scheme != "" ==> scheme[0] != '/' && scheme[0] != '.')
    requires (user.Some? ==> Without(user.value, "/@")) && Without(hostport, "/@") && (path != "" ==> path[0] == '/')
    ensures ParseAddress(scheme + "://" + (PrintUser(user) + hostport + path))
         == HostPortOf(hostport, UsualPort(scheme))
  {
    assert ':' in ":" && '/' in "/@" && '@' in "/@";
    UsualPortIs(scheme);
    UrlSplits(scheme, PrintUser(user) + hostport + path);
    UserStripped(user, hostport, path);
  }

  /** Of an unbracketed text with several colons everything is the host; without any host there is no
      answer, nor for a bracket that is not closed. */
  lemma OddHosts(text: string, defaultPort: int)
    ensures Find(text, ':') != RFind(text, ':') && text != "" && text[0] != '[' ==>
              HostPortOf(text, defaultPort) == Some(HostPort(text, defaultPort))
    ensures ']' !in text ==> HostPortOf("[" + text, defaultPort) == None
    ensures HostPortOf("", defaultPort) == None && (':' !in text ==> HostPortOf(":" + text, defaultPort) == None)
    ensures HostPortOf("[]" + text, defaultPort) == None
  {
    if ']' !in text { FindAbsent("[" + text, ']'); }
    NothingBeforeColon(text, defaultPort);
    EmptyBrackets("[]" + text, text, defaultPort);
  }

  lemma EmptyBrackets(s: string, text: string, defaultPort: int)
    requires s == "[]" + text
    ensures HostPortOf(s, defaultPort) == None
  {
    assert s == "[" + [']'] + text;
    FindFirst("[", ']', text);
    assert s[1..1] == "";
  }

  lemma NothingBeforeColon(text: string, defaultPort: int)
    ensures ':' !in text ==> HostPortOf(":" + text, defaultPort) == None
  {
    if ':' !in text {
      LastColon("", text);
      FindFirst("", ':', text);
      assert "" + [':'] + text == ":" + text;
    }
  }

  /** A port is read as far as it has digits; nothing, zero and, behind a plain name, a negative
      number stand for the scheme's port. */
  lemma OddPorts(text: string, n: nat, junk: string, defaultPort: int)
    requires HostOk(Name(text)) && ':' !in junk && (junk != "" ==> !IsDigit(junk[0]))
    ensures HostPortOf(text + ":" + (Decimal(n) + junk), defaultPort)
         == Some(HostPort(text, if n == 0 then defaultPort else n))
    ensures HostPortOf(text + ":-" + (Decimal(n) + junk), defaultPort) == Some(HostPort(text, defaultPort))
    ensures junk != "" && !IsSpace(junk[0]) && junk[0] != '-' && junk[0] != '+' ==>
              HostPortOf(text + ":" + junk, defaultPort) == Some(HostPort(text, defaultPort))
  {
    AtoiStops(n, junk);
    var digits := Decimal(n) + junk;
    NoColonIn(n, junk);
    PlainSplits(text, digits, defaultPort);
    PlainSplits(text, "-" + digits, defaultPort);
    MinusRegroups(text, digits);
    PlainSplits(text, junk, defaultPort);
  }

  lemma NoColonIn(n: nat, junk: string)
    requires ':' !in junk
    ensures ':' !in Decimal(n) + junk && ':' !in "-" + (Decimal(n) + junk)
  {
  }

  lemma MinusRegroups(text: string, digits: string)
    ensures text + ":-" + digits == text + ":" + ("-" + digits)
  {
  }

  /** A bracketed host has the port as it was read, even when that is negative. */
  lemma BracketedPorts(text: string, n: nat, junk: string, defaultPort: int)
    requires HostOk(Bracketed(text)) && (junk != "" ==> !IsDigit(junk[0]))
    ensures HostPortOf("[" + text + "]:-" + (Decimal(n) + junk), defaultPort) == Some(HostPort(text, 0 - n as int))
  {
    AtoiStops(n, junk);
    var port := "-" + (Decimal(n) + junk);
    assert "[" + text + "]:-" + (Decimal(n) + junk) == "[" + text + "]:" + port;
    BracketedSplits("[" + text + "]:" + port, text, port, defaultPort);
  }

  lemma BracketedSplits(s: string, text: string, port: string, defaultPort: int)
    requires HostOk(Bracketed(text)) && s == "[" + text + "]:" + port
    ensures HostPortOf(s, defaultPort) == Some(HostPort(text, Atoi(port)))
  {
    assert ']' in "/@]";
    assert s == ("[" + text) + [']'] + (":" + port);
    FindFirst("[" + text, ']', ":" + port);
    assert s[1..|text| + 1] == text && s[|text| + 3..] == port;
  }

  lemma PlainSplits(text: string, port: string, defaultPort: int)
    requires HostOk(Name(text)) && ':' !in port
    ensures HostPortOf(text + ":" + port, defaultPort)
         == Some(HostPort(text, if Atoi(port) <= 0 then defaultPort else Atoi(port)))
  {
    assert ':' in "/@:";
    var s := text + ":" + port;
    assert s == text + [':'] + port && s[0] == text[0];
    LastColon(text, port);
    FindFirst(text, ':', port);
    assert s[|text| + 1..] == port && s[..|text|] == text;
  }

  lemma {:induction false} DigitsThenJunk(s: string, junk: string, value: int)
    requires (forall d <- s :: IsDigit(d)) && (junk != "" ==> !IsDigit(junk[0]))
    ensures DigitsFrom(s + junk, value) == DigitsFrom(s, value)
  {
    if s == "" {
      assert s + junk == junk;
    } else {
      assert (s + junk)[1..] == s[1..] + junk;
      DigitsThenJunk(s[1..], junk, 10 * value + (s[0] as int - '0' as int));
    }
  }

  /** `atoi` takes a sign and reads up to the first character that is no digit; blanks before it are
      skipped. */
  lemma AtoiStops(n: nat, junk: string)
    requires junk != "" ==> !IsDigit(junk[0])
    ensures Atoi(Decimal(n) + junk) == n && Atoi("-" + (Decimal(n) + junk)) == 0 - n as int
    ensures Atoi("+" + (Decimal(n) + junk)) == n
    ensures junk != "" && !IsSpace(junk[0]) && junk[0] != '-' && junk[0] != '+' ==> Atoi(junk) == 0
  {
    DecimalReads(n);
    DigitsThenJunk(Decimal(n), junk, 0);
    var s := Decimal(n) + junk;
    assert s[0] == Decimal(n)[0] && IsDigit(Decimal(n)[0]);
    assert ("-" + s)[1..] == s && ("+" + s)[1..] == s;
  }

  lemma {:induction false} AtoiSkips(blanks: string, s: string)
    requires forall c <- blanks :: c in " \t\n\r" || c == 11 as char || c == 12 as char
    ensures Atoi(blanks + s) == Atoi(s)
  {
    if blanks == "" {
      assert blanks + s == s;
    } else {
      assert (blanks + s)[1..] == blanks[1..] + s && blanks[0] in blanks;
      AtoiSkips(blanks[1..], s);
    }
  }
}
