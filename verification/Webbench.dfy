/** The benchmark client's request printer, and the server's parser reading it. */
module Webbench {
  import opened CStrings
  import opened HttpMachine
  import opened HttpMessage
  import Response
  import HttpSplit
  import Sequences

  const REQUEST_SIZE: nat := 2048
  const MAXHOSTNAMELEN: nat := 64
  const PORT_SIZE: nat := 10
  const USER_AGENT: string := "User-Agent: WebBench 1.5"

  datatype Verb = VGet | VHead | VOptions | VTrace

  /** Exit2 is exit(2) with a message; Overrun is a copy past the end of `host` or `tmp`. */
  datatype Outcome = Built | Exit2 | Overrun

  function VerbName(v: Verb): string
  {
    match v
    case VGet => "GET"
    case VHead => "HEAD"
    case VOptions => "OPTIONS"
    case VTrace => "TRACE"
  }

  /** strstr(url, "://"): an index, or |url| where C returns NULL. */
  function FindScheme(url: string): (n: nat)
    ensures n <= |url| && (n < |url| ==> n + 3 <= |url|)
  {
    if |url| < 3 then |url|
    else if url[..3] == "://" then 0
    else var n := FindScheme(url[1..]); n + 1
  }

  /** Whether HTTP version `v` (0 for 0.9, 1 for 1.0, 2 for 1.1) will do for the method, and
      for a request that tells a proxy not to use its cache. */
  predicate VersionFits(verb: Verb, noCache: bool, v: int)
  {
    && (verb == VHead ==> v >= 1)
    && (verb == VOptions || verb == VTrace ==> v >= 2)
    && (noCache ==> v >= 1)
  }

  class Bench {
    var host: string
    var request: string
    var http10: int
    var verb: Verb
    var forceReload: bool
    var proxyhost: Option<string>
    var proxyport: int

    constructor ()
      ensures http10 == 1 && verb == VGet && !forceReload && proxyhost == None
    {
      host, request, http10, verb := "", "", 1, VGet;
      forceReload, proxyhost, proxyport := false, None, 80;
    }

    /** Prints the request for `url`.  Whatever the options, what is printed fits its buffer. */
    method BuildRequest(url: string) returns (o: Outcome)
      requires NUL !in url
      modifies this`host, this`request, this`http10, this`proxyport
      ensures o.Built? ==> |request| < REQUEST_SIZE
      ensures old(http10) <= http10 && VersionFits(verb, forceReload && proxyhost.Some?, http10)
      ensures http10 > old(http10) ==> !VersionFits(verb, forceReload && proxyhost.Some?, http10 - 1)
      ensures proxyhost.None? ==> o == DirectOutcome(url)
      ensures proxyhost.None? ==> (o == Exit2 <==> !StartsNoCase(url, "http://") || |url| > 1500 || '/' !in url[7..])
      ensures proxyhost.None? && o.Built? ==> request == RequestText(verb, http10, PathOf(url[7..]), HostOf(url[7..]))
      ensures proxyhost.None? && o.Built? ==> proxyport == ConnectPort(url[7..], old(proxyport))
      ensures proxyhost.Some? ==> o == ProxyOutcome(url)
      ensures proxyhost.Some? && o.Built? ==> request == ProxyText(verb, http10, url, forceReload)
    {
      hide StartsNoCase, Find, FindScheme, HostOf, PortOf, WithHeaders, WithProxyHeaders;
      assert proxyhost.None? ==> (DirectOutcome(url) == Exit2 <==> !StartsNoCase(url, "http://") || |url| > 1500 || '/' !in url[7..]);
      host, request := "", "";
      ForceVersion();
      request := VerbName(verb);
      request := request + " ";
      var ok := CheckUrl(url);
      if !ok { return Exit2; }
      var t := url[FindScheme(url) + 3..];
      if proxyhost.None? {
        var fits := CopyHost(t);
        if !fits { return Overrun; }
        request := request + t[Find(t, '/')..];
      } else {
        request := request + url;
      }
      AppendHeaders();
      return Built;
    }

    /** Takes the least version from the wanted one on that will do. */
    method ForceVersion()
      modifies this`http10
      ensures old(http10) <= http10 && VersionFits(verb, forceReload && proxyhost.Some?, http10)
      ensures http10 > old(http10) ==> !VersionFits(verb, forceReload && proxyhost.Some?, http10 - 1)
    {
      if forceReload && proxyhost.Some? && http10 < 1 { http10 := 1; }
      if verb.VHead? && http10 < 1 { http10 := 1; }
      if verb.VOptions? && http10 < 2 { http10 := 2; }
      if verb.VTrace? && http10 < 2 { http10 := 2; }
    }

    /** The tests that end the client with an error message. */
    method CheckUrl(url: string) returns (ok: bool)
      requires NUL !in url
      ensures ok ==> |url| <= 1500 && FindScheme(url) < |url| && Find(url[FindScheme(url) + 3..], '/') < |url| - FindScheme(url) - 3
      ensures proxyhost.None? ==> (ok <==> DirectOutcome(url) != Exit2) && (ok ==> FindScheme(url) == 4)
      ensures proxyhost.Some? ==> (ok <==> ProxyOutcome(url) == Built)
    {
      hide StartsNoCase, Find, FindScheme, HostOf, PortOf;
      if StartsNoCase(url, "http://") { SchemeAtFour(url); }
      if FindScheme(url) == |url| { return false; }
      if |url| > 1500 { return false; }
      if proxyhost.None? && !StartsNoCase(url, "http://") { return false; }
      var t := url[FindScheme(url) + 3..];
      if Find(t, '/') == |t| { return false; }
      assert t[Find(t, '/')] in t;
      return true;
    }

    /** Copies host and port out of the URL behind its scheme. */
    method CopyHost(t: string) returns (fits: bool)
      requires Find(t, '/') < |t|
      modifies this`host, this`proxyport
      ensures fits <==> |HostOf(t)| < MAXHOSTNAMELEN && |PortOf(t)| < PORT_SIZE
      ensures fits ==> host == HostOf(t) && proxyport == ConnectPort(t, old(proxyport))
      ensures fits && ':' !in t[..Find(t, '/')] ==> host == t[..Find(t, '/')] && proxyport == old(proxyport)
    {
      if Find(t, ':') < |t| && Find(t, ':') < Find(t, '/') {
        if Find(t, ':') >= MAXHOSTNAMELEN { return false; }
        host := t[..Find(t, ':')];
        var port := t[Find(t, ':') + 1..Find(t, '/')];
        if |port| >= PORT_SIZE { return false; }
        proxyport := Atoi(port);
        if proxyport == 0 { proxyport := 80; }
      } else {
        if Find(t, '/') >= MAXHOSTNAMELEN { return false; }
        host := t[..Find(t, '/')];
      }
      return true;
    }

    /** The version, the headers and the empty line. */
    method AppendHeaders()
      requires |request| <= 1508 && |host| < MAXHOSTNAMELEN
      modifies this`request
      ensures |request| < REQUEST_SIZE
      ensures proxyhost.None? ==> request == WithHeaders(old(request), http10, host)
      ensures proxyhost.Some? ==> request == WithProxyHeaders(old(request), http10, forceReload)
    {
      hide WithHeaders;
      if proxyhost.None? { HeadersFollow(request, http10, host); }
      if http10 == 1 {
        request := request + " HTTP/1.0";
      } else if http10 == 2 {
        request := request + " HTTP/1.1";
      }
      request := request + "\r\n";
      if http10 > 0 { request := request + (USER_AGENT + "\r\n"); }
      if proxyhost.None? && http10 > 0 {
        request := request + "Host: ";
        request := request + host;
        request := request + "\r\n";
      }
      if forceReload && proxyhost.Some? { request := request + "Pragma: no-cache\r\n"; }
      if http10 > 1 { request := request + ("Connection: close" + "\r\n"); }
      if http10 > 0 { request := request + "\r\n"; }
    }
  }

  lemma {:induction false} FindSchemeAt(url: string, k: nat)
    requires k + 3 <= |url| && url[k..k + 3] == "://" && (forall j | 0 <= j < k :: url[j] != ':')
    ensures FindScheme(url) == k
  {
    if k > 0 {
      assert url[..3][0] == url[0];
      assert url[1..][k - 1..k + 2] == url[k..k + 3];
      FindSchemeAt(url[1..], k - 1);
    }
  }

  /** "http://" leaves the first "://" at index 4. */
  lemma SchemeAtFour(url: string)
    requires StartsNoCase(url, "http://")
    ensures FindScheme(url) == 4
  {
    hide EqNoCase;
    forall i | 0 <= i < 7 ensures Lower(url[i]) == Lower("http://"[i]) {
      StartsNoCaseAt(url, "http://", i);
    }
    assert url[4..7] == "://";
    FindSchemeAt(url, 4);
  }

  function HostOf(t: string): string
  {
    if Find(t, ':') < Find(t, '/') then t[..Find(t, ':')] else t[..Find(t, '/')]
  }

  function PortOf(t: string): string
  {
    if Find(t, ':') < Find(t, '/') then t[Find(t, ':') + 1..Find(t, '/')] else ""
  }

  /** The port to connect to: the URL's, 80 where atoi makes 0 of it, else as before. */
  function ConnectPort(t: string, before: int): int
  {
    if Find(t, ':') >= Find(t, '/') then before else if Atoi(PortOf(t)) == 0 then 80 else Atoi(PortOf(t))
  }

  /** Without a proxy: which URLs are accepted. */
  function DirectOutcome(url: string): Outcome
  {
    if !StartsNoCase(url, "http://") || |url| > 1500 || '/' !in url[7..] then Exit2
    else if |HostOf(url[7..])| >= MAXHOSTNAMELEN || |PortOf(url[7..])| >= PORT_SIZE then Overrun
    else Built
  }

  function PathOf(t: string): string { t[Find(t, '/')..] }

  function Versioned(line: string, http10: int): string
  {
    if http10 == 1 then line + " HTTP/1.0" else if http10 == 2 then line + " HTTP/1.1" else line
  }

  function Headers(http10: int, host: string): string
  {
    if http10 <= 0 then ""
    else
      var s := (USER_AGENT + CRLF) + "Host: " + host + CRLF;
      if http10 > 1 then s + ("Connection: close" + CRLF) + CRLF else s + CRLF
  }

  function WithHeaders(line: string, http10: int, host: string): string
  {
    Versioned(line, http10) + CRLF + Headers(http10, host)
  }

  /** Without a proxy: the text of the request. */
  function RequestText(v: Verb, http10: int, path: string, host: string): string
  {
    WithHeaders(VerbName(v) + " " + path, http10, host)
  }

  /** To a proxy any scheme will do, and host and port are not looked at. */
  function ProxyOutcome(url: string): Outcome
  {
    if FindScheme(url) == |url| || |url| > 1500 || '/' !in url[FindScheme(url) + 3..] then Exit2 else Built
  }

  function WithProxyHeaders(line: string, http10: int, reload: bool): string
  {
    var r := Versioned(line, http10) + CRLF;
    var s := if http10 > 0 then r + (USER_AGENT + CRLF) else r;
    var t := if reload then s + "Pragma: no-cache\r\n" else s;
    var u := if http10 > 1 then t + ("Connection: close" + CRLF) else t;
    if http10 > 0 then u + CRLF else u
  }

  /** To a proxy: the whole URL, and no host line. */
  function ProxyText(v: Verb, http10: int, url: string, reload: bool): string
  {
    WithProxyHeaders(VerbName(v) + " " + url, http10, reload)
  }

  // ---- the texts, written out ------------------------------------------------------------

  predicate SchemeAt(url: string, i: nat)
  {
    i + 3 <= |url| && url[i] == ':' && url[i + 1] == '/' && url[i + 2] == '/'
  }

  /** strstr finds the first "://". */
  lemma {:induction false} SchemeIsFirst(url: string)
    ensures var n := FindScheme(url); (forall i: nat | i < n :: !SchemeAt(url, i)) && (n < |url| ==> SchemeAt(url, n))
    decreases |url|
  {
    if |url| >= 3 {
      assert url[..3] == "://" <==> SchemeAt(url, 0);
      if url[..3] != "://" {
        SchemeIsFirst(url[1..]);
        assert forall i: nat | i > 0 :: SchemeAt(url, i) <==> SchemeAt(url[1..], i - 1);
      }
    }
  }

  /** The port a URL names is the one connected to; none, or zero, leaves the default. */
  lemma PortRead(host: string, n: nat, path: string, before: int)
    requires HostName(host) && Path(path) && |Response.PrintNat(n)| < PORT_SIZE && n < INT_LIMIT
    ensures ConnectPort(host + ":" + Response.PrintNat(n) + path, before) == if n == 0 then 80 else n
    ensures ConnectPort(host + path, before) == before
  {
    hide Find;
    var p := Response.PrintNat(n);
    var t, a := host + ":" + p + path, host + ":" + p;
    assert t[..|a|] == a && t[|a|..] == path && '/' !in a;
    FindUnique(t, '/', |a|);
    assert t[..|host|] == host && t[|host|] == ':';
    FindUnique(t, ':', |host|);
    assert t[|host| + 1..|a|] == p;
    Response.PrintedIntReadsBack(n);
    assert Response.PrintInt(n) == p;
    NoPort(host, path);
  }

  lemma NoPort(host: string, path: string)
    requires HostName(host) && Path(path)
    ensures Find(host + path, ':') >= Find(host + path, '/')
  {
    hide Find;
    var t := host + path;
    assert t[..|host|] == host && t[|host|..] == path;
    FindUnique(t, '/', |host|);
  }

  /** What is printed to a server for each version, by the method's name. */
  lemma DirectText(v: Verb, path: string, host: string)
    ensures v == VGet || v == VHead || v == VOptions || v == VTrace
    ensures var name := if v == VGet then "GET" else if v == VHead then "HEAD" else if v == VOptions then "OPTIONS" else "TRACE";
            var line := name + " " + path;
            var headers := "User-Agent: WebBench 1.5\r\n" + "Host: " + host + "\r\n";
            && RequestText(v, 0, path, host) == line + "\r\n" + ""
            && RequestText(v, 1, path, host) == line + " HTTP/1.0" + "\r\n" + (headers + "\r\n")
            && RequestText(v, 2, path, host) == line + " HTTP/1.1" + "\r\n" + (headers + "Connection: close\r\n" + "\r\n")
  {
    AgentCloses();
  }

  lemma AgentCloses()
    ensures USER_AGENT + CRLF == "User-Agent: WebBench 1.5\r\n" && "Connection: close" + CRLF == "Connection: close\r\n"
  {
  }

  /** And to a proxy. */
  lemma ProxiedText(v: Verb, url: string, reload: bool)
    ensures var name := if v == VGet then "GET" else if v == VHead then "HEAD" else if v == VOptions then "OPTIONS" else "TRACE";
            var line := name + " " + url;
            var pragma := if reload then "Pragma: no-cache\r\n" else "";
            && ProxyText(v, 0, url, reload) == line + "\r\n" + pragma
            && ProxyText(v, 1, url, reload) == line + " HTTP/1.0" + "\r\n" + "User-Agent: WebBench 1.5\r\n" + pragma + "\r\n"
            && ProxyText(v, 2, url, reload) ==
                 line + " HTTP/1.1" + "\r\n" + "User-Agent: WebBench 1.5\r\n" + pragma + "Connection: close\r\n" + "\r\n"
  {
    AgentCloses();
  }

  // ---- the URL taken apart ------------------------------------------------------------

  predicate HostName(host: string)
  {
    OneLine(host) && NUL !in host && '/' !in host && ':' !in host && forall i | 0 <= i < |host| :: !Blank(host[i])
  }

  /** A path that is one word on one line. */
  predicate Path(path: string)
  {
    Word(path) && OneLine(path) && path[0] == '/'
  }

  /** host, or host:port. */
  function Authority(host: string, port: Option<string>): string
  {
    if port.Some? then host + ":" + port.value else host
  }

  /** A URL printed from its parts is taken apart into them, and is accepted exactly
      when it and its parts fit. */
  lemma UrlTakenApart(host: string, port: Option<string>, path: string)
    requires HostName(host) && Path(path) && (port.Some? ==> '/' !in port.value)
    ensures var url := "http://" + (Authority(host, port) + path);
            && HostOf(url[7..]) == host && PathOf(url[7..]) == path
            && (port.Some? ==> PortOf(url[7..]) == port.value)
            && (DirectOutcome(url) == Built <==>
                  |url| <= 1500 && |host| < MAXHOSTNAMELEN && (port.Some? ==> |port.value| < PORT_SIZE))
  {
    hide EqNoCase;
    var a := Authority(host, port);
    var t := a + path;
    var url := "http://" + t;
    assert url[7..] == t;
    assert t[..|a|] == a && t[|a|..] == path;
    assert '/' !in a;
    FindUnique(t, '/', |a|);
    if port.Some? {
      assert t[..|host|] == host && t[|host|] == ':';
      FindUnique(t, ':', |host|);
      assert t[|host| + 1..|a|] == port.value;
    } else {
      var k := Find(t, ':');
      assert k >= |a|;
    }
    EqNoCaseSelf("http://");
    assert url[..7] == "http://";
    assert t[|a|] in url[7..];
  }

  // ---- what the server makes of the request -------------------------------------------

  function Sent(path: string, host: string): Message
  {
    Message(PlainLine("GET", path), [USER_AGENT, "Host:" + (" " + host), "Connection:" + (" " + "close")], "")
  }

  lemma Assoc(a: string, b: string, c: string)
    ensures a + b + c == a + (b + c)
  {
  }

  /** The header lines appended one after the other. */
  lemma HeadersFollow(line: string, http10: int, host: string)
    ensures var r := Versioned(line, http10) + CRLF;
            var s := r + (USER_AGENT + CRLF) + "Host: " + host + CRLF;
            WithHeaders(line, http10, host) ==
              if http10 <= 0 then r else if http10 > 1 then s + ("Connection: close" + CRLF) + CRLF else s + CRLF
  {
    var a := Versioned(line, http10) + CRLF;
    var s1 := USER_AGENT + CRLF;
    Assoc(a, s1, "Host: ");
    Assoc(a, s1 + "Host: ", host);
    Assoc(a, s1 + "Host: " + host, CRLF);
    var s := s1 + "Host: " + host + CRLF;
    Assoc(a, s, CRLF);
    var c := "Connection: close" + CRLF;
    Assoc(a, s, c);
    Assoc(a, s + c, CRLF);
  }

  lemma LineThenHeaders(line: string, http10: int, host: string)
    ensures WithHeaders(line, http10, host) == Versioned(line, http10) + CRLF + Headers(http10, host)
  {
  }

  lemma PrintOfThree(line: string, a: string, b: string, c: string)
    ensures Print(Message(line, [a, b, c], "")) == line + CRLF + ((a + CRLF) + (b + CRLF) + (c + CRLF) + CRLF)
  {
    assert [a, b, c][1..] == [b, c] && [b, c][1..] == [c] && [c][1..] == [];
    assert PrintHeaders([c]) == c + CRLF + "" == c + CRLF;
    assert PrintHeaders([b, c]) == b + CRLF + (c + CRLF);
    assert PrintHeaders([a, b, c]) == a + CRLF + (b + CRLF + (c + CRLF));
    Assoc(a + CRLF, b + CRLF, c + CRLF);
    assert CRLF + "" == CRLF;
  }

  lemma SentText(path: string, host: string)
    ensures RequestText(VGet, 2, path, host) == Print(Sent(path, host))
  {
    hide WithHeaders, Print;
    var m := Sent(path, host);
    LineThenHeaders("GET" + " " + path, 2, host);
    PrintOfThree(m.line, m.headers[0], m.headers[1], m.headers[2]);
    Assoc("GET", " ", path);
    Assoc("GET", " " + path, " HTTP/1.1");
    Assoc(" ", path, " HTTP/1.1");
    assert " HTTP/1.1" == " " + "HTTP/1.1";
    assert Versioned("GET" + " " + path, 2) == m.line;
    var s1 := USER_AGENT + CRLF;
    Assoc(s1, "Host: ", host);
    Assoc(s1, "Host: " + host, CRLF);
    assert "Host: " == "Host:" + " ";
    Assoc("Host:", " ", host);
    assert "Connection: close" == "Connection:" + (" " + "close");
  }

  lemma LastOfThree(a: string, b: string, c: string, name: string)
    requires !StartsNoCase(CStr(a), name) && !StartsNoCase(CStr(c), name)
    ensures LastValue([a, b, c], name) == LastValue([b], name)
    ensures !StartsNoCase(CStr(b), name) ==> LastValue([b], name) == None
  {
    hide StartsNoCase, CStr;
    assert [a, b, c][1..] == [b, c] && [b, c][1..] == [c] && [c][1..] == [] && [b][1..] == [];
    assert LastValue([c], name) == None;
  }

  /** The three header lines name the host, no length, and no keep-alive. */
  lemma SentHeaders(host: string)
    requires HostName(host)
    ensures var hs := [USER_AGENT, "Host:" + (" " + host), "Connection:" + (" " + "close")];
            && Host(hs) == host && ContentLength(hs) == 0
            && (forall h | h in hs :: OneLine(h) && |CStr(h)| > 0 && !KeepAlive(h))
  {
    hide CStr, StartsNoCase, LastValue, KeepAlive, OneLine, Host, ContentLength;
    var h, c := "Host:" + (" " + host), "Connection:" + (" " + "close");
    OneLineHeaders(host);
    PlainCStr(USER_AGENT);
    PlainCStr(h);
    PlainCStr(c);
    SentHost(host);
    SentNoLength(h, c);
    CloseIsNotKeepAlive();
    NoKeepAlive(USER_AGENT);
    NoKeepAlive(h);
  }

  lemma AgentLine()
    ensures OneLine(USER_AGENT) && NUL !in USER_AGENT
  {
  }

  lemma NameLines()
    ensures OneLine("Host:") && NUL !in "Host:" && OneLine("Connection:") && NUL !in "Connection:"
  {
  }

  lemma ValueLines()
    ensures OneLine(" ") && NUL !in " " && OneLine("close") && NUL !in "close"
  {
  }

  lemma LiteralLines()
    ensures OneLine(USER_AGENT) && NUL !in USER_AGENT
    ensures OneLine("Host:") && NUL !in "Host:" && OneLine(" ") && NUL !in " "
    ensures OneLine("Connection:") && NUL !in "Connection:" && OneLine("close") && NUL !in "close"
  {
    hide OneLine;
    AgentLine();
    NameLines();
    ValueLines();
  }

  lemma OneLineHeaders(host: string)
    requires HostName(host)
    ensures OneLine(USER_AGENT) && OneLine("Host:" + (" " + host)) && OneLine("Connection:" + (" " + "close"))
    ensures NUL !in USER_AGENT && NUL !in "Host:" + (" " + host) && NUL !in "Connection:" + (" " + "close")
  {
    hide OneLine;
    LiteralLines();
    assert OneLine(host);
    JoinLine(" ", host);
    JoinLine("Host:", " " + host);
    JoinLine(" ", "close");
    JoinLine("Connection:", " " + "close");
  }

  lemma SentHost(host: string)
    requires HostName(host)
    ensures Host([USER_AGENT, "Host:" + (" " + host), "Connection:" + (" " + "close")]) == host
  {
    hide CStr, StartsNoCase, Span, LastValue;
    var h, c := "Host:" + (" " + host), "Connection:" + (" " + "close");
    PlainCStr(USER_AGENT);
    PlainCStr(c);
    NotNamed(USER_AGENT, "Host:", 0);
    NotNamed(c, "Host:", 0);
    LastOfThree(USER_AGENT, h, c, "Host:");
    NamedHeader("Host:", " " + host);
    SpanOfBlanks(" ", host);
  }

  lemma SentNoLength(h: string, c: string)
    requires CStr(h) == h && CStr(c) == c && |h| > 0 && Lower(h[0]) != 'c' && |c| > 3 && Lower(c[3]) != 't'
    ensures ContentLength([USER_AGENT, h, c]) == 0
  {
    hide CStr, StartsNoCase, LastValue;
    PlainCStr(USER_AGENT);
    NotNamed(USER_AGENT, "Content-length:", 0);
    NotNamed(h, "Content-length:", 0);
    NotNamed(c, "Content-length:", 3);
    LastOfThree(USER_AGENT, h, c, "Content-length:");
  }

  lemma NoKeepAlive(h: string)
    requires CStr(h) == h && |h| > 0 && Lower(h[0]) != 'c'
    ensures !KeepAlive(h)
  {
    hide StartsNoCase;
    NotNamed(h, "Connection:", 0);
  }

  lemma CloseIsNotKeepAlive()
    ensures !KeepAlive("Connection:" + (" " + "close"))
  {
    hide CStr, Span, StartsNoCase;
    var h := "Connection:" + (" " + "close");
    PlainCStr(h);
    assert h[11..] == " " + "close";
    SpanOfBlanks(" ", "close");
  }

  lemma GetIsMethod()
    ensures ParseMethod("GET") == [GET] && Word("GET")
  {
    EqNoCaseSelf("GET");
  }

  /** The HTTP/1.1 GET request is read back as its path and host. */
  lemma GetRoundTrip(path: string, host: string)
    requires Path(path) && HostName(host)
    ensures var (w, code) := ProcessRead(Feed(Fresh, RequestText(VGet, 2, path, host)));
            && code == GetRequest && w.verb == GET && w.url == (if path == "/" then "/judge.html" else path) && w.host == host
            && !w.linger && w.contentLength == 0 && w.checked == |w.raw| && w.phase.Header?
  {
    hide Run, CStr, ParseRequestLine, ContentLength, Host, KeepAlive, RequestText, Print, Path, HostName, PlainLine;
    var m := Sent(path, host);
    SentLineRead(path);
    SentHeaders(host);
    SentText(path, host);
    assert m.Valid();
    MessageRead(m);
  }

  lemma SentLineRead(path: string)
    requires Path(path)
    ensures OneLine(PlainLine("GET", path))
    ensures ParseRequestLine(PlainLine("GET", path)) == Accepted(GET, if path == "/" then "/judge.html" else path)
  {
    hide ParseRequestLine, ParseMethod;
    GetIsMethod();
    PlainLineRead("GET", path);
  }

  /** Any other method or version is refused: the server wants GET or POST and HTTP/1.1,
      while the client prints HTTP/1.0 unless it is told otherwise. */
  lemma OtherRequestsRefused(v: Verb, http10: int, path: string, host: string)
    requires Path(path) && HostName(host) && !(v.VGet? && http10 == 2)
    ensures ProcessRead(Feed(Fresh, RequestText(v, http10, path, host))).1 == BadRequest
  {
    hide ParseRequestLine, ParseHeader, CStr, RequestText, Run;
    var line, rest := TextHasLine(v, http10, path, host);
    LineRefused(v, http10, path);
    RequestLineStep(Feed(Fresh, RequestText(v, http10, path, host)), line, rest);
  }

  function FirstLine(v: Verb, http10: int, path: string): string
  {
    VerbName(v) + (" " + (path + if http10 == 1 then " HTTP/1.0" else if http10 == 2 then " HTTP/1.1" else ""))
  }

  lemma TextHasLine(v: Verb, http10: int, path: string, host: string) returns (line: string, rest: string)
    requires Path(path)
    ensures line == FirstLine(v, http10, path) && OneLine(line)
    ensures Feed(Fresh, RequestText(v, http10, path, host)).raw == line + CRLF + rest
  {
    hide WithHeaders;
    var r := VerbName(v) + " " + path;
    line := Versioned(r, http10);
    rest := Headers(http10, host);
    LineThenHeaders(r, http10, host);
    Assoc(VerbName(v), " ", path);
    var version := if http10 == 1 then " HTTP/1.0" else if http10 == 2 then " HTTP/1.1" else "";
    assert r + "" == r && path + "" == path;
    Assoc(VerbName(v), " " + path, version);
    Assoc(" ", path, version);
  }

  lemma LineRefused(v: Verb, http10: int, path: string)
    requires Path(path) && !(v.VGet? && http10 == 2)
    ensures ParseRequestLine(FirstLine(v, http10, path)) == Rejected(BadRequest)
  {
    hide CStr, Brk, ParseMethod, ParseTarget;
    var name := VerbName(v);
    var u := path + if http10 == 1 then " HTTP/1.0" else if http10 == 2 then " HTTP/1.1" else "";
    var line := name + (" " + u);
    assert line == FirstLine(v, http10, path);
    PlainCStr(line);
    BrkOfWord(name, " " + u);
    assert line[..|name|] == name;
    Assoc(name, " ", u);
    assert line == (name + " ") + u && line[|name| + 1..] == u;
    SpanUnique(u, 0);
    assert AfterBlanks(u) == u;
    if v.VGet? { TargetRefused(ParseMethod(name), http10, path); } else { NotAMethod(v); }
  }

  lemma NotAMethod(v: Verb)
    requires !v.VGet?
    ensures ParseMethod(VerbName(v)) == []
  {
    if v.VHead? && EqNoCase("HEAD", "POST") { EqNoCaseAt("HEAD", "POST", 0); }
  }

  lemma TargetRefused(verbs: seq<Method>, http10: int, path: string)
    requires Path(path) && http10 != 2
    ensures |verbs| > 0 ==> ParseTarget(verbs[0], path + if http10 == 1 then " HTTP/1.0" else "") == Rejected(BadRequest)
  {
    hide Brk, Span, ResolveUrl;
    if http10 == 1 {
      var u := path + " HTTP/1.0";
      BrkOfWord(path, " HTTP/1.0");
      assert u[|path| + 1..] == "HTTP/1.0";
      SpanUnique("HTTP/1.0", 0);
      OldVersion();
    } else {
      BrkOfWord(path, "");
      assert path + "" == path;
    }
  }

  lemma OldVersion()
    ensures !EqNoCase("HTTP/1.0", "HTTP/1.1")
  {
    if EqNoCase("HTTP/1.0", "HTTP/1.1") { EqNoCaseAt("HTTP/1.0", "HTTP/1.1", 7); }
  }

  /** However the network cuts the request up, the server's calls on the pieces end
      as one call on all of it: with path and host read back. */
  lemma RoundTripInPieces(path: string, host: string, pieces: seq<string>)
    requires Path(path) && HostName(host) && |pieces| > 0
    requires Sequences.Concat(pieces) == RequestText(VGet, 2, path, host)
    requires forall n | n in HttpSplit.Cuts(0, pieces) :: n < |Sequences.Concat(pieces)|
    ensures var (w, code) := HttpSplit.Deliver(Fresh, pieces);
            code == GetRequest && w.url == (if path == "/" then "/judge.html" else path) && w.host == host && !w.linger && w.verb == GET
  {
    hide Run, RequestText;
    GetRoundTrip(path, host);
    HttpSplit.CutTheorem(Fresh, pieces);
  }

  // ---- the request a proxy gets ----------------------------------------------------------

  const PRAGMA: string := "Pragma: no-cache"
  const CLOSE: string := "Connection:" + (" " + "close")

  function ProxyHeaders(reload: bool): seq<string>
  {
    if reload then [USER_AGENT, PRAGMA, CLOSE] else [USER_AGENT, CLOSE]
  }

  lemma PrintOfTwo(line: string, a: string, b: string)
    ensures Print(Message(line, [a, b], "")) == line + CRLF + ((a + CRLF) + (b + CRLF) + CRLF)
  {
    assert [a, b][1..] == [b] && [b][1..] == [];
    assert PrintHeaders([b]) == b + CRLF + "" == b + CRLF;
    assert PrintHeaders([a, b]) == a + CRLF + (b + CRLF);
    assert CRLF + "" == CRLF;
  }

  lemma ProxyPrinted(url: string, reload: bool)
    ensures ProxyText(VGet, 2, url, reload) == Print(Message(PlainLine("GET", url), ProxyHeaders(reload), ""))
  {
    hide Print;
    var line := PlainLine("GET", url);
    Assoc("GET", " ", url);
    Assoc("GET", " " + url, " HTTP/1.1");
    Assoc(" ", url, " HTTP/1.1");
    assert " HTTP/1.1" == " " + "HTTP/1.1";
    assert "GET" + " " + url + " HTTP/1.1" == line;
    assert "Connection: close" == CLOSE && "Pragma: no-cache\r\n" == PRAGMA + CRLF;
    var a, p, c := USER_AGENT + CRLF, PRAGMA + CRLF, CLOSE + CRLF;
    var r := line + CRLF;
    if reload {
      PrintOfThree(line, USER_AGENT, PRAGMA, CLOSE);
      Assoc(r, a, p);
      Assoc(r, a + p, c);
      Assoc(r, a + p + c, CRLF);
    } else {
      PrintOfTwo(line, USER_AGENT, CLOSE);
      Assoc(r, a, c);
      Assoc(r, a + c, CRLF);
    }
  }

  lemma {:induction false} NoValue(hs: seq<string>, name: string)
    requires forall h | h in hs :: !StartsNoCase(CStr(h), name)
    ensures LastValue(hs, name) == None
  {
    hide StartsNoCase, CStr;
    if |hs| > 0 { NoValue(hs[1..], name); }
  }

  lemma AgentMeansNothing()
    ensures OneLine(USER_AGENT) && |CStr(USER_AGENT)| > 0 && !KeepAlive(USER_AGENT)
    ensures !StartsNoCase(CStr(USER_AGENT), "Host:") && !StartsNoCase(CStr(USER_AGENT), "Content-length:")
  {
    hide StartsNoCase, CStr;
    PlainCStr(USER_AGENT);
    NotNamed(USER_AGENT, "Connection:", 0);
    NotNamed(USER_AGENT, "Host:", 0);
    NotNamed(USER_AGENT, "Content-length:", 0);
  }

  lemma PragmaMeansNothing()
    ensures OneLine(PRAGMA) && |CStr(PRAGMA)| > 0 && !KeepAlive(PRAGMA)
    ensures !StartsNoCase(CStr(PRAGMA), "Host:") && !StartsNoCase(CStr(PRAGMA), "Content-length:")
  {
    hide StartsNoCase, CStr;
    PlainCStr(PRAGMA);
    NotNamed(PRAGMA, "Connection:", 0);
    NotNamed(PRAGMA, "Host:", 0);
    NotNamed(PRAGMA, "Content-length:", 0);
  }

  lemma CloseMeansClose()
    ensures OneLine(CLOSE) && |CStr(CLOSE)| > 0 && !KeepAlive(CLOSE)
    ensures !StartsNoCase(CStr(CLOSE), "Host:") && !StartsNoCase(CStr(CLOSE), "Content-length:")
  {
    hide StartsNoCase, CStr, KeepAlive;
    PlainCStr(CLOSE);
    CloseIsNotKeepAlive();
    NotNamed(CLOSE, "Host:", 0);
    NotNamed(CLOSE, "Content-length:", 3);
  }

  lemma ProxyHeadersMean(reload: bool)
    ensures var hs := ProxyHeaders(reload);
            && Host(hs) == "" && ContentLength(hs) == 0
            && (forall h | h in hs :: OneLine(h) && |CStr(h)| > 0 && !KeepAlive(h))
  {
    hide StartsNoCase, CStr, KeepAlive, OneLine, LastValue;
    AgentMeansNothing();
    PragmaMeansNothing();
    CloseMeansClose();
    NoValue(ProxyHeaders(reload), "Host:");
    NoValue(ProxyHeaders(reload), "Content-length:");
  }

  /** A server that is asked as if it were the proxy finds the path in the absolute URL
      and no host. */
  lemma ProxyRoundTrip(host: string, port: Option<string>, path: string, reload: bool)
    requires HostName(host) && Path(path)
    requires port.Some? ==> '/' !in port.value && OneLine(port.value) && NUL !in port.value && Brk(port.value) == |port.value|
    ensures var url := "http://" + Authority(host, port) + path;
            var (w, code) := ProcessRead(Feed(Fresh, ProxyText(VGet, 2, url, reload)));
            && code == GetRequest && w.verb == GET && w.url == (if path == "/" then "/judge.html" else path) && w.host == ""
            && !w.linger && w.contentLength == 0 && w.checked == |w.raw|
  {
    hide Run, CStr, ParseRequestLine, ContentLength, Host, KeepAlive, ProxyText, Print, EqNoCase, Brk;
    var url := "http://" + Authority(host, port) + path;
    var m := Message(PlainLine("GET", url), ProxyHeaders(reload), "");
    UrlIsWord(host, port, path);
    AbsoluteLine(url, Authority(host, port), path);
    ProxyHeadersMean(reload);
    ProxyPrinted(url, reload);
    LineOfWord(url);
    assert m.Valid();
    MessageRead(m);
  }

  lemma UrlIsWord(host: string, port: Option<string>, path: string)
    requires HostName(host) && Path(path)
    requires port.Some? ==> '/' !in port.value && OneLine(port.value) && NUL !in port.value && Brk(port.value) == |port.value|
    ensures var url := "http://" + Authority(host, port) + path; Word(url) && OneLine(url) && '/' !in Authority(host, port)
  {
    var a := Authority(host, port);
    assert forall i | 0 <= i < |a| :: a[i] in host || a[i] == ':' || (port.Some? && a[i] in port.value);
    assert forall i | 0 <= i < |a| :: !Blank(a[i]);
  }

  lemma LineOfWord(url: string)
    requires Word(url) && OneLine(url)
    ensures OneLine(PlainLine("GET", url))
  {
  }

  lemma AbsoluteLine(url: string, authority: string, path: string)
    requires url == "http://" + authority + path && Word(url) && '/' !in authority && Path(path)
    ensures ParseRequestLine(PlainLine("GET", url)) == Accepted(GET, DefaultPage(path))
  {
    hide CStr, EqNoCase, ParseMethod, ParseRequestLine;
    var line := PlainLine("GET", url);
    GetIsMethod();
    EqNoCaseSelf("GET");
    EqNoCaseSelf("HTTP/1.1");
    EqNoCaseSelf("http://");
    AbsoluteTarget("http://", authority, path);
    assert NUL !in line;
    PlainCStr(line);
    RequestLineRead(line, "GET", " ", url, " ", "HTTP/1.1");
  }
}
