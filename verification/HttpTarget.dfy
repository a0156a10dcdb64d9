/** Which resource a request asks for, and which request lines are refused. */
module HttpTarget {
  import opened CStrings
  import opened HttpMachine
  import opened HttpMessage

  /** A target is a path, or a path behind a scheme and an authority. */
  predicate Resource(u: string, scheme: string, authority: string, path: string)
  {
    && u == scheme + authority + path && |path| > 0 && path[0] == '/'
    && ((|scheme| == 0 && |authority| == 0)
        || ((EqNoCase(scheme, "http://") || EqNoCase(scheme, "https://")) && '/' !in authority))
  }

  /** An http target with nothing behind its authority, where C compares a null pointer. */
  predicate Pathless(u: string)
  {
    StartsNoCase(u, "http://") && '/' !in u[7..]
  }

  lemma ResourceRead(u: string, scheme: string, authority: string, path: string)
    requires Resource(u, scheme, authority, path)
    ensures ParseUrl(u).Target? && ParseUrl(u).url == path
  {
    hide EqNoCase, ParseUrl;
    if |scheme| == 0 {
      assert u == path;
      PathTarget(path);
    } else {
      AbsoluteTarget(scheme, authority, path);
    }
  }

  lemma TargetIsResource(u: string) returns (scheme: string, authority: string, path: string)
    requires ParseUrl(u).Target?
    ensures Resource(u, scheme, authority, path)
  {
    hide EqNoCase, Resource;
    if StartsNoCase(u, "http://") {
      scheme, authority, path := Apart(u, "http://");
    } else if StartsNoCase(u, "https://") {
      scheme, authority, path := Apart(u, "https://");
    } else {
      scheme, authority, path := "", "", u;
      PlainPath(u);
    }
  }

  lemma Apart(u: string, name: string) returns (scheme: string, authority: string, path: string)
    requires name == "http://" || name == "https://"
    requires StartsNoCase(u, name) && Find(u[|name|..], '/') < |u| - |name|
    ensures Resource(u, scheme, authority, path)
  {
    hide EqNoCase, Find;
    var k := |name| + Find(u[|name|..], '/');
    scheme, authority, path := u[..|name|], u[|name|..k], u[k..];
    assert authority == u[|name|..][..k - |name|];
    assert path[0] == u[|name|..][k - |name|];
    assert u[..k] == scheme + authority;
  }

  lemma PlainPath(u: string)
    requires |u| > 0 && u[0] == '/'
    ensures Resource(u, "", "", u)
  {
    assert "" + "" + u == u;
  }

  lemma PathlessIsUndefined(u: string)
    ensures Pathless(u) <==> ParseUrl(u) == Undefined
  {
    hide EqNoCase;
    if StartsNoCase(u, "http://") {
      if '/' !in u[7..] { FindUnique(u[7..], '/', |u| - 7); }
      if Find(u[7..], '/') == |u| - 7 { assert u[7..][..|u| - 7] == u[7..]; }
    }
  }

  /** A request line asks for the path of its target, but for "/" it gets "/judge.html". */
  lemma LineUrl(line: string, m: string, b1: string, b2: string, v: string, scheme: string, authority: string, path: string)
    requires RequestLineForm(CStr(line), m, b1, scheme + authority + path, b2, v)
    requires Resource(scheme + authority + path, scheme, authority, path)
    ensures ParseRequestLine(line) ==
            Accepted(if EqNoCase(m, "GET") then GET else POST, if path == "/" then "/judge.html" else path)
  {
    hide CStr, EqNoCase, ParseUrl, RequestLineForm, Resource, ParseRequestLine;
    var u := scheme + authority + path;
    RequestLineRead(line, m, b1, u, b2, v);
    ResourceRead(u, scheme, authority, path);
    KnownMethod(CStr(line), m, b1, u, b2, v);
  }

  lemma KnownMethod(c: string, m: string, b1: string, u: string, b2: string, v: string)
    requires RequestLineForm(c, m, b1, u, b2, v)
    ensures |ParseMethod(m)| == 1 && ParseMethod(m)[0] == if EqNoCase(m, "GET") then GET else POST
  {
    MethodKnown(m);
  }

  /** And that is what a whole message is read as. */
  lemma UrlRead(msg: Message, m: string, b1: string, b2: string, v: string, scheme: string, authority: string, path: string)
    requires msg.Valid() && RequestLineForm(CStr(msg.line), m, b1, scheme + authority + path, b2, v)
    requires Resource(scheme + authority + path, scheme, authority, path)
    ensures var w := ProcessRead(Feed(Fresh, Print(msg))).0;
            w.url == (if path == "/" then "/judge.html" else path) && (w.verb == GET <==> EqNoCase(m, "GET"))
  {
    hide CStr, EqNoCase, RequestLineForm, Resource, ParseRequestLine, ProcessRead, Print, ContentLength, Host, KeepAlive;
    LineUrl(msg.line, m, b1, b2, v, scheme, authority, path);
    MessageRead(msg);
  }

  /** Every accepted line asks for a resource in one of these forms. */
  lemma AcceptedLineAsks(line: string)
      returns (m: string, b1: string, b2: string, v: string, scheme: string, authority: string, path: string)
    requires ParseRequestLine(line).Accepted?
    ensures RequestLineForm(CStr(line), m, b1, scheme + authority + path, b2, v)
    ensures Resource(scheme + authority + path, scheme, authority, path)
  {
    hide CStr, EqNoCase, ParseUrl, RequestLineForm, Resource, ParseRequestLine;
    var u: string;
    m, b1, u, b2, v := AcceptedLineHasForm(line);
    scheme, authority, path := TargetIsResource(u);
    ResourceIs(u, scheme, authority, path);
  }

  lemma ResourceIs(u: string, scheme: string, authority: string, path: string)
    requires Resource(u, scheme, authority, path)
    ensures u == scheme + authority + path
  {
  }

  /** A line in the form whose target is pathless has no defined result. */
  lemma PathlessFaults(line: string, m: string, b1: string, u: string, b2: string, v: string)
    requires RequestLineForm(CStr(line), m, b1, u, b2, v) && Pathless(u)
    ensures ParseRequestLine(line) == Rejected(Fault)
  {
    hide CStr, EqNoCase, ParseUrl, RequestLineForm, Pathless, ParseRequestLine;
    RequestLineRead(line, m, b1, u, b2, v);
    PathlessIsUndefined(u);
  }

  /** Every line without a defined result has that form; all others that are not accepted
      are bad requests. */
  lemma FaultLineHasForm(line: string) returns (m: string, b1: string, u: string, b2: string, v: string)
    requires ParseRequestLine(line) == Rejected(Fault)
    ensures RequestLineForm(CStr(line), m, b1, u, b2, v) && Pathless(u)
  {
    hide CStr, Brk, Span, ParseTarget, EqNoCase, Pathless;
    var r2: string;
    m, b1, r2 := CutAtBlanks(CStr(line));
    u, b2, v := FaultTarget(ParseMethod(m)[0], r2);
    PathlessIsUndefined(u);
    MethodIsWord(m);
  }

  lemma FaultTarget(verb: Method, r: string) returns (u: string, b: string, v: string)
    requires ParseTarget(verb, r) == Rejected(Fault) && NUL !in r
    ensures r == u + (b + v) && Blanks(b) && Word(u) && EqNoCase(v, "HTTP/1.1") && ParseUrl(u) == Undefined
  {
    hide Brk, Span, EqNoCase;
    u, b, v := CutAtBlanks(r);
    UndefinedIsLong(u);
  }

  lemma UndefinedIsLong(u: string)
    ensures ParseUrl(u) == Undefined ==> |u| >= 7
  {
  }
}
