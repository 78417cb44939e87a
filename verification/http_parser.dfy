/** `http_string` (src/http_parser.rs): the request line and header block
    that every connection sends first. The URI is taken already parsed, and a
    header is the pair of strings its name and value print as. */
module HttpParser {
  import opened Results
  import opened Crlf

  /** The parts of a parsed URI the load tester reads. */
  datatype Uri = Uri(scheme: Option<string>, host: Option<string>, port: Option<nat>, pathAndQuery: Option<string>)

  datatype HeaderField = HeaderField(name: string, value: string)

  /** A request as built in `main`: method, URI and headers in iteration order. */
  datatype HttpRequest = HttpRequest(verb: string, uri: Uri, headers: seq<HeaderField>)

  const UserAgentLine: string := "User-Agent: Bust/0.0.1"
  const ConnectionLine: string := "Connection: Close"
  const NoHostMessage: string := "host name not found"
  const NoPathMessage: string := "no path in url found"

  /** The `Host` header value: the host, prefixed by `auth@` when given. The
      port is never part of it. */
  function HostValue(host: string, auth: Option<string>): string {
    match auth
    case Some(a) => a + "@" + host
    case None => host
  }

  /** The header text appended for each header, in order. */
  function HeaderText(headers: seq<HeaderField>): string
    decreases |headers|
  {
    if |headers| == 0 then ""
    else (HeaderText(headers[..|headers| - 1])
      + "\r\n" + headers[|headers| - 1].name + ": " + headers[|headers| - 1].value)
  }

  /** `http_string`: a missing host is reported before a missing path. */
  function HttpString(req: HttpRequest, auth: Option<string>): (r: Result<string>)
    ensures r.Err? <==> req.uri.host.None? || req.uri.pathAndQuery.None?
    ensures req.uri.host.None? ==> r == Err(NoHostMessage)
    ensures req.uri.host.Some? && req.uri.pathAndQuery.None? ==> r == Err(NoPathMessage)
  {
    match req.uri.host
    case None => Err(NoHostMessage)
    case Some(h) =>
      var host := HostValue(h, auth);
      match req.uri.pathAndQuery
      case None => Err(NoPathMessage)
      case Some(path) =>
        var headers := "Host: " + host + CRLF + UserAgentLine + CRLF + ConnectionLine
          + HeaderText(req.headers);
        Ok(req.verb + " " + path + " HTTP/1.1" + CRLF + headers)
  }

  /** The lines of the head, as a receiver reads them: the request line, the
      three fixed headers, then one `name: value` line per header. */
  function HeadLines(req: HttpRequest, path: string, hostValue: string): seq<string> {
    [req.verb + " " + path + " HTTP/1.1", "Host: " + hostValue, UserAgentLine, ConnectionLine]
    + HeaderLines(req.headers)
  }

  function HeaderLines(headers: seq<HeaderField>): seq<string> {
    seq(|headers|, i requires 0 <= i < |headers| => headers[i].name + ": " + headers[i].value)
  }

  /** Header text is the header lines, each preceded by CRLF. */
  lemma {:induction false} HeaderTextLines(prefix: seq<string>, headers: seq<HeaderField>)
    requires |prefix| >= 1
    ensures JoinCrlf(prefix) + HeaderText(headers) == JoinCrlf(prefix + HeaderLines(headers))
    decreases |headers|
  {
    if |headers| == 0 {
      assert prefix + HeaderLines(headers) == prefix;
    } else {
      var n := |headers| - 1;
      var front := headers[..n];
      var line := headers[n].name + ": " + headers[n].value;
      HeaderTextLines(prefix, front);
      assert HeaderLines(headers) == HeaderLines(front) + [line];
      assert prefix + HeaderLines(headers) == (prefix + HeaderLines(front)) + [line];
      JoinSnoc(prefix + HeaderLines(front), line);
      var j := JoinCrlf(prefix);
      var t := HeaderText(front);
      assert HeaderText(headers) == t + "\r\n" + headers[n].name + ": " + headers[n].value;
      RegroupHeader(j, t, headers[n].name, headers[n].value);
    }
  }

  lemma RegroupHeader(j: string, t: string, name: string, value: string)
    ensures j + (t + "\r\n" + name + ": " + value) == (j + t) + CRLF + (name + ": " + value)
  {
  }

  /** The output, read as lines: the request line, `Host`, `User-Agent`,
      `Connection`, then the headers in order. */
  lemma {:induction false} HttpStringLines(req: HttpRequest, auth: Option<string>)
    requires req.uri.host.Some? && req.uri.pathAndQuery.Some?
    ensures HttpString(req, auth) ==
      Ok(JoinCrlf(HeadLines(req, req.uri.pathAndQuery.value, HostValue(req.uri.host.value, auth))))
  {
    var path := req.uri.pathAndQuery.value;
    var host := HostValue(req.uri.host.value, auth);
    var first := req.verb + " " + path + " HTTP/1.1";
    var fixed := [first, "Host: " + host, UserAgentLine, ConnectionLine];
    FixedJoin(first, "Host: " + host);
    HeaderTextLines(fixed, req.headers);
    var r := HttpString(req, auth);
    RegroupHead(first, "Host: " + host, UserAgentLine, ConnectionLine, HeaderText(req.headers));
  }

  lemma FixedJoin(first: string, hostLine: string)
    ensures JoinCrlf([first, hostLine, UserAgentLine, ConnectionLine])
      == first + CRLF + hostLine + CRLF + UserAgentLine + CRLF + ConnectionLine
  {
    JoinFour(first, hostLine, UserAgentLine, ConnectionLine);
  }

  lemma RegroupHead(requestLine: string, hostLine: string, ua: string, conn: string, text: string)
    ensures requestLine + CRLF + (hostLine + CRLF + ua + CRLF + conn + text)
      == requestLine + CRLF + hostLine + CRLF + ua + CRLF + conn + text
  {
  }

  /** What the http crate guarantees of a request: a method token, a path and
      header parts that carry no CR or LF, and header lines that are not
      empty. */
  predicate WellFormed(req: HttpRequest, auth: Option<string>) {
    && req.uri.host.Some? && req.uri.pathAndQuery.Some?
    && NoCr(req.verb) && NoCr(req.uri.pathAndQuery.value)
    && NoCr(HostValue(req.uri.host.value, auth))
    && forall i :: 0 <= i < |req.headers| ==> NoCr(req.headers[i].name) && NoCr(req.headers[i].value)
  }

  /** Round trip: splitting the output at CRLF gives back the request line
      and each header line, in order; the block never ends in CRLF (its last
      line is `Connection: Close` or a header), so the blank line that ends
      the head must come from the body framing. */
  lemma HttpStringReadBack(req: HttpRequest, auth: Option<string>)
    requires WellFormed(req, auth)
    ensures HttpString(req, auth).Ok?
    ensures SplitCrlf(HttpString(req, auth).value)
      == HeadLines(req, req.uri.pathAndQuery.value, HostValue(req.uri.host.value, auth))
    ensures AllNonEmpty(HeadLines(req, req.uri.pathAndQuery.value, HostValue(req.uri.host.value, auth)))
  {
    var lines := HeadLines(req, req.uri.pathAndQuery.value, HostValue(req.uri.host.value, auth));
    HttpStringLines(req, auth);
    HeadLinesClean(req, auth);
    SplitJoin(lines);
  }

  lemma HeadLinesClean(req: HttpRequest, auth: Option<string>)
    requires WellFormed(req, auth)
    ensures AllNoCr(HeadLines(req, req.uri.pathAndQuery.value, HostValue(req.uri.host.value, auth)))
    ensures AllNonEmpty(HeadLines(req, req.uri.pathAndQuery.value, HostValue(req.uri.host.value, auth)))
  {
    var path := req.uri.pathAndQuery.value;
    var host := HostValue(req.uri.host.value, auth);
    var lines := HeadLines(req, path, host);
    forall i | 0 <= i < |lines| ensures NoCr(lines[i]) && lines[i] != "" {
      if i == 0 {
        NoCrJoin3(req.verb, " ", path);
        NoCrJoin3(req.verb + " " + path, " HTTP/1.1", "");
        assert lines[0] == req.verb + " " + path + " HTTP/1.1" + "";
      } else if i == 1 {
        NoCrJoin3("Host: ", host, "");
        assert lines[1] == "Host: " + host + "";
      } else if i >= 4 {
        var h := req.headers[i - 4];
        NoCrJoin3(h.name, ": ", h.value);
        assert lines[i] == h.name + ": " + h.value;
        assert |lines[i]| >= 2;
      }
    }
  }

  lemma NoCrJoin3(a: string, b: string, c: string)
    requires NoCr(a) && NoCr(b) && NoCr(c)
    ensures NoCr(a + b + c)
  {
    var s := a + b + c;
    forall k | 0 <= k < |s| ensures s[k] != '\r' {
      if k < |a| { assert s[k] == a[k]; }
      else if k < |a| + |b| { assert s[k] == b[k - |a|]; }
      else { assert s[k] == c[k - |a| - |b|]; }
    }
  }

  /** The header block of the worked example, a POST to `https://google.com`
      with one `content-type` header, as its lines. */
  lemma GoogleExample()
    ensures HttpString(
      HttpRequest("POST", Uri(Some("https"), Some("google.com"), None, Some("/")),
        [HeaderField("content-type", "application/json")]), None)
      == Ok(JoinCrlf(["POST / HTTP/1.1", "Host: google.com", "User-Agent: Bust/0.0.1",
                      "Connection: Close", "content-type: application/json"]))
  {
    var hs := [HeaderField("content-type", "application/json")];
    var req := HttpRequest("POST", Uri(Some("https"), Some("google.com"), None, Some("/")), hs);
    HttpStringLines(req, None);
    GoogleHeadLines(req);
  }

  lemma GoogleHeadLines(req: HttpRequest)
    requires req == HttpRequest("POST", Uri(Some("https"), Some("google.com"), None, Some("/")),
      [HeaderField("content-type", "application/json")])
    ensures HeadLines(req, "/", "google.com")
      == ["POST / HTTP/1.1", "Host: google.com", "User-Agent: Bust/0.0.1",
          "Connection: Close", "content-type: application/json"]
  {
    GoogleHeaderLines(req.headers);
    assert "POST" + " " + "/" + " HTTP/1.1" == "POST / HTTP/1.1";
    assert "Host: " + "google.com" == "Host: google.com";
  }

  lemma GoogleHeaderLines(hs: seq<HeaderField>)
    requires hs == [HeaderField("content-type", "application/json")]
    ensures HeaderLines(hs) == ["content-type: application/json"]
  {
    assert "content-type" + ": " + "application/json" == "content-type: application/json";
  }
}
