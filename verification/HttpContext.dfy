/** The incremental request parser HttpContext over a Buffer. */
module HttpMessage {
  import opened Text
  import opened ByteBuffer
  import UrlCodec
  import Multipart

  const MAX_LINE: nat := 8192

  datatype RecvStatu = RECV_HTTP_ERROR | RECV_HTTP_LINE | RECV_HTTP_HEAD | RECV_HTTP_BODY | RECV_HTTP_OVER

  /** The groups of the request-line regular expression. */
  datatype LineParts = LineParts(verb: string, path: string, query: string, version: string)

  /** What the parser asks of foreign code: the request-line regex and std::stol on Content-Length. */
  datatype Grammar = Grammar(line: string -> Option<LineParts>, length: string -> nat)

  type Headers = map<string, string>

  datatype HttpRequest = HttpRequest(
    verb: string, path: string, version: string, body: string,
    headers: Headers, params: UrlCodec.Params, files: Multipart.Files)
  {
    function GetHeader(key: string): string {
      if key in headers then headers[key] else ""
    }

    /** Whatever is not an explicit keep-alive closes. */
    predicate Close() {
      GetHeader("Connection") != "keep-alive"
    }

    function ContentLength(g: Grammar): nat {
      if "Content-Length" in headers then g.length(headers["Content-Length"]) else 0
    }

    predicate IsMultipartFormData() {
      "Content-Type" in headers && Find(headers["Content-Type"], "multipart/form-data", 0).Some?
    }
  }

  const NEW_REQUEST: HttpRequest := HttpRequest("", "", "HTTP/1.1", "", map[], map[], map[])

  /** The value of an HttpContext. */
  datatype Context = Context(resp: int, recv: RecvStatu, request: HttpRequest)

  const NEW_CONTEXT: Context := Context(200, RECV_HTTP_LINE, NEW_REQUEST)

  /** The context after a parsing step and the bytes it left in the buffer. */
  datatype Parse = Parse(ctx: Context, rest: string)

  function Failed(c: Context, status: int): Context {
    c.(recv := RECV_HTTP_ERROR, resp := status)
  }

  function UpperChar(c: char): char {
    if 'a' <= c <= 'z' then (c as int - 'a' as int + 'A' as int) as char else c
  }

  function Uppered(s: string): string {
    seq(|s|, i requires 0 <= i < |s| => UpperChar(s[i]))
  }

  // ---- what each stage does ----

  function ParsedLine(g: Grammar, c: Context, line: string): Context {
    match g.line(line)
    case None => Failed(c, 400)
    case Some(p) =>
      var q := UrlCodec.BindAll(c.request.params, UrlCodec.SplitFrom(p.query, "&", 0));
      var request := c.request.(verb := Uppered(p.verb), path := UrlCodec.Decoded(p.path, false),
                                version := p.version, params := q.params);
      if q.ok then c.(request := request, recv := RECV_HTTP_HEAD)
      else Failed(c.(request := request), 400)
  }

  /** The line without its line ending. */
  function Chopped(line: string): string {
    var l := if line != "" && line[|line| - 1] == '\n' then line[..|line| - 1] else line;
    if l != "" && l[|l| - 1] == '\r' then l[..|l| - 1] else l
  }

  function ParsedField(c: Context, line: string): Context {
    var l := Chopped(line);
    match Find(l, ": ", 0)
    case None => Failed(c, 400)
    case Some(pos) =>
      c.(request := c.request.(headers := UrlCodec.Insert(c.request.headers, l[..pos], l[pos + 2..])))
  }

  /** No complete line yet: wait, unless too much is buffered already. */
  function NoLine(c: Context, buf: string): Parse {
    Parse(if |buf| > MAX_LINE then Failed(c, 414) else c, buf)
  }

  function AfterLine(g: Grammar, c: Context, buf: string): Parse {
    var line := FirstLine(buf);
    if line == "" then NoLine(c, buf)
    else Parse(if |line| > MAX_LINE then Failed(c, 414) else ParsedLine(g, c, line), buf[|line|..])
  }

  predicate IsBlank(line: string) { line == "\n" || line == "\r\n" }

  function AfterHead(c: Context, buf: string): Parse
    decreases |buf|
  {
    var line := FirstLine(buf);
    if line == "" then NoLine(c, buf)
    else if |line| > MAX_LINE then Parse(Failed(c, 414), buf[|line|..])
    else if IsBlank(line) then Parse(c.(recv := RECV_HTTP_BODY), buf[|line|..])
    else
      var c' := ParsedField(c, line);
      if c'.recv == RECV_HTTP_ERROR then Parse(c', buf[|line|..]) else AfterHead(c', buf[|line|..])
  }

  function Completed(request: HttpRequest): HttpRequest {
    if request.IsMultipartFormData() then
      request.(files := Multipart.MultipartFiles(request.GetHeader("Content-Type"), request.body, request.files))
    else request
  }

  function AfterBody(g: Grammar, c: Context, buf: string): Parse
    requires |c.request.body| <= c.request.ContentLength(g)
  {
    var realLen := c.request.ContentLength(g) - |c.request.body|;
    if c.request.ContentLength(g) == 0 then Parse(c.(recv := RECV_HTTP_OVER), buf)
    else if |buf| >= realLen then
      var request := c.request.(body := c.request.body + buf[..realLen]);
      Parse(c.(recv := RECV_HTTP_OVER, request := Completed(request)), buf[realLen..])
    else Parse(c.(request := c.request.(body := c.request.body + buf)), "")
  }

  /** What holds of a context between two calls. */
  ghost predicate Resting(g: Grammar, c: Context) {
    && (c.recv == RECV_HTTP_LINE || c.recv == RECV_HTTP_HEAD ==> c.request.body == "")
    && (c.recv == RECV_HTTP_BODY ==> |c.request.body| < c.request.ContentLength(g))
    && (c.recv == RECV_HTTP_ERROR ==> c.resp == 400 || c.resp == 414)
    && (c.recv != RECV_HTTP_ERROR ==> c.resp == 200)
  }

  lemma {:induction false} HeadKeepsBody(c: Context, buf: string)
    ensures AfterHead(c, buf).ctx.request.body == c.request.body
    ensures |AfterHead(c, buf).rest| <= |buf|
    ensures c.recv == RECV_HTTP_HEAD ==>
              AfterHead(c, buf).ctx.recv in {RECV_HTTP_HEAD, RECV_HTTP_BODY, RECV_HTTP_ERROR}
    decreases |buf|
  {
    var line := FirstLine(buf);
    if line != "" {
      HeadKeepsBody(ParsedField(c, line), buf[|line|..]);
    }
  }

  function HeadStage(c: Context, buf: string): Parse {
    if c.recv == RECV_HTTP_HEAD then AfterHead(c, buf) else Parse(c, buf)
  }

  function BodyStage(g: Grammar, c: Context, buf: string): Parse
    requires c.recv == RECV_HTTP_BODY ==> |c.request.body| <= c.request.ContentLength(g)
  {
    if c.recv == RECV_HTTP_BODY then AfterBody(g, c, buf) else Parse(c, buf)
  }

  /** One call of RecvHttpRequest: the switch enters at the current stage and falls through. */
  function Recv(g: Grammar, c: Context, buf: string): Parse
    requires Resting(g, c)
  {
    hide AfterLine, AfterHead, AfterBody;
    LineKeepsBody(g, c, buf);
    var p := if c.recv == RECV_HTTP_LINE then AfterLine(g, c, buf) else Parse(c, buf);
    var q := HeadStage(p.ctx, p.rest);
    HeadKeepsBody(p.ctx, p.rest);
    BodyStage(g, q.ctx, q.rest)
  }

  /** One turn of the header loop. */
  lemma HeadTurn(c: Context, buf: string)
    ensures var line := FirstLine(buf);
            && |line| <= |buf|
            && AfterHead(c, buf) ==
               if line == "" then NoLine(c, buf)
               else if |line| > MAX_LINE then Parse(Failed(c, 414), buf[|line|..])
               else if IsBlank(line) then Parse(c.(recv := RECV_HTTP_BODY), buf[|line|..])
               else if ParsedField(c, line).recv == RECV_HTTP_ERROR
               then Parse(ParsedField(c, line), buf[|line|..])
               else AfterHead(ParsedField(c, line), buf[|line|..])
  {
  }

  lemma FieldKeepsStage(c: Context, line: string)
    requires c.recv == RECV_HTTP_HEAD
    ensures ParsedField(c, line).recv in {RECV_HTTP_HEAD, RECV_HTTP_ERROR}
  {
  }

  lemma LineKeepsBody(g: Grammar, c: Context, buf: string)
    ensures AfterLine(g, c, buf).ctx.request.body == c.request.body
    ensures c.recv == RECV_HTTP_LINE ==>
              AfterLine(g, c, buf).ctx.recv in {RECV_HTTP_LINE, RECV_HTTP_HEAD, RECV_HTTP_ERROR}
    ensures |AfterLine(g, c, buf).rest| <= |buf|
  {
  }

  // ---- the parser object ----

  class HttpContext {
    const grammar: Grammar
    var respStatu: int
    var recvStatu: RecvStatu
    var request: HttpRequest

    ghost function State(): Context
      reads this
    {
      Context(respStatu, recvStatu, request)
    }

    constructor (g: Grammar)
      ensures grammar == g && State() == NEW_CONTEXT
      ensures State() == Context(200, RECV_HTTP_LINE, HttpRequest("", "", "HTTP/1.1", "", map[], map[], map[]))
    {
      grammar := g;
      respStatu, recvStatu, request := 200, RECV_HTTP_LINE, NEW_REQUEST;
    }

    method ReSet()
      modifies this
      ensures State() == NEW_CONTEXT
    {
      respStatu, recvStatu, request := 200, RECV_HTTP_LINE, NEW_REQUEST;
    }

    method ParseHttpLine(line: string) returns (ok: bool)
      modifies this
      ensures var c := ParsedLine(grammar, old(State()), line);
              ok == (c.recv == RECV_HTTP_HEAD) && State() == if ok then c.(recv := old(recvStatu)) else c
    {
      var matches := grammar.line(line);
      if matches == None {
        recvStatu, respStatu := RECV_HTTP_ERROR, 400;
        return false;
      }
      request := request.(verb := Uppered(matches.value.verb));
      var path := UrlCodec.UrlDecode(matches.value.path, false);
      request := request.(path := path, version := matches.value.version);
      var q := UrlCodec.ParseQuery(request.params, matches.value.query);
      request := request.(params := q.params);
      if !q.ok {
        recvStatu, respStatu := RECV_HTTP_ERROR, 400;
      }
      return q.ok;
    }

    method RecvHttpLine(buf: Buffer) returns (ok: bool)
      requires buf.Valid()
      modifies this, buf`reader
      ensures buf.Valid()
      ensures Parse(State(), buf.Contents()) ==
              if old(recvStatu) == RECV_HTTP_LINE then AfterLine(grammar, old(State()), old(buf.Contents()))
              else Parse(old(State()), old(buf.Contents()))
    {
      if recvStatu != RECV_HTTP_LINE { return false; }
      ghost var c, b := State(), buf.Contents();
      var line := buf.GetLineAndPop();
      assert buf.Contents() == b[|line|..];
      if |line| == 0 {
        if buf.ReadAbleSize() > MAX_LINE {
          recvStatu, respStatu := RECV_HTTP_ERROR, 414;
          return false;
        }
        return true;
      }
      if |line| > MAX_LINE {
        recvStatu, respStatu := RECV_HTTP_ERROR, 414;
        return false;
      }
      ok := ParseHttpLine(line);
      if !ok { return; }
      recvStatu := RECV_HTTP_HEAD;
      ok := true;
    }

    method ParseHttpHead(line: string) returns (ok: bool)
      requires recvStatu == RECV_HTTP_HEAD
      modifies this
      ensures State() == ParsedField(old(State()), line) && ok == (recvStatu != RECV_HTTP_ERROR)
    {
      var l := line;
      if l != "" && l[|l| - 1] == '\n' { l := l[..|l| - 1]; }
      if l != "" && l[|l| - 1] == '\r' { l := l[..|l| - 1]; }
      var pos := Find(l, ": ", 0);
      if pos == None {
        recvStatu, respStatu := RECV_HTTP_ERROR, 400;
        return false;
      }
      var key := l[..pos.value];
      var val := l[pos.value + 2..];
      request := request.(headers := UrlCodec.Insert(request.headers, key, val));
      return true;
    }

    method RecvHttpHead(buf: Buffer) returns (ok: bool)
      requires buf.Valid()
      modifies this, buf`reader
      ensures buf.Valid()
      ensures Parse(State(), buf.Contents()) == HeadStage(old(State()), old(buf.Contents()))
    {
      hide ParsedField, AfterHead, FirstLine;
      if recvStatu != RECV_HTTP_HEAD { return false; }
      while true
        invariant buf.Valid()
        invariant recvStatu == RECV_HTTP_HEAD
        invariant AfterHead(State(), buf.Contents()) == AfterHead(old(State()), old(buf.Contents()))
        decreases |buf.Contents()|
      {
        HeadTurn(State(), buf.Contents());
        ghost var b := buf.Contents();
        var line := buf.GetLineAndPop();
        assert buf.Contents() == b[|line|..];
        if |line| == 0 {
          if buf.ReadAbleSize() > MAX_LINE {
            recvStatu, respStatu := RECV_HTTP_ERROR, 414;
            return false;
          }
          return true;
        }
        if |line| > MAX_LINE {
          recvStatu, respStatu := RECV_HTTP_ERROR, 414;
          return false;
        }
        if IsBlank(line) { break; }
        FieldKeepsStage(State(), line);
        ok := ParseHttpHead(line);
        if !ok { return; }
      }
      recvStatu := RECV_HTTP_BODY;
      return true;
    }

    method RecvHttpBody(buf: Buffer) returns (ok: bool)
      requires buf.Valid()
      requires recvStatu == RECV_HTTP_BODY ==> |request.body| <= request.ContentLength(grammar)
      modifies this, buf`reader
      ensures buf.Valid()
      ensures Parse(State(), buf.Contents()) == BodyStage(grammar, old(State()), old(buf.Contents()))
    {
      hide Multipart.MultipartFiles;
      if recvStatu != RECV_HTTP_BODY { return false; }
      var contentLength := request.ContentLength(grammar);
      if contentLength == 0 {
        recvStatu := RECV_HTTP_OVER;
        return true;
      }
      var realLen := contentLength - |request.body|;
      if buf.ReadAbleSize() >= realLen {
        ghost var b := buf.Contents();
        var part := buf.ReadAsStringAndPop(realLen);
        assert part == b[..realLen] && buf.Contents() == b[realLen..];
        request := request.(body := request.body + part);
        recvStatu := RECV_HTTP_OVER;
        if request.IsMultipartFormData() {
          var files := Multipart.ParseMultipartBody(request.GetHeader("Content-Type"), request.body, request.files);
          request := request.(files := files);
        }
        return true;
      }
      var all := buf.ReadAsStringAndPop(buf.ReadAbleSize());
      assert all == old(buf.Contents());
      request := request.(body := request.body + all);
      return true;
    }

    method RecvHttpRequest(buf: Buffer)
      requires buf.Valid() && Resting(grammar, State())
      modifies this, buf`reader
      ensures buf.Valid()
      ensures Parse(State(), buf.Contents()) == Recv(grammar, old(State()), old(buf.Contents()))
    {
      hide AfterLine, AfterHead, AfterBody;
      ghost var b0 := buf.Contents();
      if recvStatu == RECV_HTTP_LINE {
        var _ := RecvHttpLine(buf);
      }
      LineKeepsBody(grammar, old(State()), b0);
      HeadKeepsBody(State(), buf.Contents());
      var _ := RecvHttpHead(buf);
      var _ := RecvHttpBody(buf);
    }
  }
}
