/** HttpServer::OnMessage as a plain loop over the buffer: what it answers, and when it closes. */
module HttpServer {
  import opened Text
  import opened HttpMessage
  import opened HttpFraming

  /** WriteReponse always writes a status line. */
  type Response = s: string | s != "" witness "HTTP/1.1 200 OK\r\n\r\n"

  datatype Reply = Reply(bytes: Response, close: bool)

  /** The foreign part of the server: parsing oracles, the handler of a request, the error page. */
  datatype App = App(grammar: Grammar, route: HttpRequest -> Reply, error: (HttpRequest, int) -> Response)

  /** Between two message callbacks the parser is in the middle of a request or before one. */
  ghost predicate Ready(g: Grammar, c: Context) {
    Resting(g, c) && c.recv in {RECV_HTTP_LINE, RECV_HTTP_HEAD, RECV_HTTP_BODY}
  }

  datatype Served = Served(ctx: Context, rest: string, replies: seq<Response>, closing: bool, failed: bool)

  lemma BodyConsumes(g: Grammar, c: Context, buf: string)
    requires c.recv == RECV_HTTP_BODY && |c.request.body| < c.request.ContentLength(g)
    ensures AfterBody(g, c, buf).ctx.recv == RECV_HTTP_OVER ==> |AfterBody(g, c, buf).rest| < |buf|
  {
  }

  lemma {:induction false} HeadConsumes(c: Context, buf: string)
    requires c.recv == RECV_HTTP_HEAD
    ensures AfterHead(c, buf).ctx.recv == RECV_HTTP_BODY ==> |AfterHead(c, buf).rest| < |buf|
  {
    hide ParsedField, AfterHead;
    HeadTurn(c, buf);
    FieldKeepsStage(c, ByteBuffer.FirstLine(buf));
    if ByteBuffer.FirstLine(buf) != "" {
      HeadKeepsBody(ParsedField(c, ByteBuffer.FirstLine(buf)), buf[|ByteBuffer.FirstLine(buf)|..]);
    }
  }

  lemma LineConsumes(g: Grammar, c: Context, buf: string)
    requires c.recv == RECV_HTTP_LINE
    ensures AfterLine(g, c, buf).ctx.recv == RECV_HTTP_HEAD ==> |AfterLine(g, c, buf).rest| < |buf|
  {
  }

  lemma BodyShrinks(g: Grammar, c: Context, buf: string)
    requires c.recv == RECV_HTTP_BODY && |c.request.body| <= c.request.ContentLength(g)
    ensures |AfterBody(g, c, buf).rest| <= |buf|
  {
  }

  /** Every completed request consumes at least one byte. */
  lemma CompletionConsumes(g: Grammar, c: Context, buf: string)
    requires Ready(g, c)
    ensures Recv(g, c, buf).ctx.recv == RECV_HTTP_OVER ==> |Recv(g, c, buf).rest| < |buf|
  {
    hide AfterLine, AfterHead, AfterBody;
    var p := if c.recv == RECV_HTTP_LINE then AfterLine(g, c, buf) else Parse(c, buf);
    LineKeepsBody(g, c, buf);
    if c.recv == RECV_HTTP_LINE { LineConsumes(g, c, buf); }
    HeadKeepsBody(p.ctx, p.rest);
    if p.ctx.recv == RECV_HTTP_HEAD { HeadConsumes(p.ctx, p.rest); }
    var q := HeadStage(p.ctx, p.rest);
    if q.ctx.recv == RECV_HTTP_BODY {
      BodyShrinks(g, q.ctx, q.rest);
      if c.recv == RECV_HTTP_BODY { BodyConsumes(g, c, buf); }
    }
  }

  /** The sequential loop: parse, answer, repeat, until bytes run out or a message is erroneous. */
  function Serve(app: App, c: Context, buf: string): (s: Served)
    requires Ready(app.grammar, c)
    ensures Ready(app.grammar, s.ctx)
    decreases |buf|
  {
    RecvRests(app.grammar, c, buf);
    CompletionConsumes(app.grammar, c, buf);
    if buf == "" then Served(c, buf, [], false, false)
    else
      var p := Recv(app.grammar, c, buf);
      if p.ctx.resp >= 400 then
        Served(NEW_CONTEXT, "", [app.error(p.ctx.request, p.ctx.resp)], true, true)
      else if p.ctx.recv != RECV_HTTP_OVER then Served(p.ctx, p.rest, [], false, false)
      else
        var r := app.route(p.ctx.request);
        var s := Serve(app, NEW_CONTEXT, p.rest);
        s.(replies := [r.bytes] + s.replies, closing := r.close || s.closing)
  }

  lemma ServeTurn(app: App, c: Context, buf: string)
    requires Ready(app.grammar, c) && buf != ""
    ensures Resting(app.grammar, Recv(app.grammar, c, buf).ctx)
    ensures var p := Recv(app.grammar, c, buf);
            Serve(app, c, buf) ==
            if p.ctx.recv == RECV_HTTP_ERROR then
              Served(NEW_CONTEXT, "", [app.error(p.ctx.request, p.ctx.resp)], true, true)
            else if p.ctx.recv != RECV_HTTP_OVER then Served(p.ctx, p.rest, [], false, false)
            else
              var r := app.route(p.ctx.request);
              var s := Serve(app, NEW_CONTEXT, p.rest);
              s.(replies := [r.bytes] + s.replies, closing := r.close || s.closing)
  {
    hide Recv;
    RecvRests(app.grammar, c, buf);
  }

  /** What is left over cannot be answered yet: serving it again does nothing. */
  lemma {:induction false} ServeIdempotent(app: App, c: Context, buf: string)
    requires Ready(app.grammar, c)
    ensures var s := Serve(app, c, buf);
            Serve(app, s.ctx, s.rest) == Served(s.ctx, s.rest, [], false, false)
    decreases |buf|
  {
    hide Recv, Serve;
    if buf == "" {
      ServeNothing(app, c);
    } else {
      var p := Recv(app.grammar, c, buf);
      ServeTurn(app, c, buf);
      RecvIdempotent(app.grammar, c, buf);
      CompletionConsumes(app.grammar, c, buf);
      if p.ctx.recv == RECV_HTTP_ERROR {
        ServeNothing(app, NEW_CONTEXT);
      } else if p.ctx.recv == RECV_HTTP_OVER {
        ServeIdempotent(app, NEW_CONTEXT, p.rest);
      } else if p.rest == "" {
        ServeNothing(app, p.ctx);
      } else {
        ServeTurn(app, p.ctx, p.rest);
      }
    }
  }

  lemma ServeNothing(app: App, c: Context)
    requires Ready(app.grammar, c)
    ensures Serve(app, c, "") == Served(c, "", [], false, false)
  {
  }

  /** A second batch of bytes behind a first: the answers add up, unless the first batch failed. */
  lemma {:induction false} ServeResumes(app: App, c: Context, a: string, b: string)
    requires Ready(app.grammar, c)
    ensures var s, w := Serve(app, c, a), Serve(app, c, a + b);
            var t := Serve(app, s.ctx, s.rest + b);
            w == if s.failed then s
                 else t.(replies := s.replies + t.replies, closing := s.closing || t.closing)
    decreases |a|
  {
    hide Recv, Serve;
    var g, w := app.grammar, Serve(app, c, a + b);
    if a == "" {
      ServeNothing(app, c);
      assert "" + b == b && a + b == b;
      assert [] + w.replies == w.replies;
    } else {
      var p := Recv(g, c, a);
      ServeTurn(app, c, a);
      ServeTurn(app, c, a + b);
      RecvResumes(g, c, a, b);
      CompletionConsumes(g, c, a);
      if p.ctx.recv == RECV_HTTP_ERROR {
        Settled(g, p.ctx, p.rest + b);
      } else if p.ctx.recv == RECV_HTTP_OVER {
        Settled(g, p.ctx, p.rest + b);
        ServeResumes(app, NEW_CONTEXT, p.rest, b);
        var r, s := app.route(p.ctx.request), Serve(app, NEW_CONTEXT, p.rest);
        if !s.failed {
          Assoc([r.bytes], s.replies, Serve(app, s.ctx, s.rest + b).replies);
        }
      } else {
        var t := Serve(app, p.ctx, p.rest + b);
        assert [] + t.replies == t.replies;
        if p.rest + b == "" {
          ServeNothing(app, p.ctx);
          assert a + b == a;
        } else {
          ServeTurn(app, p.ctx, p.rest + b);
        }
      }
    }
  }

  lemma Settled(g: Grammar, c: Context, buf: string)
    requires Resting(g, c) && c.recv in {RECV_HTTP_ERROR, RECV_HTTP_OVER}
    ensures Recv(g, c, buf) == Parse(c, buf)
  {
  }

  // ---- one reply per message ----

  /** The requests a parser completes on a stream, started over after each. */
  function Requests(g: Grammar, c: Context, buf: string): seq<HttpRequest>
    requires Ready(g, c)
    decreases |buf|
  {
    hide Recv;
    RecvRests(g, c, buf);
    CompletionConsumes(g, c, buf);
    var p := Recv(g, c, buf);
    if p.ctx.recv == RECV_HTTP_OVER then [p.ctx.request] + Requests(g, NEW_CONTEXT, p.rest) else []
  }

  /** Whether the parser rejects the message behind the requests it completes. */
  predicate Rejects(g: Grammar, c: Context, buf: string)
    requires Ready(g, c)
    decreases |buf|
  {
    hide Recv;
    RecvRests(g, c, buf);
    CompletionConsumes(g, c, buf);
    var p := Recv(g, c, buf);
    buf != "" && (p.ctx.recv == RECV_HTTP_ERROR
                  || (p.ctx.recv == RECV_HTTP_OVER && Rejects(g, NEW_CONTEXT, p.rest)))
  }

  /** How many messages of a stream the parser completes or rejects. */
  function Handled(g: Grammar, c: Context, buf: string): nat
    requires Ready(g, c)
  {
    |Requests(g, c, buf)| + if Rejects(g, c, buf) then 1 else 0
  }

  ghost predicate SomeCloses(app: App, rs: seq<HttpRequest>) {
    exists i :: 0 <= i < |rs| && app.route(rs[i]).close
  }

  lemma SomeClosesCons(app: App, r: HttpRequest, rs: seq<HttpRequest>)
    ensures SomeCloses(app, [r] + rs) <==> app.route(r).close || SomeCloses(app, rs)
  {
    var all := [r] + rs;
    assert all[0] == r;
    assert forall i :: 1 <= i < |all| ==> all[i] == rs[i - 1];
    assert forall i :: 0 <= i < |rs| ==> rs[i] == all[i + 1];
  }

  /** On every byte stream: one reply per completed request, then one error page exactly if one was rejected. */
  lemma {:induction false} OneReplyPerRequest(app: App, c: Context, buf: string)
    requires Ready(app.grammar, c)
    ensures var s, rs := Serve(app, c, buf), Requests(app.grammar, c, buf);
            && (s.failed <==> Rejects(app.grammar, c, buf)) && |s.replies| == Handled(app.grammar, c, buf)
            && (forall i :: 0 <= i < |rs| ==> s.replies[i] == app.route(rs[i]).bytes)
            && (s.closing <==> s.failed || SomeCloses(app, rs))
    decreases |buf|
  {
    hide Recv, Serve, SomeCloses;
    CompletionConsumes(app.grammar, c, buf);
    NobodyCloses(app);
    if buf == "" {
      ServeNothing(app, c);
    } else {
      ServeTurn(app, c, buf);
      var p := Recv(app.grammar, c, buf);
      if p.ctx.recv == RECV_HTTP_OVER {
        OneReplyPerRequest(app, NEW_CONTEXT, p.rest);
        SomeClosesCons(app, p.ctx.request, Requests(app.grammar, NEW_CONTEXT, p.rest));
      }
    }
  }

  lemma NobodyCloses(app: App)
    ensures !SomeCloses(app, [])
  {
  }

  function PrintMessages(ms: seq<Message>): string {
    if ms == [] then "" else PrintMessage(ms[0]) + PrintMessages(ms[1..])
  }

  /** The requests completed on pipelined well-formed messages are the ones the messages stand for. */
  lemma {:induction false} MessagesAreRequests(g: Grammar, ms: seq<Message>)
    requires forall m :: m in ms ==> WellFormed(g, m)
    ensures var rs := Requests(g, NEW_CONTEXT, PrintMessages(ms));
            |rs| == |ms| && forall i :: 0 <= i < |ms| ==> Denotes(g, ms[i], rs[i])
    decreases |ms|
  {
    hide Recv, WellFormed, Denotes;
    if ms == [] {
      CompletionConsumes(g, NEW_CONTEXT, "");
    } else {
      var m, rest := ms[0], PrintMessages(ms[1..]);
      assert m in ms;
      MessageRoundTrip(g, m, rest);
      MessagesAreRequests(g, ms[1..]);
      var r, rs := Recv(g, NEW_CONTEXT, PrintMessages(ms)).ctx.request, Requests(g, NEW_CONTEXT, rest);
      forall i | 0 <= i < |ms| ensures Denotes(g, ms[i], ([r] + rs)[i]) {
        if i > 0 { assert Denotes(g, ms[1..][i - 1], rs[i - 1]); }
      }
    }
  }

  /** The first Connection field of the message says keep-alive. */
  predicate AsksKeepAlive(m: Message) {
    FirstValue(m.fields, "Connection") == Some("keep-alive")
  }

  /** WriteReponse copies the request's wish into the reply unless the handler has set Connection. */
  ghost predicate FollowsRequest(app: App) {
    forall r: HttpRequest :: app.route(r).close <==> r.Close()
  }

  lemma CloseIsAsked(g: Grammar, m: Message, r: HttpRequest)
    requires Denotes(g, m, r)
    ensures r.Close() <==> !AsksKeepAlive(m)
  {
    DeclaredByFields(g, m.fields, r);
  }

  /** The reply is the handler's answer to the request the message stands for. */
  ghost predicate Answers(app: App, m: Message, reply: Response) {
    exists r: HttpRequest :: Denotes(app.grammar, m, r) && reply == app.route(r).bytes
  }

  /** Pipelined well-formed messages get exactly one reply each, in order, and nothing is left over. */
  lemma {:induction false} PipelinedMessages(app: App, ms: seq<Message>)
    requires forall m :: m in ms ==> WellFormed(app.grammar, m)
    ensures var s := Serve(app, NEW_CONTEXT, PrintMessages(ms));
            && s.ctx == NEW_CONTEXT && s.rest == "" && !s.failed
            && |s.replies| == |ms|
            && forall i :: 0 <= i < |ms| ==> Answers(app, ms[i], s.replies[i])
    decreases |ms|
  {
    hide Recv, Serve, WellFormed, Denotes;
    if ms == [] {
      ServeNothing(app, NEW_CONTEXT);
    } else {
      var m, rest, buf := ms[0], PrintMessages(ms[1..]), PrintMessages(ms);
      assert m in ms;
      MessageRoundTrip(app.grammar, m, rest);
      assert |buf| >= 2 && buf != "";
      ServeTurn(app, NEW_CONTEXT, buf);
      PipelinedMessages(app, ms[1..]);
      var s, t := Serve(app, NEW_CONTEXT, buf), Serve(app, NEW_CONTEXT, rest);
      var r := Recv(app.grammar, NEW_CONTEXT, buf).ctx.request;
      assert Denotes(app.grammar, m, r) && s.replies[0] == app.route(r).bytes;
      assert Answers(app, m, s.replies[0]);
      forall i | 1 <= i < |ms| ensures Answers(app, ms[i], s.replies[i]) {
        assert Answers(app, ms[1..][i - 1], t.replies[i - 1]);
      }
    }
  }

  /** The answers to pipelined messages followed by bytes the parser rejects: one error page, last. */
  lemma PipelinedThenError(app: App, ms: seq<Message>, tail: string)
    requires forall m :: m in ms ==> WellFormed(app.grammar, m)
    requires tail != "" && Recv(app.grammar, NEW_CONTEXT, tail).ctx.recv == RECV_HTTP_ERROR
    ensures var s := Serve(app, NEW_CONTEXT, PrintMessages(ms) + tail);
            var bad := Recv(app.grammar, NEW_CONTEXT, tail).ctx;
            && s.failed && s.closing && s.rest == "" && s.ctx == NEW_CONTEXT
            && |s.replies| == |ms| + 1 && s.replies[|ms|] == app.error(bad.request, bad.resp)
            && forall i :: 0 <= i < |ms| ==> Answers(app, ms[i], s.replies[i])
  {
    hide Recv, Serve, WellFormed, Denotes;
    PipelinedMessages(app, ms);
    ServeResumes(app, NEW_CONTEXT, PrintMessages(ms), tail);
    assert "" + tail == tail;
    ServeTurn(app, NEW_CONTEXT, tail);
  }
}
