/** Connection as the HTTP server drives it: buffers, re-entrant shutdown, release. */
module HttpConnection {
  import opened Text
  import opened ByteBuffer
  import opened HttpMessage
  import opened HttpFraming
  import opened HttpServer

  datatype ConnStatu = DISCONNECTED | CONNECTING | CONNECTED | DISCONNECTING

  /** The value of a connection. `releases` counts the queued ReleaseInLoop tasks. */
  datatype Conn = Conn(
    statu: ConnStatu, input: string, output: string, ctx: Context, writing: bool,
    releases: nat, closedCalls: nat, sent: string, accepted: string)

  function Joined(rs: seq<Response>): string {
    if rs == [] then "" else rs[0] + Joined(rs[1..])
  }

  // ---- what each operation does to the value ----

  function AfterEstablished(c: Conn): Conn { c.(statu := CONNECTED, ctx := NEW_CONTEXT) }

  function AfterSend(c: Conn, data: string): Conn {
    if c.statu == DISCONNECTED then c
    else c.(output := c.output + data, accepted := c.accepted + data, writing := true)
  }

  /** The message callback, told through the sequential loop. */
  ghost function AfterMessage(app: App, c: Conn): Conn
    requires Ready(app.grammar, c.ctx)
  {
    var s := Serve(app, c.ctx, c.input);
    c.(ctx := s.ctx, input := s.rest,
       output := c.output + Joined(s.replies), accepted := c.accepted + Joined(s.replies),
       writing := c.writing || s.replies != [],
       statu := if s.closing then DISCONNECTING else c.statu)
  }

  ghost function AfterShutdown(app: App, c: Conn): Conn
    requires Ready(app.grammar, c.ctx)
  {
    var d := c.(statu := DISCONNECTING);
    var e := if c.input != "" then AfterMessage(app, d) else d;
    if e.output != "" then e.(writing := true) else e.(releases := e.releases + 1)
  }

  ghost function AfterRead(app: App, c: Conn, data: string): Conn
    requires Ready(app.grammar, c.ctx)
  {
    var d := c.(input := c.input + data);
    if d.input != "" && c.statu != DISCONNECTED && c.statu != DISCONNECTING then AfterMessage(app, d) else d
  }

  function AfterRelease(c: Conn): Conn { c.(releases := c.releases + 1) }

  function AfterWrite(c: Conn, n: nat): Conn
    requires n <= |c.output|
  {
    var d := c.(output := c.output[n..], sent := c.sent + c.output[..n]);
    if d.output != "" then d
    else if c.statu == DISCONNECTING then AfterRelease(d.(writing := false))
    else d.(writing := false)
  }

  /** A failed write or a hang-up: pending input is handled first, then the release is queued. */
  ghost function AfterLoss(app: App, c: Conn): Conn
    requires Ready(app.grammar, c.ctx)
  {
    AfterRelease(if c.input != "" && c.statu != DISCONNECTED then AfterMessage(app, c) else c)
  }

  function AfterReleaseTask(c: Conn): Conn
    requires c.releases > 0
  {
    var d := c.(releases := c.releases - 1);
    if c.statu == DISCONNECTED then d
    else d.(statu := DISCONNECTED, closedCalls := c.closedCalls + 1)
  }

  // ---- why the recursion computes the loop ----

  lemma JoinedOne(r: Response, rs: seq<Response>)
    ensures Joined([r] + rs) == r + Joined(rs)
  {
    assert ([r] + rs)[1..] == rs;
  }

  lemma JoinedSingle(r: Response)
    ensures Joined([r]) == r
  {
    assert Joined([]) == "";
  }

  /** Handling the message again changes nothing. */
  lemma MessageIdempotent(app: App, c: Conn)
    requires Ready(app.grammar, c.ctx)
    ensures AfterMessage(app, AfterMessage(app, c)) == AfterMessage(app, c)
  {
    hide Serve;
    ServeIdempotent(app, c.ctx, c.input);
    var d := AfterMessage(app, c);
    assert d.output + "" == d.output && d.accepted + "" == d.accepted;
  }

  /** An erroneous message: one error page, the buffer emptied, the connection closing. */
  lemma MessageFails(app: App, c: Conn)
    requires Ready(app.grammar, c.ctx) && c.statu != DISCONNECTED && c.input != ""
    requires Recv(app.grammar, c.ctx, c.input).ctx.recv == RECV_HTTP_ERROR
    ensures var p := Recv(app.grammar, c.ctx, c.input);
            AfterMessage(app, c) ==
            AfterShutdown(app, AfterSend(c, app.error(p.ctx.request, p.ctx.resp)).(ctx := NEW_CONTEXT, input := ""))
  {
    hide Serve, Recv;
    ServeTurn(app, c.ctx, c.input);
    var p := Recv(app.grammar, c.ctx, c.input);
    JoinedSingle(app.error(p.ctx.request, p.ctx.resp));
  }

  /** A complete request: what is left to do after its reply is sent. */
  lemma MessageTurn(app: App, c: Conn)
    requires Ready(app.grammar, c.ctx) && c.statu != DISCONNECTED && c.input != ""
    requires Recv(app.grammar, c.ctx, c.input).ctx.recv == RECV_HTTP_OVER
    ensures var p := Recv(app.grammar, c.ctx, c.input);
            var r := app.route(p.ctx.request);
            var d := AfterSend(c, r.bytes).(ctx := NEW_CONTEXT, input := p.rest);
            && |p.rest| < |c.input|
            && AfterMessage(app, c) == AfterMessage(app, if r.close then AfterShutdown(app, d) else d)
  {
    hide Serve, Recv;
    ServeTurn(app, c.ctx, c.input);
    CompletionConsumes(app.grammar, c.ctx, c.input);
    var p := Recv(app.grammar, c.ctx, c.input);
    var r := app.route(p.ctx.request);
    var d := AfterSend(c, r.bytes).(ctx := NEW_CONTEXT, input := p.rest);
    var s := Serve(app, NEW_CONTEXT, p.rest);
    JoinedOne(r.bytes, s.replies);
    Assoc(c.output, r.bytes, Joined(s.replies));
    Assoc(c.accepted, r.bytes, Joined(s.replies));
    if r.close {
      var e := d.(statu := DISCONNECTING);
      MessageIdempotent(app, e);
      ShutdownWithOutput(app, d);
    }
  }

  lemma ShutdownWithOutput(app: App, c: Conn)
    requires Ready(app.grammar, c.ctx) && c.output != ""
    ensures AfterShutdown(app, c) == AfterMessage(app, c.(statu := DISCONNECTING)).(writing := true)
  {
    hide Serve;
    if c.input == "" {
      ServeNothing(app, c.ctx);
      assert c.output + "" == c.output && c.accepted + "" == c.accepted;
    }
  }

  lemma MessageWaits(app: App, c: Conn)
    requires Ready(app.grammar, c.ctx)
    requires c.input == "" || Recv(app.grammar, c.ctx, c.input).ctx.recv !in {RECV_HTTP_ERROR, RECV_HTTP_OVER}
    ensures var p := if c.input == "" then Parse(c.ctx, "") else Recv(app.grammar, c.ctx, c.input);
            AfterMessage(app, c) == c.(ctx := p.ctx, input := p.rest)
  {
    hide Serve, Recv;
    assert c.output + "" == c.output && c.accepted + "" == c.accepted;
    if c.input == "" { ServeNothing(app, c.ctx); } else { ServeTurn(app, c.ctx, c.input); }
  }

  lemma ReadyRests(g: Grammar, c: Context, buf: string)
    requires Ready(g, c)
    ensures Resting(g, c)
    ensures var p := Recv(g, c, buf); p.ctx.resp >= 400 <==> p.ctx.recv == RECV_HTTP_ERROR
    ensures |Recv(g, c, buf).rest| <= |buf|
  {
    hide Recv;
    RecvRests(g, c, buf);
    RecvShrinks(g, c, buf);
  }

  lemma RecvShrinks(g: Grammar, c: Context, buf: string)
    requires Resting(g, c)
    ensures |Recv(g, c, buf).rest| <= |buf|
  {
    hide AfterLine, AfterHead, AfterBody;
    var p := if c.recv == RECV_HTTP_LINE then AfterLine(g, c, buf) else Parse(c, buf);
    LineKeepsBody(g, c, buf);
    HeadKeepsBody(p.ctx, p.rest);
    var q := HeadStage(p.ctx, p.rest);
    if q.ctx.recv == RECV_HTTP_BODY { BodyShrinks(g, q.ctx, q.rest); }
  }

  lemma StillReady(g: Grammar, c: Context, buf: string)
    requires Ready(g, c)
    ensures Recv(g, c, buf).ctx.recv in {RECV_HTTP_ERROR, RECV_HTTP_OVER} || Ready(g, Recv(g, c, buf).ctx)
  {
    hide Recv;
    RecvRests(g, c, buf);
  }

  lemma {:induction false} ServeShrinks(app: App, c: Context, buf: string)
    requires Ready(app.grammar, c)
    ensures |Serve(app, c, buf).rest| <= |buf|
    decreases |buf|
  {
    hide Recv, Serve;
    if buf == "" {
      ServeNothing(app, c);
    } else {
      ServeTurn(app, c, buf);
      RecvShrinks(app.grammar, c, buf);
      CompletionConsumes(app.grammar, c, buf);
      var p := Recv(app.grammar, c, buf);
      if p.ctx.recv == RECV_HTTP_OVER { ServeShrinks(app, NEW_CONTEXT, p.rest); }
    }
  }

  lemma ShutdownShrinks(app: App, c: Conn)
    requires Ready(app.grammar, c.ctx)
    ensures |AfterShutdown(app, c).input| <= |c.input|
  {
    hide Serve;
    ServeShrinks(app, c.ctx, c.input);
  }

  // ---- the connection object ----

  class Connection {
    const app: App
    const inBuffer: Buffer
    const outBuffer: Buffer
    const context: HttpContext
    var statu: ConnStatu
    var writing: bool             // EPOLLOUT is monitored
    ghost var releases: nat       // ReleaseInLoop tasks in the event loop's queue
    ghost var closedCalls: nat    // times the closed callback has run
    ghost var sent: string
    ghost var accepted: string

    ghost predicate Valid()
      reads this, inBuffer, inBuffer.data, outBuffer, outBuffer.data, context
    {
      && inBuffer != outBuffer && inBuffer.data != outBuffer.data
      && inBuffer.Valid() && outBuffer.Valid()
      && context.grammar == app.grammar && Ready(app.grammar, context.State())
    }

    ghost function State(): Conn
      requires inBuffer.Valid() && outBuffer.Valid()
      reads this, inBuffer, inBuffer.data, outBuffer, outBuffer.data, context
    {
      Conn(statu, inBuffer.Contents(), outBuffer.Contents(), context.State(), writing,
           releases, closedCalls, sent, accepted)
    }

    constructor (app: App)
      ensures Valid() && fresh(inBuffer) && fresh(inBuffer.data) && fresh(outBuffer)
      ensures fresh(outBuffer.data) && fresh(context)
      ensures this.app == app
      ensures State() == Conn(CONNECTING, "", "", NEW_CONTEXT, false, 0, 0, "", "")
    {
      this.app := app;
      inBuffer := new Buffer();
      outBuffer := new Buffer();
      context := new HttpContext(app.grammar);
      statu, writing := CONNECTING, false;
      releases, closedCalls, sent, accepted := 0, 0, "", "";
    }

    /** The connected callback installs a new HttpContext. */
    method Established()
      requires Valid() && statu == CONNECTING
      modifies this, context
      ensures Valid() && State() == AfterEstablished(old(State()))
      ensures statu == CONNECTED && context.State() == NEW_CONTEXT
      ensures inBuffer.Contents() == old(inBuffer.Contents()) && outBuffer.Contents() == old(outBuffer.Contents())
    {
      statu := CONNECTED;
      context.ReSet();
    }

    method Send(data: string)
      requires inBuffer != outBuffer && inBuffer.data != outBuffer.data
      requires inBuffer.Valid() && outBuffer.Valid()
      modifies this`writing, this`accepted, outBuffer, outBuffer.data
      ensures inBuffer.Valid() && outBuffer.Valid() && inBuffer.data != outBuffer.data
      ensures outBuffer.data == old(outBuffer.data) || fresh(outBuffer.data)
      ensures State() == AfterSend(old(State()), data)
    {
      var buf := new Buffer();
      buf.WriteAndPush(data);
      SendInLoop(buf);
    }

    method SendInLoop(buf: Buffer)
      requires inBuffer != outBuffer && inBuffer.data != outBuffer.data
      requires inBuffer.Valid() && outBuffer.Valid()
      requires buf.Valid() && buf != outBuffer && buf.data != outBuffer.data
      modifies this`writing, this`accepted, outBuffer, outBuffer.data
      ensures inBuffer.Valid() && outBuffer.Valid() && inBuffer.data != outBuffer.data
      ensures outBuffer.data == old(outBuffer.data) || fresh(outBuffer.data)
      ensures State() == AfterSend(old(State()), old(buf.Contents()))
      ensures statu == DISCONNECTED ==> State() == old(State())
      ensures statu != DISCONNECTED ==>
                writing && outBuffer.Contents() == old(outBuffer.Contents()) + old(buf.Contents())
    {
      if statu == DISCONNECTED { return; }
      accepted := accepted + buf.Contents();
      outBuffer.WriteBufferAndPush(buf);
      if !writing { writing := true; }
    }

    /** A reply goes out and the parser starts over. */
    method Answer(bytes: Response)
      requires inBuffer != outBuffer && inBuffer.data != outBuffer.data
      requires inBuffer.Valid() && outBuffer.Valid() && context.grammar == app.grammar
      requires statu != DISCONNECTED
      modifies this`writing, this`accepted, outBuffer, outBuffer.data, context
      ensures Valid()
      ensures outBuffer.data == old(outBuffer.data) || fresh(outBuffer.data)
      ensures State() == AfterSend(old(State()), bytes).(ctx := NEW_CONTEXT)
    {
      Send(bytes);
      context.ReSet();
    }

    method DropInput()
      requires Valid()
      modifies inBuffer`reader
      ensures Valid()
      ensures State() == old(State()).(input := "")
    {
      inBuffer.MoveReadOffset(inBuffer.ReadAbleSize());
    }

    /** Re-entered through Shutdown; it terminates because every reply is paid for with input bytes. */
    method OnMessage()
      requires Valid() && statu != DISCONNECTED
      modifies this, inBuffer`reader, outBuffer, outBuffer.data, context
      ensures Valid() && statu != DISCONNECTED
      ensures outBuffer.data == old(outBuffer.data) || fresh(outBuffer.data)
      ensures State() == AfterMessage(app, old(State()))
      decreases |inBuffer.Contents()|, 1
    {
      hide AfterMessage, Recv, Ready;
      ghost var c0 := State();
      while inBuffer.ReadAbleSize() > 0
        invariant Valid() && statu != DISCONNECTED
        invariant inBuffer.data == old(inBuffer.data) && |inBuffer.Contents()| <= |c0.input|
        invariant outBuffer.data == old(outBuffer.data) || fresh(outBuffer.data)
        invariant AfterMessage(app, State()) == AfterMessage(app, c0)
        decreases |inBuffer.Contents()|
      {
        var more := HandleOne();
        if !more { return; }
      }
      MessageWaits(app, State());
    }

    /** The loop body: parse, answer, maybe shut down. False where the source returns from the loop. */
    method HandleOne() returns (more: bool)
      requires Valid() && statu != DISCONNECTED && inBuffer.Contents() != ""
      modifies this, inBuffer`reader, outBuffer, outBuffer.data, context
      ensures Valid() && statu != DISCONNECTED
      ensures outBuffer.data == old(outBuffer.data) || fresh(outBuffer.data)
      ensures more ==> |inBuffer.Contents()| < |old(inBuffer.Contents())|
      ensures more ==> AfterMessage(app, State()) == AfterMessage(app, old(State()))
      ensures !more ==> State() == AfterMessage(app, old(State()))
      decreases |inBuffer.Contents()|, 0
    {
      hide AfterMessage, AfterShutdown, Recv, Ready, Resting;
      ghost var c := State();
      ReadyRests(app.grammar, c.ctx, c.input);
      context.RecvHttpRequest(inBuffer);
      if context.respStatu >= 400 {
        MessageFails(app, c);
        Answer(app.error(context.request, context.respStatu));
        DropInput();
        Shutdown();
        return false;
      }
      if context.recvStatu != RECV_HTTP_OVER {
        MessageWaits(app, c);
        StillReady(app.grammar, c.ctx, c.input);
        return false;
      }
      MessageTurn(app, c);
      var rsp := app.route(context.request);
      Answer(rsp.bytes);
      if rsp.close {
        ghost var d := State();
        Shutdown();
        ShutdownShrinks(app, d);
      }
      return true;
    }

    /** RunInLoop runs ShutdownInLoop at once: the callers are on the loop's own thread. */
    method Shutdown()
      requires Valid()
      modifies this, inBuffer`reader, outBuffer, outBuffer.data, context
      ensures Valid() && statu != DISCONNECTED
      ensures outBuffer.data == old(outBuffer.data) || fresh(outBuffer.data)
      ensures State() == AfterShutdown(app, old(State()))
      decreases |inBuffer.Contents()|, 2
    {
      hide AfterMessage, Ready;
      statu := DISCONNECTING;
      if inBuffer.ReadAbleSize() > 0 && statu != DISCONNECTED {
        OnMessage();
      }
      if outBuffer.ReadAbleSize() > 0 {
        if !writing { writing := true; }
      }
      if outBuffer.ReadAbleSize() == 0 {
        Release();
      }
    }

    /** Queues ReleaseInLoop. */
    method Release()
      modifies this`releases
      ensures releases == old(releases) + 1
    {
      releases := releases + 1;
    }

    /** None: the socket failed or the peer closed; Some(""): nothing to read yet. */
    method HandleRead(ret: Option<string>)
      requires Valid()
      modifies this, inBuffer, inBuffer.data, outBuffer, outBuffer.data, context
      ensures Valid()
      ensures inBuffer.data == old(inBuffer.data) || fresh(inBuffer.data)
      ensures outBuffer.data == old(outBuffer.data) || fresh(outBuffer.data)
      ensures State() == if ret == None then AfterRelease(old(State())) else AfterRead(app, old(State()), ret.value)
    {
      hide AfterMessage, Ready;
      if ret == None {
        Release();
        return;
      }
      inBuffer.WriteAndPush(ret.value);
      if inBuffer.ReadAbleSize() > 0 {
        if statu != DISCONNECTED && statu != DISCONNECTING {
          OnMessage();
        }
      }
    }

    /** None: the send failed; Some(n): the socket took n of the offered bytes. */
    method HandleWrite(ret: Option<nat>)
      requires Valid() && (ret.Some? ==> ret.value <= |outBuffer.Contents()|)
      modifies this, inBuffer`reader, outBuffer, outBuffer.data, context
      ensures Valid()
      ensures outBuffer.data == old(outBuffer.data) || fresh(outBuffer.data)
      ensures State() == if ret == None then AfterLoss(app, old(State())) else AfterWrite(old(State()), ret.value)
    {
      hide AfterMessage, Ready;
      if ret == None {
        if inBuffer.ReadAbleSize() > 0 && statu != DISCONNECTED {
          OnMessage();
        }
        Release();
        return;
      }
      sent := sent + outBuffer.Contents()[..ret.value];
      outBuffer.MoveReadOffset(ret.value);
      if outBuffer.ReadAbleSize() == 0 {
        writing := false;
        if statu == DISCONNECTING {
          Release();
        }
      }
    }

    method HandleClose()
      requires Valid()
      modifies this, inBuffer`reader, outBuffer, outBuffer.data, context
      ensures Valid()
      ensures outBuffer.data == old(outBuffer.data) || fresh(outBuffer.data)
      ensures State() == AfterLoss(app, old(State()))
    {
      hide AfterMessage, Ready;
      if inBuffer.ReadAbleSize() > 0 && statu != DISCONNECTED {
        OnMessage();
      }
      Release();
    }

    /** The event loop takes one ReleaseInLoop task off its queue and runs it. */
    method ReleaseInLoop()
      requires Valid() && releases > 0
      modifies this
      ensures Valid()
      ensures State() == AfterReleaseTask(old(State()))
    {
      releases := releases - 1;
      if statu == DISCONNECTED { return; }
      statu := DISCONNECTED;
      closedCalls := closedCalls + 1;
    }
  }
}
