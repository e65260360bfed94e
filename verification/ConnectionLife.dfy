/** Whole lives of a connection: every sequence of socket events and release tasks. */
module ConnectionLife {
  import opened Text
  import opened HttpMessage
  import opened HttpFraming
  import opened HttpServer
  import opened HttpConnection

  datatype Event =
    | Establish                                // EstablishedInLoop
    | Read(data: string) | ReadFailed          // HandleRead
    | Wrote(n: nat) | WriteFailed              // HandleWrite
    | HungUp                                   // HandleClose and HandleError
    | TimedOut                                 // the inactivity timer calls Release
    | ReleaseRuns                              // a queued ReleaseInLoop

  /** The channel is monitored from Established to the release. */
  predicate Monitored(c: Conn) { c.statu in {CONNECTED, DISCONNECTING} }

  /** Establishing asserts a new connection; write events need write interest. */
  predicate Enabled(c: Conn, e: Event) {
    match e
    case Establish => c.statu == CONNECTING
    case Wrote(n) => Monitored(c) && c.writing && n <= |c.output|
    case WriteFailed => Monitored(c) && c.writing
    case TimedOut => true
    case ReleaseRuns => c.releases > 0
    case _ => Monitored(c)
  }

  ghost function After(app: App, c: Conn, e: Event): (d: Conn)
    requires Ready(app.grammar, c.ctx) && Enabled(c, e)
    ensures Ready(app.grammar, d.ctx)
  {
    match e
    case Establish => AfterEstablished(c)
    case Read(data) => AfterRead(app, c, data)
    case ReadFailed => AfterRelease(c)
    case Wrote(n) => AfterWrite(c, n)
    case WriteFailed => AfterLoss(app, c)
    case HungUp => AfterLoss(app, c)
    case TimedOut => AfterRelease(c)
    case ReleaseRuns => AfterReleaseTask(c)
  }

  ghost predicate Possible(app: App, c: Conn, es: seq<Event>)
    requires Ready(app.grammar, c.ctx)
    decreases |es|
  {
    es == [] || (Enabled(c, es[0]) && Possible(app, After(app, c, es[0]), es[1..]))
  }

  ghost function Life(app: App, c: Conn, es: seq<Event>): (d: Conn)
    requires Ready(app.grammar, c.ctx) && Possible(app, c, es)
    ensures Ready(app.grammar, d.ctx)
    decreases |es|
  {
    if es == [] then c else Life(app, After(app, c, es[0]), es[1..])
  }

  const BORN: Conn := Conn(CONNECTING, "", "", NEW_CONTEXT, false, 0, 0, "", "")

  /** The connection once established. */
  const OPEN: Conn := AfterEstablished(BORN)

  lemma BornReady(app: App)
    ensures Ready(app.grammar, BORN.ctx) && After(app, BORN, Establish) == OPEN
  {
  }

  // ---- what every life keeps ----

  /**
   * Accepted bytes are sent or waiting, waiting bytes are being watched, it closes once, and a closing
   * connection is either still draining or has its release queued.
   */
  ghost predicate Sound(c: Conn) {
    && (c.statu == CONNECTING ==> c.input == "" && c.output == "")
    && c.sent + c.output == c.accepted
    && (c.writing <==> c.output != "")
    && c.closedCalls == (if c.statu == DISCONNECTED then 1 else 0)
    && (c.statu == DISCONNECTING && c.output == "" ==> c.releases > 0)
  }

  lemma JoinedNonempty(rs: seq<Response>)
    ensures Joined(rs) == "" <==> rs == []
  {
  }

  /** Who closes has answered: the loop shuts down only behind a reply. */
  lemma ClosingReplies(app: App, c: Context, buf: string)
    requires Ready(app.grammar, c)
    ensures Serve(app, c, buf).closing ==> Serve(app, c, buf).replies != []
  {
    hide Recv;
    if buf != "" { ServeTurn(app, c, buf); }
  }

  lemma MessageSound(app: App, c: Conn)
    requires Ready(app.grammar, c.ctx) && Sound(c) && Monitored(c)
    ensures Sound(AfterMessage(app, c)) && Monitored(AfterMessage(app, c))
    ensures AfterMessage(app, c).releases == c.releases
  {
    hide Serve;
    var rs := Serve(app, c.ctx, c.input).replies;
    ClosingReplies(app, c.ctx, c.input);
    JoinedNonempty(rs);
    Assoc(c.sent, c.output, Joined(rs));
  }

  lemma StepSound(app: App, c: Conn, e: Event)
    requires Ready(app.grammar, c.ctx) && Sound(c) && Enabled(c, e)
    ensures Sound(After(app, c, e))
  {
    hide AfterMessage;
    match e
    case Read(data) =>
      MessageSound(app, c.(input := c.input + data));
    case Wrote(n) =>
      assert c.output == c.output[..n] + c.output[n..];
      Assoc(c.sent, c.output[..n], c.output[n..]);
    case WriteFailed => MessageSound(app, c);
    case HungUp => MessageSound(app, c);
    case _ =>
  }

  lemma {:induction false} LifeSound(app: App, c: Conn, es: seq<Event>)
    requires Ready(app.grammar, c.ctx) && Sound(c) && Possible(app, c, es)
    ensures Sound(Life(app, c, es))
    ensures c.statu == DISCONNECTED ==> Life(app, c, es).statu == DISCONNECTED
    decreases |es|
  {
    hide After;
    if es != [] {
      StepSound(app, c, es[0]);
      if c.statu == DISCONNECTED { Absorbing(app, c, es[0]); }
      LifeSound(app, After(app, c, es[0]), es[1..]);
    }
  }

  lemma Absorbing(app: App, c: Conn, e: Event)
    requires Ready(app.grammar, c.ctx) && Enabled(c, e) && c.statu == DISCONNECTED
    ensures After(app, c, e).statu == DISCONNECTED && After(app, c, e).closedCalls == c.closedCalls
  {
  }

  /**
   * In every life: no accepted byte is lost or reordered, the closed callback runs at most once, and a
   * closing connection never gets stuck: it drains or its release is queued.
   */
  lemma EveryLife(app: App, es: seq<Event>)
    requires Ready(app.grammar, BORN.ctx) && Possible(app, BORN, es)
    ensures var c := Life(app, BORN, es);
            && c.sent + c.output == c.accepted
            && (c.output != "" <==> c.writing)
            && c.closedCalls <= 1 && (c.closedCalls == 1 <==> c.statu == DISCONNECTED)
            && (c.statu == DISCONNECTING ==> c.writing || c.releases > 0)
  {
    LifeSound(app, BORN, es);
  }

  // ---- release only once drained ----

  predicate Quiet(e: Event) { e.Establish? || e.Read? || e.Wrote? || e.ReleaseRuns? }

  /** A release is only ever queued, or carried out, with nothing left to send. */
  ghost predicate Drained(c: Conn) {
    && (c.releases > 0 ==> c.statu in {DISCONNECTING, DISCONNECTED} && c.output == "")
    && (c.statu == DISCONNECTED ==> c.output == "")
  }

  lemma QuietStep(app: App, c: Conn, e: Event)
    requires Ready(app.grammar, c.ctx) && Sound(c) && Drained(c) && Enabled(c, e) && Quiet(e)
    ensures Drained(After(app, c, e))
  {
    hide AfterMessage;
    match e
    case Read(data) =>
      MessageSound(app, c.(input := c.input + data));
    case _ =>
  }

  lemma {:induction false} QuietDrains(app: App, c: Conn, es: seq<Event>)
    requires Ready(app.grammar, c.ctx) && Sound(c) && Drained(c) && Possible(app, c, es)
    requires forall e :: e in es ==> Quiet(e)
    ensures Drained(Life(app, c, es))
    decreases |es|
  {
    hide After;
    if es != [] {
      assert es[0] in es;
      StepSound(app, c, es[0]);
      QuietStep(app, c, es[0]);
      QuietDrains(app, After(app, c, es[0]), es[1..]);
    }
  }

  /** Without I/O errors, peer close or inactivity, a released connection has sent all it accepted. */
  lemma ReleasedOnlyDrained(app: App, es: seq<Event>)
    requires Ready(app.grammar, BORN.ctx) && Possible(app, BORN, es)
    requires forall e :: e in es ==> Quiet(e)
    ensures var c := Life(app, BORN, es);
            c.statu == DISCONNECTED ==> c.sent == c.accepted
  {
    LifeSound(app, BORN, es);
    QuietDrains(app, BORN, es);
    var c := Life(app, BORN, es);
    if c.statu == DISCONNECTED { assert c.sent + "" == c.sent; }
  }

  // ---- a lost connection is released ----

  /** The socket failed, the peer hung up, or the connection was idle for too long. */
  predicate Loses(e: Event) { e.ReadFailed? || e.WriteFailed? || e.HungUp? || e.TimedOut? }

  ghost predicate Ending(c: Conn) { c.statu == DISCONNECTED || c.releases > 0 }

  lemma EndingStep(app: App, c: Conn, e: Event)
    requires Ready(app.grammar, c.ctx) && Enabled(c, e) && (Ending(c) || Loses(e))
    ensures Ending(After(app, c, e))
  {
    hide Serve;
  }

  lemma {:induction false} EndingStays(app: App, c: Conn, es: seq<Event>)
    requires Ready(app.grammar, c.ctx) && Possible(app, c, es)
    requires Ending(c) || exists e :: e in es && Loses(e)
    ensures Ending(Life(app, c, es))
    decreases |es|
  {
    hide After, Enabled, Ending;
    if es != [] {
      if Ending(c) || Loses(es[0]) { EndingStep(app, c, es[0]); }
      EndingStays(app, After(app, c, es[0]), es[1..]);
    }
  }

  /** Every life with an I/O error, a hang-up or a timeout in it ends released or with its release queued. */
  lemma LostIsReleased(app: App, es: seq<Event>)
    requires Ready(app.grammar, BORN.ctx) && Possible(app, BORN, es)
    requires exists e :: e in es && Loses(e)
    ensures var c := Life(app, BORN, es); c.statu == DISCONNECTED || c.releases > 0
  {
    EndingStays(app, BORN, es);
  }

  /**
   * A failed send or a hang-up answers what is still in the input buffer, like a read would, and then
   * queues one release; a failed read or a timeout queues one release and touches nothing else.
   */
  lemma LossAnswersInput(app: App, c: Conn, e: Event)
    requires Ready(app.grammar, c.ctx) && Enabled(c, e) && Loses(e)
    ensures var d, s := After(app, c, e), Serve(app, c.ctx, c.input);
            && d.releases == c.releases + 1 && d.sent == c.sent
            && (e.WriteFailed? || e.HungUp? ==>
                  && d.accepted == c.accepted + Joined(s.replies) && d.output == c.output + Joined(s.replies)
                  && d.input == s.rest && d.ctx == s.ctx)
            && (e.ReadFailed? || e.TimedOut? ==> d == c.(releases := d.releases))
  {
    hide Serve;
    if c.input == "" {
      ServeNothing(app, c.ctx);
      assert c.accepted + "" == c.accepted && c.output + "" == c.output;
    }
  }

  /** A shutdown answers the input still buffered; then it waits for the output to drain, or queues the release. */
  lemma ShutdownAnswersInput(app: App, c: Conn)
    requires Ready(app.grammar, c.ctx)
    ensures var d, s := AfterShutdown(app, c), Serve(app, c.ctx, c.input);
            && d.statu == DISCONNECTING && d.sent == c.sent && d.closedCalls == c.closedCalls
            && d.accepted == c.accepted + Joined(s.replies) && d.output == c.output + Joined(s.replies)
            && d.input == s.rest && d.ctx == s.ctx
            && (if d.output != "" then d.writing && d.releases == c.releases else d.releases == c.releases + 1)
  {
    hide Serve;
    if c.input == "" {
      ServeNothing(app, c.ctx);
      assert c.accepted + "" == c.accepted && c.output + "" == c.output;
    }
  }

  /**
   * DISCONNECTED is absorbing only because nothing but the message callback calls Shutdown:
   * a Shutdown run after the release revives the connection, and it then closes a second time.
   */
  lemma LateShutdownRevives(app: App, c: Conn)
    requires Ready(app.grammar, c.ctx) && c.statu == DISCONNECTED
    ensures var d := AfterShutdown(app, c);
            && d.statu == DISCONNECTING
            && (d.releases > 0 ==> AfterReleaseTask(d).closedCalls == c.closedCalls + 1)
            && (c.output == "" && Handled(app.grammar, c.ctx, c.input) == 0 ==> d.releases > 0)
  {
    hide Serve;
    OneReplyPerRequest(app, c.ctx, c.input);
  }

  // ---- how the reads were split ----

  ghost function ReadAll(app: App, c: Conn, chunks: seq<string>): (d: Conn)
    requires Ready(app.grammar, c.ctx)
    ensures Ready(app.grammar, d.ctx)
    decreases |chunks|
  {
    if chunks == [] then c else ReadAll(app, AfterRead(app, c, chunks[0]), chunks[1..])
  }

  lemma ConnectedRead(app: App, c: Conn, data: string)
    requires Ready(app.grammar, c.ctx) && c.statu == CONNECTED
    ensures AfterRead(app, c, data) == AfterMessage(app, c.(input := c.input + data))
  {
    hide AfterMessage;
    if c.input + data == "" { MessageWaits(app, c.(input := "")); }
  }

  lemma {:induction false} JoinedConcat(rs: seq<Response>, ts: seq<Response>)
    ensures Joined(rs + ts) == Joined(rs) + Joined(ts)
  {
    if rs == [] {
      assert rs + ts == ts;
    } else {
      JoinedConcat(rs[1..], ts);
      assert rs + ts == [rs[0]] + (rs[1..] + ts);
      JoinedOne(rs[0], rs[1..] + ts);
      Assoc(rs[0], Joined(rs[1..]), Joined(ts));
    }
  }

  /**
   * Two reads in a row, compared with one read of both. They get the same replies exactly if no reply to
   * the first read closes, or the second read finishes no further message.
   */
  lemma TwoReads(app: App, c: Conn, a: string, b: string)
    requires Ready(app.grammar, c.ctx) && c.statu == CONNECTED
    ensures var d, w, g := AfterRead(app, c, a), AfterRead(app, c, a + b), app.grammar;
            Ready(g, d.ctx)
            && (if d.statu == CONNECTED then AfterRead(app, d, b) == w
                else d.statu == DISCONNECTING && w.statu == DISCONNECTING && d.accepted <= w.accepted)
            && (AfterRead(app, d, b).accepted == w.accepted <==>
                || !SomeCloses(app, Requests(g, c.ctx, c.input + a))
                || Handled(g, c.ctx, c.input + (a + b)) == Handled(g, c.ctx, c.input + a))
  {
    hide Serve, Handled, Requests, SomeCloses;
    ConnectedRead(app, c, a);
    ConnectedRead(app, c, a + b);
    var d := AfterRead(app, c, a);
    var s := Serve(app, c.ctx, c.input + a);
    var t := Serve(app, s.ctx, s.rest + b);
    Assoc(c.input, a, b);
    ServeResumes(app, c.ctx, c.input + a, b);
    OneReplyPerRequest(app, c.ctx, c.input + a);
    OneReplyPerRequest(app, c.ctx, c.input + (a + b));
    JoinedConcat(s.replies, t.replies);
    JoinedNonempty(t.replies);
    Assoc(c.output, Joined(s.replies), Joined(t.replies));
    Assoc(c.accepted, Joined(s.replies), Joined(t.replies));
    if d.statu == CONNECTED { ConnectedRead(app, d, b); }
  }

  lemma {:induction false} ClosingOnlyBuffers(app: App, c: Conn, chunks: seq<string>)
    requires Ready(app.grammar, c.ctx) && c.statu == DISCONNECTING
    ensures ReadAll(app, c, chunks).accepted == c.accepted
    decreases |chunks|
  {
    if chunks != [] { ClosingOnlyBuffers(app, AfterRead(app, c, chunks[0]), chunks[1..]); }
  }

  /**
   * How the peer's bytes were split into reads: the replies are always a prefix of those to one
   * read of everything, and the whole state is the same while the connection stays open. (Behind
   * a reply that closes, only requests of the same read are still answered.)
   */
  lemma {:induction false} ReadsAreOneRead(app: App, c: Conn, chunks: seq<string>)
    requires Ready(app.grammar, c.ctx) && c.statu == CONNECTED
    requires AfterMessage(app, c) == c
    ensures var r, w := ReadAll(app, c, chunks), AfterRead(app, c, Flatten(chunks));
            r.accepted <= w.accepted && (w.statu == CONNECTED ==> r == w)
    decreases |chunks|
  {
    hide AfterMessage, AfterRead;
    ConnectedRead(app, c, Flatten(chunks));
    if chunks == [] {
      assert c.input + "" == c.input;
    } else {
      var x := chunks[0];
      var d := AfterRead(app, c, x);
      TwoReads(app, c, x, Flatten(chunks[1..]));
      ConnectedRead(app, c, x);
      MessageIdempotent(app, c.(input := c.input + x));
      if d.statu == CONNECTED {
        ReadsAreOneRead(app, d, chunks[1..]);
      } else {
        ClosingOnlyBuffers(app, d, chunks[1..]);
      }
    }
  }

  // ---- exactly which replies a split loses ----

  /** What has arrived after the first i reads. */
  function Arrived(c: Conn, chunks: seq<string>, i: nat): string
    requires i <= |chunks|
  {
    c.input + Flatten(chunks[..i])
  }

  lemma ArrivedNext(c: Conn, chunks: seq<string>, i: nat)
    requires chunks != [] && 0 < i <= |chunks|
    ensures Flatten(chunks[..i]) == chunks[0] + Flatten(chunks[1..][..i - 1])
    ensures Arrived(c, chunks, i) == (c.input + chunks[0]) + Flatten(chunks[1..][..i - 1])
  {
    assert chunks[..i][0] == chunks[0] && chunks[..i][1..] == chunks[1..][..i - 1];
    Assoc(c.input, chunks[0], Flatten(chunks[1..][..i - 1]));
  }

  /** After a first read that does not close, the rest arrives at a connection that answered it. */
  lemma FirstReadServed(app: App, c: Conn, chunks: seq<string>, i: nat)
    requires Ready(app.grammar, c.ctx) && c.statu == CONNECTED && chunks != [] && 0 < i <= |chunks|
    requires !Serve(app, c.ctx, c.input + chunks[0]).closing
    ensures var d, s := AfterRead(app, c, chunks[0]), Serve(app, c.ctx, c.input + chunks[0]);
            var t := Serve(app, d.ctx, Arrived(d, chunks[1..], i - 1));
            && d.statu == CONNECTED && d.accepted == c.accepted + Joined(s.replies)
            && Serve(app, c.ctx, Arrived(c, chunks, i)).replies == s.replies + t.replies
            && Serve(app, c.ctx, Arrived(c, chunks, i)).closing == t.closing
  {
    hide Serve;
    ConnectedRead(app, c, chunks[0]);
    ArrivedNext(c, chunks, i);
    ServeResumes(app, c.ctx, c.input + chunks[0], Flatten(chunks[1..][..i - 1]));
    OneReplyPerRequest(app, c.ctx, c.input + chunks[0]);
  }

  /** The reads up to the first that closes are answered as one read, and the later ones not at all. */
  lemma {:induction false} AnsweredUntilClosing(app: App, c: Conn, chunks: seq<string>) returns (k: nat)
    requires Ready(app.grammar, c.ctx) && c.statu == CONNECTED
    requires AfterMessage(app, c) == c
    ensures k <= |chunks|
    ensures forall i :: 0 <= i < k ==> !Serve(app, c.ctx, Arrived(c, chunks, i)).closing
    ensures k < |chunks| ==> Serve(app, c.ctx, Arrived(c, chunks, k)).closing
    ensures ReadAll(app, c, chunks).accepted == c.accepted + Joined(Serve(app, c.ctx, Arrived(c, chunks, k)).replies)
    decreases |chunks|
  {
    hide Serve, Arrived, AfterRead, AfterMessage;
    NothingArrived(app, c, chunks);
    k := 0;
    if chunks != [] {
      var x, d := chunks[0], AfterRead(app, c, chunks[0]);
      ArrivedNext(c, chunks, 1);
      assert Flatten(chunks[1..][..0]) == "" && (c.input + x) + "" == c.input + x;
      ReadAccepts(app, c, x);
      if Serve(app, c.ctx, c.input + x).closing {
        ClosingOnlyBuffers(app, d, chunks[1..]);
        k := 1;
      } else {
        MessageIdempotent(app, c.(input := c.input + x));
        ConnectedRead(app, c, x);
        var n := AnsweredUntilClosing(app, d, chunks[1..]);
        k := n + 1;
        forall i | 0 < i <= |chunks|
          ensures Serve(app, c.ctx, Arrived(c, chunks, i)).closing
               == Serve(app, d.ctx, Arrived(d, chunks[1..], i - 1)).closing
        {
          FirstReadServed(app, c, chunks, i);
        }
        FirstReadServed(app, c, chunks, k);
        var s, t := Serve(app, c.ctx, c.input + x), Serve(app, d.ctx, Arrived(d, chunks[1..], n));
        JoinedConcat(s.replies, t.replies);
        Assoc(c.accepted, Joined(s.replies), Joined(t.replies));
      }
    }
  }

  lemma NothingArrived(app: App, c: Conn, chunks: seq<string>)
    requires Ready(app.grammar, c.ctx) && c.statu == CONNECTED
    requires AfterMessage(app, c) == c
    ensures Arrived(c, chunks, 0) == c.input
    ensures var s := Serve(app, c.ctx, c.input); !s.closing && s.replies == []
  {
    hide Serve;
    assert chunks[..0] == [] && c.input + "" == c.input;
    var s := Serve(app, c.ctx, c.input);
    assert |c.output + Joined(s.replies)| == |c.output| + |Joined(s.replies)|;
    JoinedNonempty(s.replies);
  }

  lemma ReadAccepts(app: App, c: Conn, data: string)
    requires Ready(app.grammar, c.ctx) && c.statu == CONNECTED
    ensures var d, s := AfterRead(app, c, data), Serve(app, c.ctx, c.input + data);
            && Ready(app.grammar, d.ctx) && d.accepted == c.accepted + Joined(s.replies)
            && d.statu == if s.closing then DISCONNECTING else CONNECTED
  {
    hide Serve;
    ConnectedRead(app, c, data);
  }

  /** More bytes never take a handled message back. */
  lemma HandledGrows(app: App, c: Context, a: string, b: string)
    requires Ready(app.grammar, c)
    ensures var g, s, w := app.grammar, Serve(app, c, a), Serve(app, c, a + b);
            && Handled(g, c, a) <= Handled(g, c, a + b)
            && (Joined(w.replies) == Joined(s.replies) <==> Handled(g, c, a + b) == Handled(g, c, a))
            && (s.failed ==> Handled(g, c, a + b) == Handled(g, c, a))
  {
    hide Serve, Handled;
    var s := Serve(app, c, a);
    ServeResumes(app, c, a, b);
    OneReplyPerRequest(app, c, a);
    OneReplyPerRequest(app, c, a + b);
    if !s.failed {
      var t := Serve(app, s.ctx, s.rest + b);
      JoinedConcat(s.replies, t.replies);
      JoinedNonempty(t.replies);
      assert |Joined(s.replies) + Joined(t.replies)| == |Joined(s.replies)| + |Joined(t.replies)|;
    }
  }

  lemma {:induction false} FlattenSplit(chunks: seq<string>, i: nat)
    requires i <= |chunks|
    ensures Flatten(chunks) == Flatten(chunks[..i]) + Flatten(chunks[i..])
  {
    if i == 0 {
      assert chunks[..0] == [] && chunks[0..] == chunks;
    } else {
      FlattenSplit(chunks[1..], i - 1);
      assert chunks[..i][1..] == chunks[1..][..i - 1] && chunks[i..] == chunks[1..][i - 1..];
      Assoc(chunks[0], Flatten(chunks[1..][..i - 1]), Flatten(chunks[i..]));
    }
  }

  lemma ArrivedHandled(app: App, c: Conn, chunks: seq<string>, i: nat, k: nat)
    requires Ready(app.grammar, c.ctx) && i <= k <= |chunks|
    ensures var g, a, b := app.grammar, Arrived(c, chunks, i), Arrived(c, chunks, k);
            && Handled(g, c.ctx, a) <= Handled(g, c.ctx, b)
            && (Joined(Serve(app, c.ctx, b).replies) == Joined(Serve(app, c.ctx, a).replies) <==>
                Handled(g, c.ctx, b) == Handled(g, c.ctx, a))
            && (Serve(app, c.ctx, a).failed ==> Handled(g, c.ctx, b) == Handled(g, c.ctx, a))
  {
    hide Serve, Handled;
    FlattenSplit(chunks[..k], i);
    assert chunks[..k][..i] == chunks[..i];
    Assoc(c.input, Flatten(chunks[..i]), Flatten(chunks[..k][i..]));
    HandledGrows(app, c.ctx, Arrived(c, chunks, i), Flatten(chunks[..k][i..]));
  }

  /**
   * The split into reads loses no reply if and only if no message is finished after a read that
   * completed a request whose reply closes.
   */
  lemma ReadsAnswerAll(app: App, c: Conn, chunks: seq<string>)
    requires Ready(app.grammar, c.ctx) && c.statu == CONNECTED
    requires AfterMessage(app, c) == c
    ensures var g, all := app.grammar, c.input + Flatten(chunks);
            ReadAll(app, c, chunks).accepted == AfterRead(app, c, Flatten(chunks)).accepted <==>
            forall i :: 0 <= i <= |chunks| && SomeCloses(app, Requests(g, c.ctx, Arrived(c, chunks, i))) ==>
              Handled(g, c.ctx, Arrived(c, chunks, i)) == Handled(g, c.ctx, all)
  {
    hide Serve, Handled, Requests, SomeCloses, AfterRead, AfterMessage, Arrived;
    var n, g := |chunks|, app.grammar;
    var k := AnsweredUntilClosing(app, c, chunks);
    assert Arrived(c, chunks, n) == c.input + Flatten(chunks) by { WholeArrived(c, chunks); }
    ReadAccepts(app, c, Flatten(chunks));
    ArrivedHandled(app, c, chunks, k, n);
    SameTail(c.accepted, Joined(Serve(app, c.ctx, Arrived(c, chunks, k)).replies),
             Joined(Serve(app, c.ctx, Arrived(c, chunks, n)).replies));
    forall i | 0 <= i <= n
      ensures SomeCloses(app, Requests(g, c.ctx, Arrived(c, chunks, i))) ==> k <= i
      ensures k <= i ==> Handled(g, c.ctx, Arrived(c, chunks, k)) <= Handled(g, c.ctx, Arrived(c, chunks, i))
      ensures Handled(g, c.ctx, Arrived(c, chunks, i)) <= Handled(g, c.ctx, Arrived(c, chunks, n))
    {
      OneReplyPerRequest(app, c.ctx, Arrived(c, chunks, i));
      ArrivedHandled(app, c, chunks, i, n);
      if k <= i { ArrivedHandled(app, c, chunks, k, i); }
    }
    OneReplyPerRequest(app, c.ctx, Arrived(c, chunks, k));
  }

  lemma WholeArrived(c: Conn, chunks: seq<string>)
    ensures Arrived(c, chunks, |chunks|) == c.input + Flatten(chunks)
  {
    assert chunks[..|chunks|] == chunks;
  }

  lemma SameTail(a: string, b: string, c: string)
    ensures a + b == a + c <==> b == c
  {
    assert (a + b)[|a|..] == b && (a + c)[|a|..] == c;
  }

  /** Two well-formed messages, the reply to the first closing, the reads split between them: one reply is lost. */
  lemma SplitLosesReply(app: App, m: Message, n: Message) returns (r: Response, t: Response)
    requires WellFormed(app.grammar, m) && WellFormed(app.grammar, n)
    requires forall q: HttpRequest :: Denotes(app.grammar, m, q) ==> app.route(q).close
    ensures Ready(app.grammar, OPEN.ctx) && Answers(app, m, r) && Answers(app, n, t)
    ensures AfterRead(app, OPEN, PrintMessage(m) + PrintMessage(n)).accepted == r + t
    ensures ReadAll(app, OPEN, [PrintMessage(m), PrintMessage(n)]).accepted == r
  {
    hide Serve, WellFormed, Denotes, Requests, Recv;
    BornReady(app);
    var a, b := PrintMessage(m), PrintMessage(n);
    TwoMessages(m, n);
    PipelinedMessages(app, [m]);
    PipelinedMessages(app, [m, n]);
    MessagesAreRequests(app.grammar, [m]);
    OneReplyPerRequest(app, NEW_CONTEXT, a);
    ServeResumes(app, NEW_CONTEXT, a, b);
    ReadAccepts(app, OPEN, a);
    ReadAccepts(app, OPEN, a + b);
    assert "" + a == a && "" + (a + b) == a + b;
    var s, w := Serve(app, NEW_CONTEXT, a), Serve(app, NEW_CONTEXT, a + b);
    assert Denotes(app.grammar, [m][0], Requests(app.grammar, NEW_CONTEXT, a)[0]);
    r, t := w.replies[0], w.replies[1];
    assert Answers(app, [m, n][0], r) && Answers(app, [m, n][1], t);
    assert w.replies == [r, t] && s.replies == [r];
    TwoReplies(r, t);
    assert [a, b][1..] == [b];
    ClosingOnlyBuffers(app, AfterRead(app, OPEN, a), [b]);
  }

  lemma TwoMessages(m: Message, n: Message)
    ensures PrintMessages([m]) == PrintMessage(m)
    ensures PrintMessages([m, n]) == PrintMessage(m) + PrintMessage(n)
  {
    assert [m, n][1..] == [n] && [n][1..] == [] && [m][1..] == [];
    assert PrintMessages([]) == "";
  }

  lemma TwoReplies(r: Response, t: Response)
    ensures Joined([r]) == r && Joined([r, t]) == r + t
    ensures "" + r == r && "" + (r + t) == r + t
  {
    assert [r, t] == [r] + [t];
    JoinedOne(r, [t]);
    JoinedSingle(t);
    JoinedSingle(r);
  }

  // ---- the server as its peer sees it ----

  /**
   * Well-formed messages pipelined on one connection and cut into reads anywhere get exactly their
   * replies, in order, and the connection waits for more, provided none of their replies closes.
   */
  lemma PipelinedInReads(app: App, ms: seq<Message>, chunks: seq<string>) returns (replies: seq<Response>)
    requires forall m :: m in ms ==> WellFormed(app.grammar, m)
    requires forall m, r: HttpRequest :: m in ms && Denotes(app.grammar, m, r) ==> !app.route(r).close
    requires Flatten(chunks) == PrintMessages(ms)
    ensures Ready(app.grammar, OPEN.ctx)
    ensures |replies| == |ms| && forall i :: 0 <= i < |ms| ==> Answers(app, ms[i], replies[i])
    ensures var c := ReadAll(app, OPEN, chunks);
            c.accepted == Joined(replies) && c.statu == CONNECTED && c.input == "" && c.ctx == NEW_CONTEXT
  {
    hide Serve, Requests, Denotes, WellFormed, AfterMessage, AfterRead;
    BornReady(app);
    MessageWaits(app, OPEN);
    ReadsAreOneRead(app, OPEN, chunks);
    ConnectedRead(app, OPEN, Flatten(chunks));
    assert "" + Flatten(chunks) == Flatten(chunks);
    PipelinedMessages(app, ms);
    NoneCloses(app, ms);
    replies := Serve(app, NEW_CONTEXT, PrintMessages(ms)).replies;
    OpenAnswers(app, PrintMessages(ms));
  }

  lemma NoneCloses(app: App, ms: seq<Message>)
    requires forall m :: m in ms ==> WellFormed(app.grammar, m)
    requires forall m, r: HttpRequest :: m in ms && Denotes(app.grammar, m, r) ==> !app.route(r).close
    ensures !Serve(app, NEW_CONTEXT, PrintMessages(ms)).closing
  {
    hide Serve, Requests, Denotes, WellFormed;
    PipelinedMessages(app, ms);
    MessagesAreRequests(app.grammar, ms);
    OneReplyPerRequest(app, NEW_CONTEXT, PrintMessages(ms));
    var rs := Requests(app.grammar, NEW_CONTEXT, PrintMessages(ms));
    assert forall i :: 0 <= i < |ms| ==> ms[i] in ms && Denotes(app.grammar, ms[i], rs[i]);
  }

  /** With handlers that leave Connection alone it is enough that every message asks to keep alive. */
  lemma KeepAliveInReads(app: App, ms: seq<Message>, chunks: seq<string>) returns (replies: seq<Response>)
    requires FollowsRequest(app)
    requires forall m :: m in ms ==> WellFormed(app.grammar, m) && AsksKeepAlive(m)
    requires Flatten(chunks) == PrintMessages(ms)
    ensures Ready(app.grammar, OPEN.ctx)
    ensures |replies| == |ms| && forall i :: 0 <= i < |ms| ==> Answers(app, ms[i], replies[i])
    ensures var c := ReadAll(app, OPEN, chunks);
            c.accepted == Joined(replies) && c.statu == CONNECTED && c.input == "" && c.ctx == NEW_CONTEXT
  {
    hide Denotes, WellFormed, AsksKeepAlive;
    forall m, r: HttpRequest | m in ms && Denotes(app.grammar, m, r) ensures !app.route(r).close {
      CloseIsAsked(app.grammar, m, r);
    }
    replies := PipelinedInReads(app, ms, chunks);
  }

  lemma OpenAnswers(app: App, buf: string)
    requires Ready(app.grammar, OPEN.ctx)
    ensures var s, d := Serve(app, NEW_CONTEXT, buf), AfterMessage(app, OPEN.(input := buf));
            && d.accepted == Joined(s.replies) && d.input == s.rest && d.ctx == s.ctx
            && d.statu == if s.closing then DISCONNECTING else CONNECTED
  {
    hide Serve;
  }

  // ---- the object lives the same life ----

  method Live(app: App, es: seq<Event>) returns (conn: Connection)
    requires Ready(app.grammar, BORN.ctx) && Possible(app, BORN, es)
    ensures conn.Valid() && conn.app == app && conn.State() == Life(app, BORN, es)
  {
    hide After, Enabled;
    conn := new Connection(app);
    var i := 0;
    while i < |es|
      invariant 0 <= i <= |es|
      invariant conn.Valid() && conn.app == app
      invariant fresh(conn) && fresh(conn.inBuffer) && fresh(conn.inBuffer.data)
      invariant fresh(conn.outBuffer) && fresh(conn.outBuffer.data) && fresh(conn.context)
      invariant Possible(app, conn.State(), es[i..])
      invariant Life(app, conn.State(), es[i..]) == Life(app, BORN, es)
    {
      assert es[i..][1..] == es[i + 1..];
      Handle(conn, es[i]);
      i := i + 1;
    }
  }

  method Handle(conn: Connection, e: Event)
    requires conn.Valid() && Enabled(conn.State(), e)
    modifies conn, conn.inBuffer, conn.inBuffer.data, conn.outBuffer, conn.outBuffer.data, conn.context
    ensures conn.Valid() && conn.State() == After(conn.app, old(conn.State()), e)
    ensures conn.inBuffer.data == old(conn.inBuffer.data) || fresh(conn.inBuffer.data)
    ensures conn.outBuffer.data == old(conn.outBuffer.data) || fresh(conn.outBuffer.data)
  {
    match e {
      case Establish => conn.Established();
      case Read(data) => conn.HandleRead(Some(data));
      case ReadFailed => conn.HandleRead(None);
      case Wrote(n) => conn.HandleWrite(Some(n));
      case WriteFailed => conn.HandleWrite(None);
      case HungUp => conn.HandleClose();
      case TimedOut => conn.Release();
      case ReleaseRuns => conn.ReleaseInLoop();
    }
  }
}
