/** What the parser promises on whole byte streams: chunking independence and message framing. */
module HttpFraming {
  import opened Text
  import opened ByteBuffer
  import opened HttpMessage
  import UrlCodec
  import Multipart

  // ---- chunking independence ----

  /** Two outcomes that agree on everything but the leftover bytes of an erroneous message. */
  ghost predicate Agree(p: Parse, q: Parse) {
    p.ctx == q.ctx && (p.ctx.recv != RECV_HTTP_ERROR ==> p.rest == q.rest)
  }

  /** `whole` is what `first` becomes once the bytes `more` are handed to a stage that stopped at `stage`. */
  ghost predicate Resumes(first: Parse, more: string, stage: RecvStatu, resumed: Parse, whole: Parse) {
    if first.ctx.recv == stage then Agree(resumed, whole)
    else Agree(Parse(first.ctx, first.rest + more), whole)
  }

  lemma DropPrefix(a: string, b: string, n: nat)
    requires n <= |a|
    ensures (a + b)[n..] == a[n..] + b
  {
  }

  lemma NoLineLater(a: string, b: string)
    requires FirstLine(a) == "" && |a| > MAX_LINE
    ensures FirstLine(a + b) == "" || |FirstLine(a + b)| > MAX_LINE
  {
    var line := FirstLine(a + b);
    forall i | 0 <= i < |a| ensures (a + b)[i] != '\n' {
      assert (a + b)[i] == a[i];
    }
    if line != "" {
      assert (a + b)[|line| - 1] == '\n';
    }
  }

  lemma LineResumes(g: Grammar, c: Context, a: string, b: string)
    requires c.recv == RECV_HTTP_LINE
    ensures var p := AfterLine(g, c, a);
            Resumes(p, b, RECV_HTTP_LINE, AfterLine(g, p.ctx, p.rest + b), AfterLine(g, c, a + b))
  {
    hide ParsedLine, FirstLine;
    var line := FirstLine(a);
    ParsedLineLeaves(g, c, line);
    if line == "" {
      if |a| > MAX_LINE { NoLineLater(a, b); }
    } else {
      LineInPrefix(a, b);
      assert line <= a;
      DropPrefix(a, b, |line|);
    }
  }

  lemma ParsedLineLeaves(g: Grammar, c: Context, line: string)
    ensures ParsedLine(g, c, line).recv in {RECV_HTTP_HEAD, RECV_HTTP_ERROR}
  {
  }

  lemma {:induction false} HeadResumes(c: Context, a: string, b: string)
    requires c.recv == RECV_HTTP_HEAD
    ensures var p := AfterHead(c, a);
            Resumes(p, b, RECV_HTTP_HEAD, AfterHead(p.ctx, p.rest + b), AfterHead(c, a + b))
    decreases |a|
  {
    hide ParsedField, FirstLine, AfterHead;
    var line := FirstLine(a);
    HeadTurn(c, a);
    HeadTurn(c, a + b);
    FieldKeepsStage(c, line);
    if line == "" {
      if |a| > MAX_LINE { NoLineLater(a, b); }
    } else {
      LineInPrefix(a, b);
      DropPrefix(a, b, |line|);
      if |line| <= MAX_LINE && !IsBlank(line) && ParsedField(c, line).recv == RECV_HTTP_HEAD {
        HeadResumes(ParsedField(c, line), a[|line|..], b);
      }
    }
  }

  lemma BodyResumes(g: Grammar, c: Context, a: string, b: string)
    requires c.recv == RECV_HTTP_BODY && |c.request.body| <= c.request.ContentLength(g)
    ensures var p := AfterBody(g, c, a);
            && (p.ctx.recv == RECV_HTTP_BODY ==> |p.ctx.request.body| < p.ctx.request.ContentLength(g))
            && p.ctx.recv in {RECV_HTTP_BODY, RECV_HTTP_OVER}
            && Resumes(p, b, RECV_HTTP_BODY, BodyStage(g, p.ctx, p.rest + b), AfterBody(g, c, a + b))
  {
    hide Completed;
    var length := c.request.ContentLength(g);
    var realLen := length - |c.request.body|;
    if length == 0 {
    } else if |a| >= realLen {
      assert (a + b)[..realLen] == a[..realLen];
      DropPrefix(a, b, realLen);
    } else {
      PartialBodyResumes(g, c, a, b);
    }
  }

  /** The first piece does not complete the body. */
  lemma PartialBodyResumes(g: Grammar, c: Context, a: string, b: string)
    requires c.recv == RECV_HTTP_BODY && |c.request.body| + |a| < c.request.ContentLength(g)
    ensures var d := c.(request := c.request.(body := c.request.body + a));
            AfterBody(g, c, a) == Parse(d, "") && AfterBody(g, d, "" + b) == AfterBody(g, c, a + b)
  {
    hide Completed;
    assert "" + b == b;
    Assoc(c.request.body, a, b);
    var k := c.request.ContentLength(g) - |c.request.body| - |a|;
    if |b| >= k {
      assert (a + b)[..|a| + k] == a + b[..k];
      Assoc(c.request.body, a, b[..k]);
      assert (a + b)[|a| + k..] == b[k..];
    }
  }

  lemma RecvRests(g: Grammar, c: Context, buf: string)
    requires Resting(g, c)
    ensures Resting(g, Recv(g, c, buf).ctx)
  {
    hide AfterLine, AfterHead, AfterBody;
    var p := if c.recv == RECV_HTTP_LINE then AfterLine(g, c, buf) else Parse(c, buf);
    LineStatus(g, c, buf);
    LineKeepsBody(g, c, buf);
    HeadKeepsBody(p.ctx, p.rest);
    HeadStatus(p.ctx, p.rest);
    var q := HeadStage(p.ctx, p.rest);
    BodyStatus(g, q.ctx, q.rest);
  }

  ghost predicate StatusFits(c: Context) {
    if c.recv == RECV_HTTP_ERROR then c.resp == 400 || c.resp == 414 else c.resp == 200
  }

  lemma LineStatus(g: Grammar, c: Context, buf: string)
    requires StatusFits(c)
    ensures c.recv == RECV_HTTP_LINE ==> StatusFits(AfterLine(g, c, buf).ctx)
  {
  }

  lemma {:induction false} HeadStatus(c: Context, buf: string)
    requires StatusFits(c)
    ensures c.recv == RECV_HTTP_HEAD ==> StatusFits(AfterHead(c, buf).ctx)
    decreases |buf|
  {
    hide FirstLine, AfterHead;
    HeadTurn(c, buf);
    var line := FirstLine(buf);
    if c.recv == RECV_HTTP_HEAD && line != "" {
      FieldKeepsStage(c, line);
      HeadStatus(ParsedField(c, line), buf[|line|..]);
    }
  }

  lemma BodyStatus(g: Grammar, c: Context, buf: string)
    requires StatusFits(c)
    requires c.recv == RECV_HTTP_BODY ==> |c.request.body| <= c.request.ContentLength(g)
    ensures c.recv == RECV_HTTP_BODY ==>
              var p := AfterBody(g, c, buf);
              StatusFits(p.ctx) && (p.ctx.recv == RECV_HTTP_BODY ==>
                |p.ctx.request.body| < p.ctx.request.ContentLength(g)) && p.ctx.recv != RECV_HTTP_LINE
              && p.ctx.recv != RECV_HTTP_HEAD
  {
    hide Multipart.MultipartFiles;
  }

  /** Two calls on `a` and then `b` are one call on both. */
  lemma RecvResumes(g: Grammar, c: Context, a: string, b: string)
    requires Resting(g, c)
    ensures var p := Recv(g, c, a);
            Resting(g, p.ctx) && Agree(Recv(g, p.ctx, p.rest + b), Recv(g, c, a + b))
  {
    hide AfterLine, AfterHead, AfterBody;
    RecvRests(g, c, a);
    if c.recv == RECV_HTTP_LINE {
      FromLine(g, c, a, b);
    } else if c.recv == RECV_HTTP_HEAD {
      FromHead(g, c, a, b);
    } else if c.recv == RECV_HTTP_BODY {
      BodyResumes(g, c, a, b);
    }
  }

  lemma FromHead(g: Grammar, c: Context, a: string, b: string)
    requires Resting(g, c) && c.recv == RECV_HTTP_HEAD
    ensures var p := Recv(g, c, a);
            Resting(g, p.ctx) && Agree(Recv(g, p.ctx, p.rest + b), Recv(g, c, a + b))
  {
    hide AfterLine, AfterHead, AfterBody;
    RecvRests(g, c, a);
    HeadKeepsBody(c, a);
    HeadKeepsBody(c, a + b);
    HeadResumes(c, a, b);
    var q := AfterHead(c, a);
    if q.ctx.recv == RECV_HTTP_BODY {
      BodyResumes(g, q.ctx, q.rest, b);
    }
  }

  lemma FromLine(g: Grammar, c: Context, a: string, b: string)
    requires Resting(g, c) && c.recv == RECV_HTTP_LINE
    ensures var p := Recv(g, c, a);
            Resting(g, p.ctx) && Agree(Recv(g, p.ctx, p.rest + b), Recv(g, c, a + b))
  {
    hide AfterLine, AfterHead, AfterBody;
    RecvRests(g, c, a);
    LineKeepsBody(g, c, a);
    LineStatus(g, c, a);
    LineResumes(g, c, a, b);
    var l := AfterLine(g, c, a);
    if l.ctx.recv == RECV_HTTP_HEAD {
      FromHead(g, l.ctx, l.rest, b);
    }
  }

  /** A call without new bytes changes nothing. */
  lemma RecvIdempotent(g: Grammar, c: Context, buf: string)
    requires Resting(g, c)
    ensures var p := Recv(g, c, buf);
            Resting(g, p.ctx) && Recv(g, p.ctx, p.rest) == p
  {
    RecvResumes(g, c, buf, "");
    assert buf + "" == buf;
    var p := Recv(g, c, buf);
    assert p.rest + "" == p.rest;
  }

  function Flatten(chunks: seq<string>): string {
    if chunks == [] then "" else chunks[0] + Flatten(chunks[1..])
  }

  /** Each chunk is appended to the buffer and followed by one call. */
  function Feed(g: Grammar, c: Context, buf: string, chunks: seq<string>): (p: Parse)
    requires Resting(g, c)
    decreases |chunks|
  {
    if chunks == [] then Parse(c, buf)
    else
      var p := Recv(g, c, buf + chunks[0]);
      RecvRests(g, c, buf + chunks[0]);
      Feed(g, p.ctx, p.rest, chunks[1..])
  }

  lemma {:induction false} ErrorIsFinal(g: Grammar, c: Context, buf: string, chunks: seq<string>)
    requires Resting(g, c) && c.recv == RECV_HTTP_ERROR
    ensures Feed(g, c, buf, chunks).ctx == c
    decreases |chunks|
  {
    if chunks != [] {
      ErrorIsFinal(g, c, buf + chunks[0], chunks[1..]);
    }
  }

  /** From a context at rest with `buf` already parsed as far as it goes. */
  lemma {:induction false} FeedIsOneCall(g: Grammar, c: Context, seen: string, chunks: seq<string>)
    requires Resting(g, c)
    ensures var p := Recv(g, c, seen);
            Resting(g, p.ctx)
            && Agree(Feed(g, p.ctx, p.rest, chunks), Recv(g, c, seen + Flatten(chunks)))
    decreases |chunks|
  {
    hide Recv;
    var p := Recv(g, c, seen);
    RecvRests(g, c, seen);
    if chunks == [] {
      assert seen + Flatten(chunks) == seen;
    } else {
      var x := chunks[0];
      RecvResumes(g, c, seen, x);
      var q := Recv(g, c, seen + x);
      FeedIsOneCall(g, c, seen + x, chunks[1..]);
      Assoc(seen, x, Flatten(chunks[1..]));
      var p1 := Recv(g, p.ctx, p.rest + x);
      RecvRests(g, p.ctx, p.rest + x);
      if q.ctx.recv == RECV_HTTP_ERROR {
        ErrorIsFinal(g, q.ctx, q.rest, chunks[1..]);
        ErrorIsFinal(g, p1.ctx, p1.rest, chunks[1..]);
      }
    }
  }

  lemma NothingToParse(g: Grammar)
    ensures Recv(g, NEW_CONTEXT, "") == Parse(NEW_CONTEXT, "")
  {
  }

  /**
   * Chunking independence: however a byte stream is split, appending each chunk and calling the
   * parser ends with the same stage, status and request as one call on the whole stream, and
   * with the same leftover bytes unless the message is erroneous.
   */
  lemma ChunkingIndependence(g: Grammar, chunks: seq<string>)
    ensures Agree(Feed(g, NEW_CONTEXT, "", chunks), Recv(g, NEW_CONTEXT, Flatten(chunks)))
  {
    hide Recv;
    NothingToParse(g);
    FeedIsOneCall(g, NEW_CONTEXT, "", chunks);
    assert "" + Flatten(chunks) == Flatten(chunks);
  }

  // ---- framing (RFC 9112 sections 3, 5 and 6.2) ----

  /** A complete line of acceptable length that is not a blank line. */
  ghost predicate IsLine(line: string) {
    && line != "" && line[|line| - 1] == '\n' && '\n' !in line[..|line| - 1]
    && |line| <= MAX_LINE && !IsBlank(line)
  }

  function PrintField(h: (string, string)): string { h.0 + ": " + h.1 + "\r\n" }

  function PrintFields(hs: seq<(string, string)>): string {
    if hs == [] then "" else PrintField(hs[0]) + PrintFields(hs[1..])
  }

  ghost predicate Sendable(h: (string, string)) {
    && Find(h.0, ": ", 0) == None
    && '\n' !in h.0 && '\n' !in h.1 && |PrintField(h)| <= MAX_LINE
  }

  lemma LineIsFirst(line: string, rest: string)
    requires line != "" && line[|line| - 1] == '\n' && '\n' !in line[..|line| - 1]
    ensures FirstLine(line + rest) == line && (line + rest)[|line|..] == rest
  {
    forall k | 0 <= k < |line| - 1 ensures (line + rest)[k] != '\n' {
      assert line[..|line| - 1][k] == (line + rest)[k];
    }
    LineEndsAt(line + rest, |line| - 1);
    assert (line + rest)[..|line|] == line;
  }

  lemma SeparatorFound(k: string, v: string)
    requires Find(k, ": ", 0) == None
    ensures Find(k + ": " + v, ": ", 0) == Some(|k|)
  {
    var s := k + ": " + v;
    FindFirst(k, ": ", 0);
    forall j: nat | j < |k| ensures !OccursAt(s, ": ", j) {
      if j + 2 <= |k| {
        assert !OccursAt(k, ": ", j);
        assert s[j..j + 2] == k[j..j + 2];
      } else {
        Differs(s, ": ", j, 1);
      }
    }
    assert s[|k|..|k| + 2] == ": ";
    FindIs(s, ": ", 0, |k|);
  }

  /** A printed field is read back as one binding; the first binding of a key stays. */
  lemma FieldRoundTrip(c: Context, h: (string, string))
    requires Sendable(h)
    ensures IsLine(PrintField(h))
    ensures ParsedField(c, PrintField(h)) ==
            c.(request := c.request.(headers := UrlCodec.Insert(c.request.headers, h.0, h.1)))
  {
    var line, l := PrintField(h), h.0 + ": " + h.1;
    assert line == l + "\r" + "\n";
    assert line[..|line| - 1] == l + "\r" && (l + "\r")[..|l|] == l;
    assert Chopped(line) == l;
    SeparatorFound(h.0, h.1);
    assert l[..|h.0|] == h.0 && l[|h.0| + 2..] == h.1;
    assert line[|h.0|] == ':' && |line| >= 4;
  }

  /** The header section up to and including its blank line. */
  lemma {:induction false} FieldsRoundTrip(
      c: Context, hs: seq<(string, string)>, done: seq<(string, string)>, rest: string)
    requires c.recv == RECV_HTTP_HEAD
    requires forall h :: h in hs ==> Sendable(h)
    requires UrlCodec.FirstWins(done, c.request.headers)
    ensures var p := AfterHead(c, PrintFields(hs) + "\r\n" + rest);
            && UrlCodec.FirstWins(done + hs, p.ctx.request.headers)
            && p == Parse(c.(recv := RECV_HTTP_BODY,
                             request := c.request.(headers := p.ctx.request.headers)), rest)
    decreases |hs|
  {
    hide FirstLine, ParsedField, AfterHead, PrintField, UrlCodec.FirstWins;
    var buf := PrintFields(hs) + "\r\n" + rest;
    HeadTurn(c, buf);
    if hs == [] {
      assert "\r\n"[..1] == "\r";
      assert buf == "\r\n" + rest;
      LineIsFirst("\r\n", rest);
      assert done + hs == done;
    } else {
      var h, rest' := hs[0], PrintFields(hs[1..]) + "\r\n" + rest;
      assert h in hs;
      FieldRoundTrip(c, h);
      assert buf == PrintField(h) + rest';
      LineIsFirst(PrintField(h), rest');
      var c' := ParsedField(c, PrintField(h));
      UrlCodec.FirstWinsSnoc(done, c.request.headers, h);
      FieldsRoundTrip(c', hs[1..], done + [h], rest);
      assert done + [h] + hs[1..] == done + hs;
    }
  }

  /** A message as its sender wrote it. */
  datatype Message = Message(line: string, fields: seq<(string, string)>, body: string)

  function PrintMessage(m: Message): string {
    m.line + PrintFields(m.fields) + "\r\n" + m.body
  }

  /** The value of the first field of a name. */
  function FirstValue(fields: seq<(string, string)>, name: string): Option<string> {
    if fields == [] then None
    else if fields[0].0 == name then Some(fields[0].1)
    else FirstValue(fields[1..], name)
  }

  /** The length the fields declare: no Content-Length means no body. */
  function DeclaredLength(g: Grammar, fields: seq<(string, string)>): nat {
    var v := FirstValue(fields, "Content-Length");
    if v == None then 0 else g.length(v.value)
  }

  /** The request line parses, the fields are sendable, and the body has the declared length. */
  ghost predicate WellFormed(g: Grammar, m: Message) {
    && IsLine(m.line) && ParsedLine(g, NEW_CONTEXT, m.line).recv == RECV_HTTP_HEAD
    && (forall h :: h in m.fields ==> Sendable(h))
    && |m.body| == DeclaredLength(g, m.fields)
  }

  /** A body that is form data by the first Content-Type field holds files. */
  function DeclaredFiles(fields: seq<(string, string)>, body: string): Multipart.Files {
    var v := FirstValue(fields, "Content-Type");
    if body != "" && v.Some? && Find(v.value, "multipart/form-data", 0).Some?
    then Multipart.MultipartFiles(v.value, body, map[]) else map[]
  }

  /** The request a message stands for. */
  ghost predicate Denotes(g: Grammar, m: Message, r: HttpRequest) {
    var l := ParsedLine(g, NEW_CONTEXT, m.line).request;
    && UrlCodec.FirstWins(m.fields, r.headers) && r.body == m.body
    && r.verb == l.verb && r.path == l.path && r.version == l.version && r.params == l.params
    && r.files == DeclaredFiles(m.fields, m.body)
  }

  /** Looking a name up among the bindings is looking for its first field. */
  lemma {:induction false} FirstValueIndex(fields: seq<(string, string)>, name: string)
    ensures var v := FirstValue(fields, name);
            if v == None then forall i :: 0 <= i < |fields| ==> fields[i].0 != name
            else exists i :: 0 <= i < |fields| && fields[i] == (name, v.value)
                             && forall j :: 0 <= j < i ==> fields[j].0 != name
  {
    if fields != [] {
      if fields[0].0 == name {
        assert fields[0] == (name, fields[0].1);
      } else {
        var v, rest := FirstValue(fields, name), fields[1..];
        FirstValueIndex(rest, name);
        if v == None {
          forall i | 0 <= i < |fields| ensures fields[i].0 != name { if i > 0 { assert fields[i] == rest[i - 1]; } }
        } else {
          var i :| 0 <= i < |rest| && rest[i] == (name, v.value) && forall j :: 0 <= j < i ==> rest[j].0 != name;
          assert fields[i + 1] == (name, v.value);
          assert forall j :: 1 <= j < i + 1 ==> fields[j] == rest[j - 1];
        }
      }
    }
  }

  lemma FirstValueBinds(fields: seq<(string, string)>, hs: Headers, name: string)
    requires UrlCodec.FirstWins(fields, hs)
    ensures var v := FirstValue(fields, name); if v == None then name !in hs else name in hs && hs[name] == v.value
  {
    hide FirstValue;
    FirstValueIndex(fields, name);
    var v := FirstValue(fields, name);
    if v.Some? {
      var i :| 0 <= i < |fields| && fields[i] == (name, v.value) && forall j :: 0 <= j < i ==> fields[j].0 != name;
      assert fields[i].0 == name;
    }
  }

  /** Length, body type and closing as the request computes them are those the fields declare. */
  lemma DeclaredByFields(g: Grammar, fields: seq<(string, string)>, r: HttpRequest)
    requires UrlCodec.FirstWins(fields, r.headers)
    ensures r.ContentLength(g) == DeclaredLength(g, fields)
    ensures r.Close() <==> FirstValue(fields, "Connection") != Some("keep-alive")
    ensures r.files == map[] ==>
              (if r.body == "" then r else Completed(r)) == r.(files := DeclaredFiles(fields, r.body))
  {
    hide UrlCodec.FirstWins, FirstValue, Multipart.MultipartFiles, Find;
    FirstValueBinds(fields, r.headers, "Content-Length");
    FirstValueBinds(fields, r.headers, "Content-Type");
    FirstValueBinds(fields, r.headers, "Connection");
  }

  lemma LineKeepsRest(g: Grammar, line: string)
    ensures var r := ParsedLine(g, NEW_CONTEXT, line).request;
            r.headers == map[] && r.files == map[] && r.body == ""
    ensures ParsedLine(g, NEW_CONTEXT, line).recv == RECV_HTTP_HEAD ==> ParsedLine(g, NEW_CONTEXT, line).resp == 200
  {
  }

  /** A well-formed message is read exactly: its own bytes and no more. */
  lemma MessageRoundTrip(g: Grammar, m: Message, rest: string)
    requires WellFormed(g, m)
    ensures var p := Recv(g, NEW_CONTEXT, PrintMessage(m) + rest);
            && p.ctx.recv == RECV_HTTP_OVER && p.ctx.resp == 200 && p.rest == rest
            && Denotes(g, m, p.ctx.request)
  {
    hide ParsedLine, AfterHead, FirstLine, UrlCodec.FirstWins, Multipart.MultipartFiles;
    var buf := PrintMessage(m) + rest;
    var afterLine := PrintFields(m.fields) + "\r\n" + (m.body + rest);
    assert buf == m.line + afterLine;
    LineIsFirst(m.line, afterLine);
    LineKeepsRest(g, m.line);
    var l := ParsedLine(g, NEW_CONTEXT, m.line);
    assert AfterLine(g, NEW_CONTEXT, buf) == Parse(l, afterLine);
    NoBindings();
    FieldsRoundTrip(l, m.fields, [], m.body + rest);
    assert [] + m.fields == m.fields;
    var q := AfterHead(l, afterLine);
    DeclaredByFields(g, m.fields, q.ctx.request);
    BodyRoundTrip(g, q.ctx, m.body, rest);
    DeclaredByFields(g, m.fields, q.ctx.request.(body := m.body));
  }

  lemma NoBindings()
    ensures UrlCodec.FirstWins([], map[])
  {
  }

  lemma BodyRoundTrip(g: Grammar, c: Context, body: string, rest: string)
    requires c.recv == RECV_HTTP_BODY && c.request.body == "" && |body| == c.request.ContentLength(g)
    ensures AfterBody(g, c, body + rest) ==
            Parse(c.(recv := RECV_HTTP_OVER, request :=
                     if body == "" then c.request else Completed(c.request.(body := body))), rest)
  {
    hide Multipart.MultipartFiles;
    assert (body + rest)[..|body|] == body && (body + rest)[|body|..] == rest;
    assert "" + body == body;
    if body == "" { assert body + rest == rest; }
  }

  /** The line stage on a whole stream: it waits, refuses a line over the limit, or takes the line. */
  lemma LineOutcome(g: Grammar, s: string)
    ensures var p := AfterLine(g, NEW_CONTEXT, s);
            && (p.ctx == NEW_CONTEXT && p.rest == s <==> '\n' !in s && |s| <= 8192)
            && (p.ctx.resp == 414 <==> |s| > 8192 && '\n' !in s[..8192])
  {
    hide ParsedLine;
    var line := FirstLine(s);
    StatusOfLine(g, line);
    forall k | 0 <= k < |line| - 1 ensures s[k] != '\n' {
      assert line[..|line| - 1][k] == s[k];
    }
    if line != "" { assert s[|line| - 1] == '\n'; }
    if |s| > MAX_LINE {
      assert forall k :: 0 <= k < MAX_LINE ==> s[..MAX_LINE][k] == s[k];
      if '\n' in s[..MAX_LINE] {
        var i :| 0 <= i < MAX_LINE && s[i] == '\n';
        assert s[i] in s;
      }
    }
  }

  lemma StatusOfLine(g: Grammar, line: string)
    ensures ParsedLine(g, NEW_CONTEXT, line).resp != 414
    ensures ParsedLine(g, NEW_CONTEXT, line).recv != RECV_HTTP_LINE
  {
  }

  /** Upper-case text, and a spelling of it in letters of any case. */
  predicate Spells(v: string, w: string) {
    |v| == |w| && forall i :: 0 <= i < |v| ==>
      && !('a' <= w[i] <= 'z')
      && (v[i] == w[i] || ('A' <= w[i] <= 'Z' && v[i] as int == w[i] as int + 32))
  }

  /** Verbs are upper-cased: every spelling gives the same verb, and upper case stays. */
  lemma VerbIsUpper(v: string, w: string)
    requires Spells(v, w)
    ensures Uppered(v) == w == Uppered(w)
  {
  }

  /**
   * A request line whose regex groups are a percent-coded path and a printed query: the parser
   * recovers the path and the bindings, first one winning, and goes on to the header section.
   */
  lemma RequestLineRoundTrip(g: Grammar, line: string, verb: string, path: string, version: string,
                             bs: seq<(string, string)>)
    requires g.line(line) ==
             Some(LineParts(verb, UrlCodec.Encoded(path, false), UrlCodec.PrintQuery(bs), version))
    requires UrlCodec.Codable(path)
    requires forall b :: b in bs ==> UrlCodec.Codable(b.0) && UrlCodec.Codable(b.1)
    ensures var c := ParsedLine(g, NEW_CONTEXT, line);
            && c.recv == RECV_HTTP_HEAD && c.resp == 200
            && c.request.path == path && c.request.verb == Uppered(verb) && c.request.version == version
            && (forall w :: Spells(verb, w) ==> c.request.verb == w)
            && UrlCodec.FirstWins(bs, c.request.params)
  {
    hide UrlCodec.Encoded, UrlCodec.Decoded, UrlCodec.PrintQuery, UrlCodec.FirstWins, UrlCodec.SplitFrom;
    UrlCodec.PercentCodingRoundTrip(path, false);
    UrlCodec.QueryRoundTrip(bs);
    forall w | Spells(verb, w) ensures Uppered(verb) == w { VerbIsUpper(verb, w); }
  }

  // ---- what the parser refuses, and how ----

  /** A request line is rejected with 400 exactly if it does not match or a piece of its query has no '='. */
  lemma LineRejected(g: Grammar, line: string)
    ensures var c, parts := ParsedLine(g, NEW_CONTEXT, line), g.line(line);
            && (c.recv == RECV_HTTP_ERROR <==>
                parts == None || exists q :: q in UrlCodec.SplitFrom(parts.value.query, "&", 0) && '=' !in q)
            && (if c.recv == RECV_HTTP_ERROR then c.resp == 400 else c.recv == RECV_HTTP_HEAD && c.resp == 200)
  {
    hide UrlCodec.SplitFrom, UrlCodec.BindAll;
    if g.line(line).Some? {
      UrlCodec.BindAllAccepts(map[], UrlCodec.SplitFrom(g.line(line).value.query, "&", 0));
    }
  }

  /** On the stream: a complete line is refused with 414 when too long and with 400 when rejected. */
  lemma LineRefused(g: Grammar, line: string, rest: string)
    requires line != "" && line[|line| - 1] == '\n' && '\n' !in line[..|line| - 1]
    ensures var p := Recv(g, NEW_CONTEXT, line + rest);
            && (|line| > 8192 ==> p.ctx.recv == RECV_HTTP_ERROR && p.ctx.resp == 414)
            && (|line| <= 8192 && ParsedLine(g, NEW_CONTEXT, line).recv == RECV_HTTP_ERROR ==>
                  p.ctx.recv == RECV_HTTP_ERROR && p.ctx.resp == 400)
  {
    hide ParsedLine, AfterHead, FirstLine;
    LineIsFirst(line, rest);
    LineRejected(g, line);
  }

  /** A line ends in "\n" or "\r\n" alike, in the fields and in the blank line behind them. */
  lemma BareLineFeed(c: Context, l: string, rest: string)
    requires l == "" || l[|l| - 1] != '\r'
    ensures ParsedField(c, l + "\n") == ParsedField(c, l + "\r\n")
    ensures AfterHead(c, "\n" + rest) == AfterHead(c, "\r\n" + rest) == Parse(c.(recv := RECV_HTTP_BODY), rest)
  {
    hide FirstLine, ParsedField;
    assert ParsedField(c, l + "\n") == ParsedField(c, l + "\r\n") by { ChoppedEither(c, l); }
    assert "\r\n"[..1] == "\r";
    LineIsFirst("\n", rest);
    LineIsFirst("\r\n", rest);
    HeadTurn(c, "\n" + rest);
    HeadTurn(c, "\r\n" + rest);
  }

  lemma ChoppedEither(c: Context, l: string)
    requires l == "" || l[|l| - 1] != '\r'
    ensures Chopped(l + "\n") == l == Chopped(l + "\r\n")
    ensures ParsedField(c, l + "\n") == ParsedField(c, l + "\r\n")
  {
    var s := l + "\r\n";
    assert (l + "\n")[..|l|] == l;
    assert s[..|s| - 1] == l + "\r" && (l + "\r")[..|l|] == l;
  }

  /** A field line is rejected, with 400, exactly if it holds no ": ". */
  lemma FieldRejected(c: Context, l: string)
    requires c.recv == RECV_HTTP_HEAD && (l == "" || l[|l| - 1] != '\r')
    ensures var d := ParsedField(c, l + "\r\n");
            && (d.recv == RECV_HTTP_ERROR <==> forall i :: 0 <= i <= |l| ==> !OccursAt(l, ": ", i))
            && (if d.recv == RECV_HTTP_ERROR then d.resp == 400 else d.recv == c.recv && d.resp == c.resp)
  {
    ChoppedEither(c, l);
    FindFirst(l, ": ", 0);
  }

  /** The context behind some fields, the first of a name winning. */
  function WithFields(c: Context, hs: seq<(string, string)>): Context
    decreases |hs|
  {
    if hs == [] then c
    else
      var headers := UrlCodec.Insert(c.request.headers, hs[0].0, hs[0].1);
      WithFields(c.(request := c.request.(headers := headers)), hs[1..])
  }

  lemma {:induction false} FieldsThen(c: Context, hs: seq<(string, string)>, tail: string)
    requires c.recv == RECV_HTTP_HEAD
    requires forall h :: h in hs ==> Sendable(h)
    ensures AfterHead(c, PrintFields(hs) + tail) == AfterHead(WithFields(c, hs), tail)
    ensures WithFields(c, hs) == c.(request := c.request.(headers := WithFields(c, hs).request.headers))
    decreases |hs|
  {
    hide FirstLine, ParsedField, AfterHead, PrintField;
    if hs == [] {
      assert PrintFields(hs) + tail == tail;
    } else {
      var h, rest := hs[0], PrintFields(hs[1..]) + tail;
      assert h in hs && PrintFields(hs) + tail == PrintField(h) + rest;
      FieldRoundTrip(c, h);
      LineIsFirst(PrintField(h), rest);
      HeadTurn(c, PrintField(h) + rest);
      FieldsThen(ParsedField(c, PrintField(h)), hs[1..], tail);
    }
  }

  /** Behind a good line and good fields the parser waits for the next line, but for 8192 bytes at most. */
  lemma HeaderWaits(g: Grammar, line: string, hs: seq<(string, string)>, tail: string)
    requires IsLine(line) && ParsedLine(g, NEW_CONTEXT, line).recv == RECV_HTTP_HEAD && '\n' !in tail
    requires forall h :: h in hs ==> Sendable(h)
    ensures var p := Recv(g, NEW_CONTEXT, line + (PrintFields(hs) + tail));
            && p.rest == tail
            && (if |tail| <= 8192 then p.ctx.recv == RECV_HTTP_HEAD && p.ctx.resp == 200
                else p.ctx.recv == RECV_HTTP_ERROR && p.ctx.resp == 414)
  {
    hide ParsedLine, AfterHead, FirstLine;
    LineIsFirst(line, PrintFields(hs) + tail);
    LineRejected(g, line);
    var l := ParsedLine(g, NEW_CONTEXT, line);
    FieldsThen(l, hs, tail);
    HeadTurn(WithFields(l, hs), tail);
  }

  /** A header line is refused with 414 when too long, and with 400 when it is neither blank nor a field. */
  lemma HeaderRefused(g: Grammar, line: string, hs: seq<(string, string)>, l: string, rest: string)
    requires IsLine(line) && ParsedLine(g, NEW_CONTEXT, line).recv == RECV_HTTP_HEAD
    requires forall h :: h in hs ==> Sendable(h)
    requires '\n' !in l && (l == "" || l[|l| - 1] != '\r')
    ensures var p := Recv(g, NEW_CONTEXT, line + (PrintFields(hs) + (l + "\r\n" + rest)));
            && (|l| + 2 > 8192 ==> p.ctx.recv == RECV_HTTP_ERROR && p.ctx.resp == 414)
            && (0 < |l| <= 8190 && (forall i :: 0 <= i <= |l| ==> !OccursAt(l, ": ", i)) ==>
                  p.ctx.recv == RECV_HTTP_ERROR && p.ctx.resp == 400)
  {
    hide ParsedLine, ParsedField, AfterHead, FirstLine;
    var next := l + "\r\n";
    assert next[..|next| - 1] == l + "\r";
    LineIsFirst(line, PrintFields(hs) + (next + rest));
    LineIsFirst(next, rest);
    LineRejected(g, line);
    var d := WithFields(ParsedLine(g, NEW_CONTEXT, line), hs);
    FieldsThen(ParsedLine(g, NEW_CONTEXT, line), hs, next + rest);
    HeadTurn(d, next + rest);
    FieldRejected(d, l);
  }
}
