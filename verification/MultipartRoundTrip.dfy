/** Printing file parts and parsing them back (RFC 7578 section 4, RFC 2046 section 5.1.1). */
module MultipartRoundTrip {
  import opened Text
  import opened Multipart

  datatype FormPart = FormPart(name: string, filename: string, contentType: string, content: string)

  const CRLF: string := "\r\n"

  predicate LineFree(s: string) { '\r' !in s && '\n' !in s }

  predicate Printable(part: FormPart, boundary: string) {
    && LineFree(part.name) && ';' !in part.name
    && LineFree(part.filename) && ';' !in part.filename
    && LineFree(part.contentType)
    && Find(part.content, "--" + boundary, 0) == None
  }

  /** An ordinary form field has no filename, and without a name there is nothing to file it under. */
  predicate IsFile(part: FormPart) { part.name != "" && part.filename != "" }

  /** The value of the Content-Disposition line, once trimmed. */
  function Tokens(part: FormPart): string {
    "form-data" + ";" + " name=\"" + part.name + "\""
    + if part.filename == "" then "" else ";" + " filename=\"" + part.filename + "\""
  }

  function Disposition(part: FormPart): string { " " + Tokens(part) }

  function PrintHeaders(part: FormPart): string {
    "Content-Disposition:" + Disposition(part) + CRLF + "Content-Type: " + part.contentType
  }

  function PrintPart(part: FormPart, boundary: string): string {
    "--" + boundary + CRLF + PrintHeaders(part) + CRLF + CRLF + part.content + CRLF
  }

  function PrintParts(parts: seq<FormPart>, boundary: string): string {
    if parts == [] then "--" + boundary + "--" + CRLF
    else PrintPart(parts[0], boundary) + PrintParts(parts[1..], boundary)
  }

  function FileOf(part: FormPart): File { File(part.filename, part.content, Trimmed(part.contentType)) }

  /** The files a list of parts stands for: form fields give none, and the last file of a name wins. */
  ghost predicate LastWins(parts: seq<FormPart>, files: Files) {
    && (forall n :: n in files <==> exists i :: 0 <= i < |parts| && IsFile(parts[i]) && parts[i].name == n)
    && (forall i :: 0 <= i < |parts| && IsFile(parts[i]) && LastOfName(parts, i) ==>
          parts[i].name in files && files[parts[i].name] == FileOf(parts[i]))
  }

  /** No file behind it has its name. */
  ghost predicate LastOfName(parts: seq<FormPart>, i: nat)
    requires i < |parts|
  {
    forall j :: i < j < |parts| && IsFile(parts[j]) ==> parts[j].name != parts[i].name
  }

  // ---- header lines ----

  lemma NothingToTrim(s: string)
    requires s != "" && !Blank(s[0]) && !Blank(s[|s| - 1])
    ensures Trimmed(s) == s
  {
  }

  lemma TrimFrontStops(s: string)
    requires s != "" && !Blank(s[0])
    ensures TrimmedFront(s) == s
  {
  }

  lemma QuotedTokenTrims(key: string, value: string)
    requires key != "" && !Blank(key[0])
    ensures Trimmed(key + "\"" + value + "\"") == key + "\"" + value + "\""
    ensures Trimmed(" " + key + "\"" + value + "\"") == key + "\"" + value + "\""
  {
    var t := key + "\"" + value + "\"";
    TrimFrontStops(t);
    assert t[|t| - 1] == '"';
    var u := " " + key + "\"" + value + "\"";
    assert u[1..] == t && u[0] == ' ';
  }

  lemma UnquoteQuoted(value: string)
    ensures Unquoted("\"" + value + "\"") == value
  {
    var s := "\"" + value + "\"";
    assert s[1..] == value + "\"";
    assert (value + "\"")[..|value|] == value;
  }

  lemma NameToken(info: PartInfo, name: string)
    ensures WithToken(info, " name=\"" + name + "\"") == info.(name := name)
  {
    QuotedTokenTrims("name=", name);
    assert " name=\"" + name + "\"" == " " + "name=" + "\"" + name + "\"";
    var t := "name=" + "\"" + name + "\"";
    assert "name=" <= t && t[5..] == "\"" + name + "\"";
    UnquoteQuoted(name);
  }

  lemma FilenameToken(info: PartInfo, filename: string)
    ensures WithToken(info, " filename=\"" + filename + "\"") == info.(filename := filename)
  {
    QuotedTokenTrims("filename=", filename);
    assert " filename=\"" + filename + "\"" == " " + "filename=" + "\"" + filename + "\"";
    var t := "filename=" + "\"" + filename + "\"";
    assert "filename=" <= t && t[9..] == "\"" + filename + "\"";
    assert t[0] == 'f';
    UnquoteQuoted(filename);
  }

  lemma FormDataToken(info: PartInfo)
    ensures WithToken(info, "form-data") == info
  {
    TrimFrontStops("form-data");
    assert Trimmed("form-data")[0] == 'f' && Trimmed("form-data")[1] == 'o';
  }

  lemma DispositionTrims(part: FormPart)
    ensures Trimmed(Disposition(part)) == Tokens(part)
  {
    hide Trimmed;
    TokensEnds(part);
    TrimLeadingSpace(Tokens(part));
  }

  lemma TokensEnds(part: FormPart)
    ensures var t := Tokens(part); t != "" && t[0] == 'f' && t[|t| - 1] == '"'
  {
  }

  lemma TrimLeadingSpace(t: string)
    requires t != "" && !Blank(t[0]) && !Blank(t[|t| - 1])
    ensures Trimmed(" " + t) == t
  {
    assert (" " + t)[1..] == t;
    TrimFrontStops(t);
  }

  lemma DispositionPieces(part: FormPart)
    requires ';' !in part.name && ';' !in part.filename
    ensures var a, b, c := "form-data", " name=\"" + part.name + "\"", " filename=\"" + part.filename + "\"";
            Pieces(Tokens(part), ';') == if part.filename == "" then [a, b] else [a, b, c]
  {
    hide Pieces;
    var a, b, c := "form-data", " name=\"" + part.name + "\"", " filename=\"" + part.filename + "\"";
    if part.filename == "" {
      assert Tokens(part) == a + ";" + b;
      PiecesLast(b, ';');
      PiecesCons(a, ';', b);
      assert [a] + [b] == [a, b];
    } else {
      assert Tokens(part) == a + ";" + b + ";" + c;
      ThreePieces(a, b, c, ';');
    }
  }

  lemma ThreePieces(a: string, b: string, c: string, delim: char)
    requires delim !in a && delim !in b && delim !in c && c != ""
    ensures Pieces(a + [delim] + b + [delim] + c, delim) == [a, b, c]
  {
    hide Pieces;
    PiecesLast(c, delim);
    PiecesCons(b, delim, c);
    PiecesCons(a, delim, b + [delim] + c);
    assert a + [delim] + b + [delim] + c == a + [delim] + (b + [delim] + c);
  }

  lemma DispositionField(part: FormPart, info: PartInfo)
    requires ';' !in part.name && ';' !in part.filename && info.filename == ""
    ensures WithField(info, "content-disposition", Tokens(part))
         == info.(name := part.name, filename := part.filename)
  {
    hide Tokens, WithTokens, WithToken, Pieces;
    DispositionPieces(part);
    var a, b, c := "form-data", " name=\"" + part.name + "\"", " filename=\"" + part.filename + "\"";
    FormDataToken(info);
    NameToken(info, part.name);
    FilenameToken(info.(name := part.name), part.filename);
    ThreeTokens(info, a, b, c);
    TwoTokens(info, a, b);
  }

  lemma TwoTokens(info: PartInfo, a: string, b: string)
    ensures WithTokens(info, [a, b]) == WithToken(WithToken(info, a), b)
  {
    hide WithToken;
    assert [a, b][1..] == [b] && [b][1..] == [];
    assert WithTokens(WithToken(info, a), [b]) == WithToken(WithToken(info, a), b);
  }

  lemma ThreeTokens(info: PartInfo, a: string, b: string, c: string)
    ensures WithTokens(info, [a, b, c]) == WithToken(WithToken(WithToken(info, a), b), c)
  {
    hide WithToken;
    assert [a, b, c][1..] == [b, c] && [b, c][1..] == [c] && [c][1..] == [];
    var two := WithToken(WithToken(info, a), b);
    assert WithTokens(two, [c]) == WithToken(two, c);
    assert WithTokens(WithToken(info, a), [b, c]) == WithToken(WithToken(WithToken(info, a), b), c);
  }

  lemma LineOf(info: PartInfo, key: string, value: string)
    requires ':' !in key && Trimmed(key) == key
    requires |value| > 0 ==> value[|value| - 1] != '\r'
    ensures WithLine(info, key + ":" + value) == WithField(info, Lowered(key), Trimmed(value))
    ensures WithLine(info, key + ":" + value + "\r") == WithField(info, Lowered(key), Trimmed(value))
  {
    var l := key + ":" + value;
    assert l + "\r" == key + ":" + value + "\r";
    assert (l + "\r")[..|l|] == l;
    assert WithoutCR(l + "\r") == l && WithoutCR(l) == l;
    FindChar(key, ':', value);
    assert l[..|key|] == key && l[|key| + 1..] == value;
  }

  lemma KeyNames()
    ensures Lowered("Content-Disposition") == "content-disposition"
    ensures Lowered("Content-Type") == "content-type"
  {
  }

  lemma TwoLines(info: PartInfo, a: string, b: string)
    requires '\n' !in a && '\n' !in b && b != ""
    ensures WithLines(info, Pieces(a + "\n" + b, '\n')) == WithLine(WithLine(info, a), b)
  {
    hide WithLine, Pieces;
    PiecesLast(b, '\n');
    PiecesCons(a, '\n', b);
    assert [a] + [b] == [a, b] && [a, b][1..] == [b] && [b][1..] == [];
    assert WithLines(WithLine(info, a), [b]) == WithLine(WithLine(info, a), b);
  }

  /** The printed header block yields exactly the printed name, filename and type. */
  lemma HeadersRoundTrip(part: FormPart)
    requires LineFree(part.name) && LineFree(part.filename) && LineFree(part.contentType)
    requires ';' !in part.name && ';' !in part.filename
    ensures PartHeaders(PrintHeaders(part)) == PartInfo(part.name, part.filename, Trimmed(part.contentType))
  {
    hide WithLine, WithLines, WithField, Pieces, Trimmed, Lowered, Disposition;
    var info := PartInfo("", "", "");
    var d, t := Disposition(part), " " + part.contentType;
    DispositionIsLine(part);
    var a, b := "Content-Disposition" + ":" + d + "\r", "Content-Type" + ":" + t;
    assert PrintHeaders(part) == a + "\n" + b;
    TwoLines(info, a, b);
    KeyNames();
    NothingToTrim("Content-Disposition");
    NothingToTrim("Content-Type");
    LineOf(info, "Content-Disposition", d);
    DispositionTrims(part);
    DispositionField(part, info);
    LineOf(info.(name := part.name, filename := part.filename), "Content-Type", t);
    TypeField(info.(name := part.name, filename := part.filename), part.contentType);
  }

  lemma DispositionIsLine(part: FormPart)
    requires LineFree(part.name) && LineFree(part.filename)
    ensures var d := Disposition(part); d != "" && LineFree(d) && d[|d| - 1] == '"'
  {
    var n, f := "form-data" + ";" + " name=\"" + part.name + "\"", ";" + " filename=\"" + part.filename + "\"";
    assert LineFree(n) && LineFree(f) && n[|n| - 1] == '"' && f[|f| - 1] == '"';
    var t := Tokens(part);
    assert t == if part.filename == "" then n else n + f;
    assert LineFree(t) && t[|t| - 1] == '"';
  }

  lemma TypeField(info: PartInfo, contentType: string)
    ensures WithField(info, "content-type", Trimmed(" " + contentType))
         == info.(contentType := Trimmed(contentType))
  {
    assert (" " + contentType)[1..] == contentType;
    assert "content-type"[1] == 'o' && "content-type"[8] == 't' && "content-disposition"[8] == 'd';
  }

  // ---- searches in the printed body ----

  lemma FindHere(before: string, pat: string, rest: string)
    ensures Find(before + pat + rest, pat, |before|) == Some(|before|)
  {
    var s := before + pat + rest;
    assert s[|before|..|before| + |pat|] == pat;
    FindIs(s, pat, |before|, |before|);
  }

  /** The blank line after two header lines is the first one. */
  lemma HeaderEndFound(before: string, a: string, b: string, rest: string)
    requires LineFree(a) && LineFree(b) && b != ""
    ensures var h := a + "\r\n" + b;
            Find(before + h + "\r\n\r\n" + rest, "\r\n\r\n", |before|) == Some(|before| + |h|)
  {
    var h := a + "\r\n" + b;
    var s, n, pat := before + h + "\r\n\r\n" + rest, |before|, "\r\n\r\n";
    forall j | n <= j < n + |h| ensures !OccursAt(s, pat, j) {
      assert s[j] == h[j - n];
      if s[j] != '\r' {
        Differs(s, pat, j, 0);
      } else {
        assert j == n + |a|;
        assert s[j + 2] == h[|a| + 2] == b[0];
        Differs(s, pat, j, 2);
      }
    }
    assert s[n + |h|..n + |h| + 4] == pat;
    FindIs(s, pat, n, n + |h|);
  }

  /** Behind content free of the boundary, the next boundary is the one printed. */
  lemma BoundaryFound(before: string, content: string, boundary: string, rest: string)
    requires LineFree(boundary) && Find(content, "--" + boundary, 0) == None
    ensures var b := "--" + boundary;
            Find(before + content + CRLF + b + rest, b, |before|) == Some(|before| + |content| + 2)
  {
    var b := "--" + boundary;
    var s, n, m := before + content + CRLF + b + rest, |before|, |content|;
    FindFirst(content, b, 0);
    forall j | n <= j < n + m + 2 ensures !OccursAt(s, b, j) {
      NotInside(before, content, boundary, rest, j);
    }
    assert s[n + m + 2..n + m + 2 + |b|] == b;
    FindIs(s, b, n, n + m + 2);
  }

  lemma NotInside(before: string, content: string, boundary: string, rest: string, j: nat)
    requires LineFree(boundary)
    requires |before| <= j < |before| + |content| + 2
    requires !OccursAt(content, "--" + boundary, j - |before|)
    ensures !OccursAt(before + content + CRLF + ("--" + boundary) + rest, "--" + boundary, j)
  {
    var b := "--" + boundary;
    var s, n, m := before + content + CRLF + b + rest, |before|, |content|;
    assert s[n + m] == '\r' && s[n + m + 1] == '\n';
    if j + |b| <= n + m {
      assert s[j..j + |b|] == content[j - n..j - n + |b|];
    } else {
      Differs(s, b, j, if j <= n + m then n + m - j else 0);
    }
  }

  /** Parsing one printed part recovers its headers and content and stops at the next boundary. */
  lemma PartRoundTrip(before: string, part: FormPart, boundary: string, rest: string)
    requires LineFree(boundary) && Printable(part, boundary)
    ensures var b := "--" + boundary;
            var body := before + PrintPart(part, boundary) + b + rest;
            PartAt(body, b, |before| + |b|)
            == Part(PartInfo(part.name, part.filename, Trimmed(part.contentType)), part.content,
                    |before| + |PrintPart(part, boundary)|)
  {
    hide PrintHeaders, PartHeaders, PartAt, Trimmed, Find;
    var b, h := "--" + boundary, PrintHeaders(part);
    var body := before + PrintPart(part, boundary) + b + rest;
    var n := |before| + |b|;
    PrintedShape(before, part, boundary, rest);
    PrintedHeaderEnd(before + b + CRLF, part, part.content + CRLF + b + rest);
    BoundaryFound(before + b + CRLF + h + "\r\n\r\n", part.content, boundary, rest);
    PartBetween(body, b, n, n + 2 + |h|, n + 2 + |h| + 4 + |part.content| + 2);
    HeadersRoundTrip(part);
  }

  lemma FramedSlices(p: string, h: string, content: string, t: string)
    ensures var body, n := p + CRLF + h + "\r\n\r\n" + content + CRLF + t, |p|;
            && body[n + 2..n + 2 + |h|] == h
            && body[n + 2 + |h| + 4..n + 2 + |h| + 4 + |content|] == content
            && OccursAt(body, CRLF, n)
            && OccursAt(body, CRLF, n + 2 + |h| + 4 + |content|)
  {
    var body, n, m := p + CRLF + h + "\r\n\r\n" + content + CRLF + t, |p|, |p| + 2 + |h| + 4 + |content|;
    assert body[n..n + 2] == CRLF;
    assert body[m..m + 2] == CRLF;
  }

  lemma PrintedShape(before: string, part: FormPart, boundary: string, rest: string)
    ensures var b, h := "--" + boundary, PrintHeaders(part);
            var body := before + PrintPart(part, boundary) + b + rest;
            var n := |before| + |b|;
            && body == (before + b + CRLF) + h + "\r\n\r\n" + (part.content + CRLF + b + rest)
            && body == (before + b + CRLF + h + "\r\n\r\n") + part.content + CRLF + b + rest
            && body[n + 2..n + 2 + |h|] == h
            && body[n + 2 + |h| + 4..n + 2 + |h| + 4 + |part.content|] == part.content
            && OccursAt(body, CRLF, n)
            && OccursAt(body, CRLF, n + 2 + |h| + 4 + |part.content|)
  {
    hide PrintHeaders;
    var b, h := "--" + boundary, PrintHeaders(part);
    var body := before + PrintPart(part, boundary) + b + rest;
    assert body == (before + b + CRLF) + h + "\r\n\r\n" + (part.content + CRLF + b + rest);
    assert body == (before + b + CRLF + h + "\r\n\r\n") + part.content + CRLF + b + rest;
    assert body == (before + b) + CRLF + h + "\r\n\r\n" + part.content + CRLF + (b + rest);
    FramedSlices(before + b, h, part.content, b + rest);
  }

  lemma PartBetween(body: string, b: string, begin: nat, headerEnd: nat, next: nat)
    requires OccursAt(body, CRLF, begin)
    requires Find(body, "\r\n\r\n", begin + 2) == Some(headerEnd)
    requires Find(body, b, headerEnd + 4) == Some(next)
    requires next >= headerEnd + 6 && OccursAt(body, CRLF, next - 2)
    ensures PartAt(body, b, begin)
         == Part(PartHeaders(body[begin + 2..headerEnd]), body[headerEnd + 4..next - 2], next)
  {
    hide Find, PartHeaders;
    assert body[begin..begin + 2] == CRLF != "--";
  }

  lemma PrintedHeaderEnd(before: string, part: FormPart, rest: string)
    requires LineFree(part.name) && LineFree(part.filename) && LineFree(part.contentType)
    ensures Find(before + PrintHeaders(part) + "\r\n\r\n" + rest, "\r\n\r\n", |before|)
         == Some(|before| + |PrintHeaders(part)|)
  {
    hide Find, Disposition;
    DispositionIsLine(part);
    var a, b := "Content-Disposition:" + Disposition(part), "Content-Type: " + part.contentType;
    assert PrintHeaders(part) == a + "\r\n" + b;
    HeaderEndFound(before, a, b, rest);
  }

  // ---- the whole body ----

  /** What one more part adds. */
  function Kept(files: Files, part: FormPart): Files {
    if IsFile(part) then files[part.name := FileOf(part)] else files
  }

  lemma LastWinsSnoc(parts: seq<FormPart>, files: Files, part: FormPart)
    requires LastWins(parts, files)
    ensures LastWins(parts + [part], Kept(files, part))
  {
    hide FileOf;
    var ps, fs, n := parts + [part], Kept(files, part), |parts|;
    assert ps[n] == part && forall i :: 0 <= i < n ==> ps[i] == parts[i];
    forall k ensures k in fs <==> exists i :: 0 <= i < |ps| && IsFile(ps[i]) && ps[i].name == k {
      if k in files {
        var i :| 0 <= i < n && IsFile(parts[i]) && parts[i].name == k;
        assert ps[i].name == k;
      }
      if i :| 0 <= i < |ps| && IsFile(ps[i]) && ps[i].name == k {
        assert i == n || parts[i].name == k;
      }
    }
    forall i | 0 <= i < |ps| && IsFile(ps[i]) && LastOfName(ps, i)
      ensures ps[i].name in fs && fs[ps[i].name] == FileOf(ps[i])
    {
      if i < n {
        assert IsFile(part) ==> ps[n].name != ps[i].name;
        forall j | i < j < n && IsFile(parts[j]) ensures parts[j].name != parts[i].name { assert ps[j] == parts[j]; }
        assert LastOfName(parts, i);
      }
    }
  }

  lemma PartsStart(parts: seq<FormPart>, boundary: string) returns (rest: string)
    ensures PrintParts(parts, boundary) == "--" + boundary + rest
  {
    if parts == [] {
      rest := "--" + CRLF;
    } else {
      hide PrintHeaders;
      var b, h, content := "--" + boundary, PrintHeaders(parts[0]), parts[0].content;
      var part := CRLF + h + CRLF + CRLF + content + CRLF;
      assert PrintPart(parts[0], boundary) == b + part;
      rest := part + PrintParts(parts[1..], boundary);
      Assoc(b, part, PrintParts(parts[1..], boundary));
    }
  }

  lemma PartsTurn(files: Files, body: string, b: string, cursor: nat)
    requires Find(body, b, cursor) == Some(cursor)
    ensures var r := PartAt(body, b, cursor + |b|);
            PartsFrom(files, body, b, cursor)
            == if r.Stop? then files else PartsFrom(WithPart(files, r.info, r.content), body, b, r.next)
  {
    hide PartAt, Find, WithPart;
  }

  /** Whatever stands before the cursor and behind the closing boundary, and whatever parts were already taken. */
  lemma {:induction false} PartsRoundTrip(before: string, parts: seq<FormPart>, boundary: string, epilogue: string,
                                          files: Files, done: seq<FormPart>)
    requires LineFree(boundary) && forall p :: p in parts ==> Printable(p, boundary)
    requires LastWins(done, files)
    ensures LastWins(done + parts,
                     PartsFrom(files, before + PrintParts(parts, boundary) + epilogue, "--" + boundary, |before|))
    decreases |parts|
  {
    hide PartAt, Find, PrintPart, LastWins, PartsFrom, Trimmed;
    var b, body := "--" + boundary, before + PrintParts(parts, boundary) + epilogue;
    var tail := PartsStart(parts, boundary);
    assert body == before + b + (tail + epilogue);
    FindHere(before, b, tail + epilogue);
    PartsTurn(files, body, b, |before|);
    if parts == [] {
      ClosingDelimiter(before, boundary, epilogue);
      assert done + parts == done;
    } else {
      var part := parts[0];
      assert part in parts;
      var rest := PartsStart(parts[1..], boundary);
      assert body == before + PrintPart(part, boundary) + b + (rest + epilogue);
      PartRoundTrip(before, part, boundary, rest + epilogue);
      LastWinsSnoc(done, files, part);
      PartsRoundTrip(before + PrintPart(part, boundary), parts[1..], boundary, epilogue,
                     Kept(files, part), done + [part]);
      assert body == before + PrintPart(part, boundary) + PrintParts(parts[1..], boundary) + epilogue;
      assert done + [part] + parts[1..] == done + parts;
    }
  }

  lemma ClosingDelimiter(before: string, boundary: string, epilogue: string)
    ensures PartAt(before + PrintParts([], boundary) + epilogue, "--" + boundary, |before| + |"--" + boundary|) == Stop
  {
    hide Find;
    var body, n := before + PrintParts([], boundary) + epilogue, |before| + |"--" + boundary|;
    assert body[n..n + 2] == "--";
  }

  /** A preamble ends before the line of the first boundary. */
  function Preamble(text: string): string { if text == "" then "" else text + CRLF }

  lemma PreambleSkipped(text: string, boundary: string, rest: string, files: Files)
    requires LineFree(boundary) && Find(text, "--" + boundary, 0) == None
    ensures var b, p := "--" + boundary, Preamble(text);
            PartsFrom(files, p + b + rest, b, 0) == PartsFrom(files, p + b + rest, b, |p|)
  {
    hide PartAt, Find, PartsFrom;
    var b, p := "--" + boundary, Preamble(text);
    if text != "" {
      BoundaryFound("", text, boundary, rest);
      assert "" + text + CRLF + b + rest == p + b + rest;
      FindHere(p, b, rest);
      SameFind(files, p + b + rest, b, 0, |p|);
    }
  }

  lemma SameFind(files: Files, body: string, b: string, i: nat, j: nat)
    requires Find(body, b, i) == Find(body, b, j)
    ensures PartsFrom(files, body, b, i) == PartsFrom(files, body, b, j)
  {
    hide PartAt, Find, WithPart;
  }

  /**
   * ParseMultipartBody undoes the printing of any list of parts, form fields among them, whatever
   * stands in front of the first boundary and behind the last.
   */
  lemma MultipartRoundTrip(parts: seq<FormPart>, boundary: string, preamble: string, epilogue: string)
    requires LineFree(boundary) && forall p :: p in parts ==> Printable(p, boundary)
    requires Find(preamble, "--" + boundary, 0) == None
    ensures LastWins(parts, MultipartFiles("multipart/form-data; boundary=" + boundary,
                                           Preamble(preamble) + PrintParts(parts, boundary) + epilogue, map[]))
  {
    hide PartsFrom, PrintParts, Find, Printable, Preamble;
    var contentType := "multipart/form-data; boundary=" + boundary;
    BoundaryParameter(boundary);
    assert contentType[30..] == boundary;
    PartsRoundTrip(Preamble(preamble), parts, boundary, epilogue, map[], []);
    var tail := PartsStart(parts, boundary);
    PreambleSkipped(preamble, boundary, tail + epilogue, map[]);
    assert Preamble(preamble) + PrintParts(parts, boundary) + epilogue
        == Preamble(preamble) + ("--" + boundary) + (tail + epilogue);
    assert [] + parts == parts;
  }

  lemma BoundaryParameter(boundary: string)
    ensures Find("multipart/form-data; boundary=" + boundary, "boundary=", 0) == Some(21)
  {
    hide Find;
    var s := "multipart/form-data; boundary=" + boundary;
    forall j: nat | j < 21 ensures !OccursAt(s, "boundary=", j) {
      assert s[j] != 'b';
      Differs(s, "boundary=", j, 0);
    }
    assert s[21..30] == "boundary=";
    FindIs(s, "boundary=", 0, 21);
  }

  /** Where the next boundary is, and the slice taken as content. */
  lemma PartTaken(body: string, boundary: string, headers: nat, headerEnd: nat, begin: nat)
    requires begin <= |body| && PartAt(body, boundary, begin).Part?
    requires headers == (if OccursAt(body, "\r\n", begin) then begin + 2 else begin)
    requires Find(body, "\r\n\r\n", headers) == Some(headerEnd)
    ensures var r, from := PartAt(body, boundary, begin), headerEnd + 4;
            && 2 <= from <= r.next <= |body| && OccursAt(body, "\r\n", from - 2)
            && OccursAt(body, boundary, r.next)
            && (forall j :: from <= j < r.next ==> !OccursAt(body, boundary, j))
            && r.content == Substr(body, from, if OccursAt(body, "\r\n", r.next - 2) then r.next - 2 else r.next)
  {
    hide Find, PartHeaders;
    var from := headerEnd + 4;
    FindFirst(body, boundary, from);
    FindFirst(body, "\r\n\r\n", headers);
    BlankLineEnds(body, headerEnd);
  }

  lemma BlankLineEnds(body: string, at: nat)
    requires OccursAt(body, "\r\n\r\n", at)
    ensures at + 4 <= |body| && OccursAt(body, "\r\n", at + 2)
  {
    SliceOfSlice(body, at, at + 4, 2, 4);
    assert "\r\n\r\n"[2..4] == "\r\n";
  }

  lemma NoSecondBreak(body: string, at: nat)
    requires OccursAt(body, "\r\n", at)
    ensures !OccursAt(body, "\r\n", at + 1)
  {
    assert body[at..at + 2][1] == body[at + 1] == '\n';
    if at + 3 <= |body| { Differs(body, "\r\n", at + 1, 0); }
  }

  lemma StartOfRest(s: string, from: nat, pat: string)
    requires OccursAt(s, pat, from)
    ensures OccursAt(s[from..], pat, 0)
  {
    assert s[from..][0..|pat|] == s[from..from + |pat|];
  }

  /**
   * The content taken for a part is free of the boundary, except when the boundary follows the
   * blank line directly: then the size wraps round and the rest of the body is taken.
   */
  lemma ContentIsDelimited(body: string, boundary: string, headers: nat, headerEnd: nat, begin: nat)
    requires begin <= |body| && boundary != "" && PartAt(body, boundary, begin).Part?
    requires headers == (if OccursAt(body, "\r\n", begin) then begin + 2 else begin)
    requires Find(body, "\r\n\r\n", headers) == Some(headerEnd)
    ensures var r := PartAt(body, boundary, begin);
            Find(r.content, boundary, 0) == None <==> !OccursAt(body, boundary, headerEnd + 4)
  {
    hide Find, PartAt, OccursAt;
    PartTaken(body, boundary, headers, headerEnd, begin);
    var r, from := PartAt(body, boundary, begin), headerEnd + 4;
    if r.next == from {
      StartOfRest(body, from, boundary);
      FindIs(r.content, boundary, 0, 0);
    } else {
      if r.next == from + 1 { NoSecondBreak(body, from - 2); }
      NoOccurrenceWithin(body, boundary, from, from + |r.content|, r.next);
    }
  }

  /** A part for which it does: the closing boundary itself becomes the content. */
  lemma BoundaryBecomesContent()
    ensures var r := PartAt("--b\r\nX\r\n\r\n--b", "--b", 3);
            r.Part? && r.next == 10 && r.content == "--b"
  {
    hide Find, PartHeaders;
    var body := "--b\r\nX\r\n\r\n--b";
    assert body[3..5] == "\r\n" && body[6..10] == "\r\n\r\n" && body[10..13] == "--b" && body[8..10] == "\r\n";
    Differs(body, "\r\n\r\n", 5, 0);
    FindIs(body, "\r\n\r\n", 5, 6);
    FindIs(body, "--b", 10, 10);
    assert body[3] == '\r' && body[3..5] != "--";
    assert body[10..] == "--b";
  }

  lemma NoOccurrenceWithin(s: string, pat: string, from: nat, to: nat, next: nat)
    requires from <= to <= next && to <= |s| && pat != ""
    requires forall j :: from <= j < next ==> !OccursAt(s, pat, j)
    ensures Find(s[from..to], pat, 0) == None
  {
    FindFirst(s[from..to], pat, 0);
    forall i: nat | i + |pat| <= to - from ensures !OccursAt(s[from..to], pat, i) {
      assert !OccursAt(s, pat, from + i);
      SliceOfSlice(s, from, to, i, i + |pat|);
    }
  }

  // ---- text of other forms ----

  /** Trimming takes exactly the blanks and tabs off both ends. */
  lemma TrimmedExact(s: string) returns (i: nat, j: nat)
    ensures i <= j <= |s| && Trimmed(s) == s[i..j]
    ensures forall k :: 0 <= k < |s| && !(i <= k < j) ==> s[k] == ' ' || s[k] == '\t'
    ensures i < j ==> s[i] !in " \t" && s[j - 1] !in " \t"
  {
    i := FrontExact(s);
    var n := BackExact(s[i..]);
    j := i + n;
    assert s[i..][..n] == s[i..j];
    assert forall k :: j <= k < |s| ==> s[k] == s[i..][k - i];
  }

  lemma {:induction false} FrontExact(s: string) returns (i: nat)
    ensures i <= |s| && TrimmedFront(s) == s[i..]
    ensures forall k :: 0 <= k < i ==> s[k] == ' ' || s[k] == '\t'
    ensures i < |s| ==> s[i] !in " \t"
  {
    if s != "" && Blank(s[0]) {
      i := FrontExact(s[1..]);
      assert s[1..][i..] == s[i + 1..];
      assert forall k :: 1 <= k < i + 1 ==> s[k] == s[1..][k - 1];
      i := i + 1;
    } else {
      i := 0;
    }
  }

  lemma {:induction false} BackExact(s: string) returns (j: nat)
    ensures j <= |s| && TrimmedBack(s) == s[..j]
    ensures forall k :: j <= k < |s| ==> s[k] == ' ' || s[k] == '\t'
    ensures j > 0 ==> s[j - 1] !in " \t" && (forall k :: 0 <= k < |s| && k >= j ==> Blank(s[k]))
  {
    if s != "" && Blank(s[|s| - 1]) {
      j := BackExact(s[..|s| - 1]);
      assert s[..|s| - 1][..j] == s[..j];
    } else {
      j := |s|;
      assert s[..j] == s;
    }
  }

  /** Header names are compared in lower case, letter by letter. */
  lemma LoweredExact(s: string)
    ensures |Lowered(s)| == |s|
    ensures forall i :: 0 <= i < |s| ==>
              Lowered(s)[i] as int == if 'A' <= s[i] <= 'Z' then s[i] as int + 32 else s[i] as int
  {
  }

  /** A value without quotes is taken as it is; one quote at either end goes. */
  lemma UnquotedExact(v: string)
    requires v != "" && v[0] != '"' && v[|v| - 1] != '"'
    ensures Unquoted(v) == v == Unquoted("\"" + v) == Unquoted(v + "\"") == Unquoted("\"" + v + "\"")
  {
    assert ("\"" + v)[1..] == v && (v + "\"")[..|v|] == v;
    UnquoteQuoted(v);
  }

  /** A header line without a colon changes nothing. */
  lemma PlainLineIgnored(info: PartInfo, line: string)
    requires ':' !in line
    ensures WithLine(info, line) == info
  {
    FindNoChar(WithoutCR(line), ':');
  }

  /** Neither does a header of any other name. */
  lemma OtherHeaderIgnored(info: PartInfo, name: string, value: string)
    requires ':' !in name && Lowered(Trimmed(name)) !in {"content-disposition", "content-type"}
    ensures WithLine(info, name + ":" + value) == info
  {
    hide Trimmed, Lowered;
    var line := name + ":" + value;
    var v := if value != "" && value[|value| - 1] == '\r' then value[..|value| - 1] else value;
    assert WithoutCR(line) == name + ":" + v;
    FindChar(name, ':', v);
    assert (name + ":" + v)[..|name|] == name;
  }

  /** Headers that do not end in a blank line end the walk. */
  lemma UnendedHeadersStop(body: string, boundary: string, begin: nat)
    requires begin <= |body|
    requires forall i :: begin <= i ==> !OccursAt(body, "\r\n\r\n", i)
    ensures PartAt(body, boundary, begin).Stop?
  {
    hide PartHeaders;
    FindFirst(body, "\r\n\r\n", if OccursAt(body, "\r\n", begin) then begin + 2 else begin);
  }

  /** With the headers ending at `end` it stops exactly at a closing delimiter or without a further boundary. */
  lemma StopsExactly(body: string, boundary: string, begin: nat, headers: nat, end: nat)
    requires begin <= |body| && headers == (if OccursAt(body, "\r\n", begin) then begin + 2 else begin)
    requires headers <= end && OccursAt(body, "\r\n\r\n", end)
    requires forall i :: headers <= i < end ==> !OccursAt(body, "\r\n\r\n", i)
    ensures PartAt(body, boundary, begin).Stop? <==>
            OccursAt(body, "--", begin) || forall j :: end + 4 <= j ==> !OccursAt(body, boundary, j)
  {
    hide Find, PartHeaders;
    FindIs(body, "\r\n\r\n", headers, end);
    FindFirst(body, boundary, end + 4);
  }

  /** Without a boundary parameter nothing is parsed. */
  lemma NoBoundaryNoFiles(contentType: string, body: string, files: Files)
    requires forall i :: 0 <= i <= |contentType| ==> !OccursAt(contentType, "boundary=", i)
    ensures MultipartFiles(contentType, body, files) == files
  {
    FindFirst(contentType, "boundary=", 0);
  }
}
