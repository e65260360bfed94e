/** HttpContext::ParseMultipartBody and the helpers it uses. */
module Multipart {
  import opened Text

  datatype File = File(filename: string, content: string, contentType: string)
  type Files = map<string, File>

  // ---- small helpers ----

  predicate Blank(c: char) { c == ' ' || c == '\t' }

  function TrimmedFront(s: string): string {
    if s != "" && Blank(s[0]) then TrimmedFront(s[1..]) else s
  }

  function TrimmedBack(s: string): string {
    if s != "" && Blank(s[|s| - 1]) then TrimmedBack(s[..|s| - 1]) else s
  }

  function Trimmed(s: string): string { TrimmedBack(TrimmedFront(s)) }

  method Trim(text: string) returns (s: string)
    ensures s == Trimmed(text)
  {
    s := text;
    while s != "" && Blank(s[0])
      invariant TrimmedFront(s) == TrimmedFront(text)
      decreases |s|
    {
      s := s[1..];
    }
    while s != "" && Blank(s[|s| - 1])
      invariant TrimmedBack(s) == Trimmed(text)
      decreases |s|
    {
      s := s[..|s| - 1];
    }
  }

  function LowerChar(c: char): char {
    if 'A' <= c <= 'Z' then (c as int - 'A' as int + 'a' as int) as char else c
  }

  function Lowered(s: string): string {
    seq(|s|, i requires 0 <= i < |s| => LowerChar(s[i]))
  }

  /** One leading and one trailing quote go, each if present. */
  function Unquoted(s: string): string {
    var t := if s != "" && s[0] == '"' then s[1..] else s;
    if t != "" && t[|t| - 1] == '"' then t[..|t| - 1] else t
  }

  // ---- part headers ----

  datatype PartInfo = PartInfo(name: string, filename: string, contentType: string)

  function WithToken(info: PartInfo, token: string): PartInfo {
    var t := Trimmed(token);
    if "name=" <= t then info.(name := Unquoted(t[5..]))
    else if "filename=" <= t then info.(filename := Unquoted(t[9..]))
    else info
  }

  function WithTokens(info: PartInfo, tokens: seq<string>): PartInfo
    decreases |tokens|
  {
    if tokens == [] then info else WithTokens(WithToken(info, tokens[0]), tokens[1..])
  }

  function WithoutCR(line: string): string {
    if line != "" && line[|line| - 1] == '\r' then line[..|line| - 1] else line
  }

  function WithField(info: PartInfo, key: string, value: string): PartInfo {
    if key == "content-disposition" then WithTokens(info, Pieces(value, ';'))
    else if key == "content-type" then info.(contentType := value)
    else info
  }

  function WithLine(info: PartInfo, line: string): PartInfo {
    var l := WithoutCR(line);
    match Find(l, ":", 0)
    case None => info
    case Some(colon) => WithField(info, Lowered(Trimmed(l[..colon])), Trimmed(l[colon + 1..]))
  }

  function WithLines(info: PartInfo, lines: seq<string>): PartInfo
    decreases |lines|
  {
    if lines == [] then info else WithLines(WithLine(info, lines[0]), lines[1..])
  }

  function PartHeaders(block: string): PartInfo {
    WithLines(PartInfo("", "", ""), Pieces(block, '\n'))
  }

  method ParsePartHeaders(block: string) returns (info: PartInfo)
    ensures info == PartHeaders(block)
  {
    info := PartInfo("", "", "");
    var lines := Pieces(block, '\n');
    var i := 0;
    while i < |lines|
      invariant 0 <= i <= |lines|
      invariant WithLines(info, lines[i..]) == PartHeaders(block)
    {
      assert lines[i..][1..] == lines[i + 1..];
      var line := WithoutCR(lines[i]);
      i := i + 1;
      var colon := Find(line, ":", 0);
      if colon == None { continue; }
      var hk := Trim(line[..colon.value]);
      var hv := Trim(line[colon.value + 1..]);
      hk := Lowered(hk);
      if hk == "content-disposition" {
        info := ParseDisposition(info, hv);
      } else if hk == "content-type" {
        info := info.(contentType := hv);
      }
    }
  }

  method ParseDisposition(before: PartInfo, hv: string) returns (info: PartInfo)
    ensures info == WithTokens(before, Pieces(hv, ';'))
  {
    info := before;
    var tokens := Pieces(hv, ';');
    var i := 0;
    while i < |tokens|
      invariant 0 <= i <= |tokens|
      invariant WithTokens(info, tokens[i..]) == WithTokens(before, tokens)
    {
      assert tokens[i..][1..] == tokens[i + 1..];
      var token := Trim(tokens[i]);
      if "name=" <= token {
        info := info.(name := Unquoted(token[5..]));
      } else if "filename=" <= token {
        info := info.(filename := Unquoted(token[9..]));
      }
      i := i + 1;
    }
  }

  // ---- the walk over the parts ----

  /**
   * substr(begin, end - begin) on unsigned sizes: an end before the begin wraps round and
   * takes everything to the end of the body.
   */
  function Substr(body: string, begin: nat, end: nat): string
    requires begin <= |body| && end <= |body|
  {
    if end < begin then body[begin..] else body[begin..end]
  }

  /** The part whose boundary line ends at `begin`: its headers, its content, the next boundary. */
  datatype Step = Stop | Part(info: PartInfo, content: string, next: nat)

  function PartAt(body: string, boundary: string, begin: nat): (r: Step)
    requires begin <= |body|
    ensures r.Part? ==> begin < r.next <= |body|
  {
    if begin + 2 <= |body| && body[begin..begin + 2] == "--" then Stop
    else
      var headers := if OccursAt(body, "\r\n", begin) then begin + 2 else begin;
      var headerEnd := Find(body, "\r\n\r\n", headers);
      if headerEnd == None then Stop
      else
        var contentBegin := headerEnd.value + 4;
        var next := Find(body, boundary, contentBegin);
        if next == None then Stop
        else
          var contentEnd :=
            if next.value >= 2 && OccursAt(body, "\r\n", next.value - 2) then next.value - 2 else next.value;
          Part(PartHeaders(body[headers..headerEnd.value]), Substr(body, contentBegin, contentEnd), next.value)
  }

  function WithPart(files: Files, info: PartInfo, content: string): Files {
    if info.name != "" && info.filename != ""
    then files[info.name := File(info.filename, content, info.contentType)]
    else files
  }

  /** The files found from the cursor on; the cursor strictly increases on every body. */
  function PartsFrom(files: Files, body: string, boundary: string, cursor: nat): Files
    decreases |body| - cursor
  {
    match Find(body, boundary, cursor)
    case None => files
    case Some(at) =>
      match PartAt(body, boundary, at + |boundary|)
      case Stop => files
      case Part(info, content, next) => PartsFrom(WithPart(files, info, content), body, boundary, next)
  }

  function MultipartFiles(contentType: string, body: string, files: Files): Files {
    match Find(contentType, "boundary=", 0)
    case None => files
    case Some(pos) => PartsFrom(files, body, "--" + contentType[pos + 9..], 0)
  }

  /** The middle of the loop body: from behind a boundary to the next one. */
  method ParsePart(body: string, boundary: string, afterBoundary: nat) returns (r: Step)
    requires afterBoundary <= |body|
    ensures r == PartAt(body, boundary, afterBoundary)
  {
    hide Find, PartHeaders;
    var begin := afterBoundary;
    if begin + 2 <= |body| && body[begin..begin + 2] == "--" { return Stop; }
    if OccursAt(body, "\r\n", begin) { begin := begin + 2; }
    var headerEnd := Find(body, "\r\n\r\n", begin);
    if headerEnd == None { return Stop; }
    var info := ParsePartHeaders(body[begin..headerEnd.value]);
    var contentBegin := headerEnd.value + 4;
    var nextBoundary := Find(body, boundary, contentBegin);
    if nextBoundary == None { return Stop; }
    var contentEnd := nextBoundary.value;
    if contentEnd >= 2 && OccursAt(body, "\r\n", contentEnd - 2) { contentEnd := contentEnd - 2; }
    return Part(info, Substr(body, contentBegin, contentEnd), nextBoundary.value);
  }

  method ParseMultipartBody(contentType: string, body: string, before: Files) returns (files: Files)
    ensures files == MultipartFiles(contentType, body, before)
  {
    hide PartAt, Find;
    files := before;
    var pos := Find(contentType, "boundary=", 0);
    if pos == None { return; }
    var boundary := "--" + contentType[pos.value + 9..];
    var cursor := 0;
    while true
      invariant cursor <= |body|
      invariant PartsFrom(files, body, boundary, cursor) == PartsFrom(before, body, boundary, 0)
      decreases |body| - cursor
    {
      var at := Find(body, boundary, cursor);
      if at == None { break; }
      var r := ParsePart(body, boundary, at.value + |boundary|);
      if r.Stop? { break; }
      if r.info.name != "" && r.info.filename != "" {
        files := files[r.info.name := File(r.info.filename, r.content, r.info.contentType)];
      }
      cursor := r.next;
    }
  }
}
