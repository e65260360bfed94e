/** Util::Split, UrlEncode, UrlDecode and the query-string loop of ParseHttpLine. */
module UrlCodec {
  import opened Text

  // ---- percent-coding ----

  predicate Unreserved(c: char) {
    || c == '.' || c == '-' || c == '_' || c == '~'
    || 'a' <= c <= 'z' || 'A' <= c <= 'Z' || '0' <= c <= '9'
  }

  function HexDigit(n: nat): char
    requires n < 16
  {
    "0123456789ABCDEF"[n]
  }

  /**
   * snprintf(tmp, 4, "%%%02X", c) with a signed char: a byte from 0x80 on is sign-extended
   * to FFFFFFxx and only its first two digits fit.
   */
  function Percent(c: char): string {
    if c < '\U{80}' then ['%', HexDigit(c as int / 16), HexDigit(c as int % 16)] else "%FF"
  }

  function EncodedByte(c: char, spaceToPlus: bool): string {
    if Unreserved(c) then [c]
    else if c == ' ' && spaceToPlus then "+"
    else Percent(c)
  }

  function Encoded(url: string, spaceToPlus: bool): string {
    if url == "" then "" else EncodedByte(url[0], spaceToPlus) + Encoded(url[1..], spaceToPlus)
  }

  lemma {:induction false} EncodedSnoc(url: string, c: char, plus: bool)
    ensures Encoded(url + [c], plus) == Encoded(url, plus) + EncodedByte(c, plus)
  {
    hide EncodedByte;
    if url == "" {
      assert [c][1..] == "";
      assert Encoded([c], plus) == EncodedByte(c, plus) + Encoded("", plus);
      assert url + [c] == [c];
    } else {
      EncodedSnoc(url[1..], c, plus);
      assert (url + [c])[1..] == url[1..] + [c];
      Assoc(EncodedByte(url[0], plus), Encoded(url[1..], plus), EncodedByte(c, plus));
    }
  }

  method UrlEncode(url: string, spaceToPlus: bool) returns (res: string)
    ensures res == Encoded(url, spaceToPlus)
  {
    res := "";
    for i := 0 to |url|
      invariant res == Encoded(url[..i], spaceToPlus)
    {
      EncodedSnoc(url[..i], url[i], spaceToPlus);
      assert url[..i + 1] == url[..i] + [url[i]];
      if Unreserved(url[i]) {
        res := res + [url[i]];
        continue;
      }
      if url[i] == ' ' && spaceToPlus {
        res := res + ['+'];
        continue;
      }
      res := res + Percent(url[i]);
    }
    assert url[..|url|] == url;
  }

  /** HEXTOI accepts every letter, and -1 stands for anything else. */
  function HexToI(c: char): int {
    if '0' <= c <= '9' then c as int - '0' as int
    else if 'a' <= c <= 'z' then c as int - 'a' as int + 10
    else if 'A' <= c <= 'Z' then c as int - 'A' as int + 10
    else -1
  }

  /** v1 * 16 + v2 truncated to one byte. */
  function DecodedByte(hi: char, lo: char): char {
    ((HexToI(hi) * 16 + HexToI(lo)) % 256) as char
  }

  function Decoded(url: string, plusToSpace: bool): string {
    if url == "" then ""
    else if url[0] == '+' && plusToSpace then " " + Decoded(url[1..], plusToSpace)
    else if url[0] == '%' && 2 < |url| then [DecodedByte(url[1], url[2])] + Decoded(url[3..], plusToSpace)
    else [url[0]] + Decoded(url[1..], plusToSpace)
  }

  method UrlDecode(url: string, plusToSpace: bool) returns (res: string)
    ensures res == Decoded(url, plusToSpace)
  {
    res := "";
    var i := 0;
    while i < |url|
      invariant 0 <= i <= |url|
      invariant res + Decoded(url[i..], plusToSpace) == Decoded(url, plusToSpace)
    {
      ghost var rest := url[i..];
      ghost var start := i;
      var c: char;
      if url[i] == '+' && plusToSpace {
        c := ' ';
      } else if url[i] == '%' && i + 2 < |url| {
        c := DecodedByte(url[i + 1], url[i + 2]);
        i := i + 2;
      } else {
        c := url[i];
      }
      i := i + 1;
      assert rest[i - start..] == url[i..];
      assert Decoded(rest, plusToSpace) == [c] + Decoded(url[i..], plusToSpace);
      Assoc(res, [c], Decoded(url[i..], plusToSpace));
      res := res + [c];
    }
  }

  /** What one byte becomes when encoded and decoded again. */
  function Survivor(c: char): char {
    if c < '\U{80}' then c else '\U{FF}'
  }

  function Survivors(s: string): string {
    seq(|s|, i requires 0 <= i < |s| => Survivor(s[i]))
  }

  /** ASCII bytes, and by accident 0xFF. */
  predicate Codable(s: string) {
    forall c :: c in s ==> c < '\U{80}' || c == '\U{FF}'
  }

  lemma HexDigitValue(n: nat)
    requires n < 16
    ensures HexToI(HexDigit(n)) == n
  {
    if n < 10 {
      assert HexDigit(n) == ('0' as int + n) as char;
    } else {
      assert HexDigit(n) == ('A' as int + n - 10) as char;
    }
  }

  lemma DecodeOneByte(c: char, rest: string, plus: bool)
    ensures Decoded(EncodedByte(c, plus) + rest, plus) == [Survivor(c)] + Decoded(rest, plus)
  {
    var e := EncodedByte(c, plus);
    var s := e + rest;
    if |e| == 1 {
      assert s[1..] == rest;
    } else {
      assert e == Percent(c);
      DecodePercent(c);
      hide Percent, DecodedByte, Survivor;
      assert s[0] == '%' && s[1] == e[1] && s[2] == e[2] && s[3..] == rest;
    }
  }

  lemma DecodePercent(c: char)
    ensures var e := Percent(c);
            |e| == 3 && e[0] == '%' && DecodedByte(e[1], e[2]) == Survivor(c)
  {
    if c < '\U{80}' {
      HexDigitValue(c as int / 16);
      HexDigitValue(c as int % 16);
    } else {
      assert HexToI('F') == 15;
    }
  }

  lemma {:induction false} DecodeEncoded(s: string, rest: string, plus: bool)
    ensures Decoded(Encoded(s, plus) + rest, plus) == Survivors(s) + Decoded(rest, plus)
  {
    if s == "" {
      assert Encoded(s, plus) + rest == rest;
    } else {
      var tail := Encoded(s[1..], plus) + rest;
      Assoc(EncodedByte(s[0], plus), Encoded(s[1..], plus), rest);
      DecodeOneByte(s[0], tail, plus);
      DecodeEncoded(s[1..], rest, plus);
      Assoc([Survivor(s[0])], Survivors(s[1..]), Decoded(rest, plus));
      assert Survivors(s) == [Survivor(s[0])] + Survivors(s[1..]);
    }
  }

  /** Decoding undoes encoding for exactly the strings whose bytes are ASCII or 0xFF. */
  lemma PercentCodingRoundTrip(s: string, plus: bool)
    ensures Decoded(Encoded(s, plus), plus) == s <==> Codable(s)
  {
    DecodeEncoded(s, "", plus);
    assert Encoded(s, plus) + "" == Encoded(s, plus);
    var t := Survivors(s);
    assert Decoded(Encoded(s, plus), plus) == t;
    if t == s {
      forall c | c in s ensures c < '\U{80}' || c == '\U{FF}' {
        var i :| 0 <= i < |s| && s[i] == c;
        assert t[i] == Survivor(s[i]);
      }
    }
    if Codable(s) { CodableSurvives(s); }
  }

  /** The encoder writes only unreserved characters, '%' and '+'. */
  lemma {:induction false} EncodedAlphabet(s: string, plus: bool)
    ensures forall c :: c in Encoded(s, plus) ==> Unreserved(c) || c == '%' || c == '+'
  {
    hide EncodedByte, Unreserved;
    if s != "" {
      EncodedAlphabet(s[1..], plus);
      ByteAlphabet(s[0], plus);
    }
  }

  lemma ByteAlphabet(b: char, plus: bool)
    ensures forall c :: c in EncodedByte(b, plus) ==> Unreserved(c) || c == '%' || c == '+'
  {
    if b < '\U{80}' {
      HexIsUnreserved(b as int / 16);
      HexIsUnreserved(b as int % 16);
    }
  }

  lemma HexIsUnreserved(n: nat)
    requires n < 16
    ensures Unreserved(HexDigit(n))
  {
  }

  // ---- the codec byte by byte ----

  const UPPER_HEX: string := "0123456789ABCDEF"
  const LOWER_HEX: string := "0123456789abcdef"

  /** RFC 3986 section 2.3: these bytes stay, the others become '+' or an upper-case escape of their value. */
  lemma EncodedForm(c: char, plus: bool)
    ensures var e := Encoded([c], plus);
            if c in "-._~" || '0' <= c <= '9' || 'A' <= c <= 'Z' || 'a' <= c <= 'z' then e == [c]
            else if c == ' ' && plus then e == "+"
            else if c as int >= 0x80 then e == "%FF"
            else e == ['%', UPPER_HEX[c as int / 16], UPPER_HEX[c as int % 16]]
  {
    assert [c][1..] == "" && Encoded("", plus) == "";
    assert EncodedByte(c, plus) + "" == EncodedByte(c, plus);
  }

  /** Text is encoded piecewise. */
  lemma {:induction false} EncodedConcat(a: string, b: string, plus: bool)
    ensures Encoded(a + b, plus) == Encoded(a, plus) + Encoded(b, plus)
  {
    hide EncodedByte;
    if a == "" {
      assert a + b == b;
    } else {
      assert (a + b)[1..] == a[1..] + b;
      EncodedConcat(a[1..], b, plus);
      Assoc(EncodedByte(a[0], plus), Encoded(a[1..], plus), Encoded(b, plus));
    }
  }

  /** Both cases of a digit stand for it; so, beyond F, do the other letters, and nothing else does. */
  lemma HexDigits(c: char)
    ensures forall v :: 0 <= v < 16 && (c == UPPER_HEX[v] || c == LOWER_HEX[v]) ==> HexToI(c) == v
    ensures 'g' <= c <= 'z' ==> HexToI(c) == 16 + (c as int - 'g' as int)
    ensures 'G' <= c <= 'Z' ==> HexToI(c) == 16 + (c as int - 'G' as int)
    ensures !('0' <= c <= '9' || 'a' <= c <= 'z' || 'A' <= c <= 'Z') ==> HexToI(c) == -1
  {
    forall v | 0 <= v < 16 && (c == UPPER_HEX[v] || c == LOWER_HEX[v]) ensures HexToI(c) == v {
      if v < 10 {
        assert UPPER_HEX[v] as int == '0' as int + v && LOWER_HEX[v] as int == '0' as int + v;
      } else {
        assert UPPER_HEX[v] as int == 'A' as int + v - 10 && LOWER_HEX[v] as int == 'a' as int + v - 10;
      }
    }
  }

  /** An escape decodes to its value, in either case of its digits. */
  lemma EscapeDecodes(h: nat, l: nat, hi: char, lo: char, rest: string, plus: bool)
    requires h < 16 && (hi == UPPER_HEX[h] || hi == LOWER_HEX[h])
    requires l < 16 && (lo == UPPER_HEX[l] || lo == LOWER_HEX[l])
    ensures Decoded(['%', hi, lo] + rest, plus) == [(16 * h + l) as char] + Decoded(rest, plus)
  {
    HexDigits(hi);
    HexDigits(lo);
    var s := ['%', hi, lo] + rest;
    assert s[0] == '%' && s[1] == hi && s[2] == lo && s[3..] == rest;
  }

  /** '+' is a space in a query and itself in a path, and a '%' without two bytes behind it stays. */
  lemma PlainDecodes(c: char, rest: string, plus: bool)
    requires c != '%' || |rest| < 2
    ensures Decoded([c] + rest, plus) == (if c == '+' && plus then " " else [c]) + Decoded(rest, plus)
  {
    assert ([c] + rest)[1..] == rest;
  }

  // ---- splitting ----

  /** The pieces between separators from an offset on, empty ones dropped. */
  function SplitFrom(src: string, sep: string, offset: nat): seq<string>
    requires sep != ""
    decreases |src| - offset
  {
    if offset >= |src| then []
    else
      match Find(src, sep, offset)
      case None => [src[offset..]]
      case Some(pos) =>
        (if pos == offset then [] else [src[offset..pos]]) + SplitFrom(src, sep, pos + |sep|)
  }

  lemma SplitFromTurn(src: string, sep: string, offset: nat, pos: nat)
    requires sep != "" && offset < |src| && Find(src, sep, offset) == Some(pos)
    ensures SplitFrom(src, sep, offset)
         == (if pos == offset then [] else [src[offset..pos]]) + SplitFrom(src, sep, pos + |sep|)
  {
    hide Find;
  }

  /** One turn of the splitting loop. */
  lemma SplitTurn(arry: seq<string>, src: string, sep: string, offset: nat, pos: nat)
    requires sep != "" && offset < |src| && Find(src, sep, offset) == Some(pos)
    ensures arry + SplitFrom(src, sep, offset)
         == (if pos == offset then arry else arry + [src[offset..pos]]) + SplitFrom(src, sep, pos + |sep|)
  {
    SplitFromTurn(src, sep, offset, pos);
    var rest := SplitFrom(src, sep, pos + |sep|);
    if pos == offset {
      assert [] + rest == rest;
    } else {
      Assoc(arry, [src[offset..pos]], rest);
    }
  }

  method Split(src: string, sep: string) returns (arry: seq<string>)
    requires sep != ""
    ensures arry == SplitFrom(src, sep, 0)
  {
    hide Find;
    arry := [];
    var offset := 0;
    while offset < |src|
      invariant 0 <= offset <= |src|
      invariant arry + SplitFrom(src, sep, offset) == SplitFrom(src, sep, 0)
      decreases |src| - offset
    {
      var pos := Find(src, sep, offset);
      if pos == None {
        arry := arry + [src[offset..]];
        return;
      }
      SplitTurn(arry, src, sep, offset, pos.value);
      if pos.value != offset {
        arry := arry + [src[offset..pos.value]];
      }
      offset := pos.value + |sep|;
    }
  }

  /** Pieces with a separator between each two of them; every string is one of these. */
  function JoinedBy(ps: seq<string>, sep: char): string {
    if ps == [] then "" else if |ps| == 1 then ps[0] else ps[0] + [sep] + JoinedBy(ps[1..], sep)
  }

  function Nonempty(ps: seq<string>): seq<string> {
    if ps == [] then [] else (if ps[0] == "" then [] else [ps[0]]) + Nonempty(ps[1..])
  }

  /** Splitting recovers the pieces of any joined list, without the empty ones. */
  lemma {:induction false} SplitJoined(before: string, ps: seq<string>, sep: char)
    requires forall p :: p in ps ==> sep !in p
    ensures SplitFrom(before + JoinedBy(ps, sep), [sep], |before|) == Nonempty(ps)
    decreases |ps|
  {
    hide Find, SplitFrom;
    var src := before + JoinedBy(ps, sep);
    if ps == [] {
      NothingToSplit(before, sep);
    } else {
      assert ps[0] in ps;
      if |ps| == 1 {
        LastPiece(before, ps[0], sep);
        assert Nonempty(ps[1..]) == [];
      } else {
        var rest := JoinedBy(ps[1..], sep);
        FindCharFrom(before, ps[0], sep, rest);
        assert src == before + ps[0] + [sep] + rest;
        assert src[|before|..|before| + |ps[0]|] == ps[0];
        SplitFromTurn(src, [sep], |before|, |before| + |ps[0]|);
        SplitJoined(before + ps[0] + [sep], ps[1..], sep);
      }
    }
  }

  lemma NothingToSplit(before: string, sep: char)
    ensures SplitFrom(before + "", [sep], |before|) == []
  {
  }

  lemma LastPiece(before: string, p: string, sep: char)
    requires sep !in p
    ensures SplitFrom(before + p, [sep], |before|) == if p == "" then [] else [p]
  {
    FindNoCharFrom(before, p, sep);
    assert (before + p)[|before|..] == p;
  }

  // ---- query strings ----

  type Params = map<string, string>

  /** unordered_map::insert keeps an existing binding. */
  function Insert(m: Params, key: string, val: string): (r: Params)
  {
    if key in m then m else m[key := val]
  }

  datatype Query = Query(ok: bool, params: Params)

  /** The loop over the pieces; a piece without '=' stops it, earlier bindings stay. */
  function BindAll(params: Params, pieces: seq<string>): Query
    decreases |pieces|
  {
    if pieces == [] then Query(true, params)
    else
      match Find(pieces[0], "=", 0)
      case None => Query(false, params)
      case Some(i) =>
        var key := Decoded(pieces[0][..i], true);
        var val := Decoded(pieces[0][i + 1..], true);
        BindAll(Insert(params, key, val), pieces[1..])
  }

  function QueryOf(text: string): Query {
    BindAll(map[], SplitFrom(text, "&", 0))
  }

  method ParseQuery(before: Params, text: string) returns (q: Query)
    ensures q == BindAll(before, SplitFrom(text, "&", 0))
  {
    var pieces := Split(text, "&");
    var params := before;
    var i := 0;
    while i < |pieces|
      invariant 0 <= i <= |pieces|
      invariant BindAll(params, pieces[i..]) == BindAll(before, pieces)
    {
      var str := pieces[i];
      assert pieces[i..][1..] == pieces[i + 1..];
      var pos := Find(str, "=", 0);
      if pos == None {
        return Query(false, params);
      }
      var key := UrlDecode(str[..pos.value], true);
      var val := UrlDecode(str[pos.value + 1..], true);
      params := Insert(params, key, val);
      i := i + 1;
    }
    q := Query(true, params);
  }

  // ---- the query-string round trip ----

  type Binding = (string, string)

  function PrintBinding(b: Binding): string {
    Encoded(b.0, true) + "=" + Encoded(b.1, true)
  }

  function PrintQuery(bs: seq<Binding>): string {
    if bs == [] then ""
    else if |bs| == 1 then PrintBinding(bs[0])
    else PrintBinding(bs[0]) + "&" + PrintQuery(bs[1..])
  }

  /** m binds exactly the keys of the list, each to the value of its first occurrence. */
  ghost predicate FirstWins(bs: seq<Binding>, m: Params) {
    && (forall k :: k in m <==> exists i :: 0 <= i < |bs| && bs[i].0 == k)
    && (forall i :: 0 <= i < |bs| && (forall j :: 0 <= j < i ==> bs[j].0 != bs[i].0) ==>
          bs[i].0 in m && m[bs[i].0] == bs[i].1)
  }

  function Survivable(bs: seq<Binding>): seq<Binding> {
    seq(|bs|, i requires 0 <= i < |bs| => (Survivors(bs[i].0), Survivors(bs[i].1)))
  }

  lemma PrintedBinding(b: Binding)
    ensures '&' !in PrintBinding(b) && PrintBinding(b) != ""
    ensures Find(PrintBinding(b), "=", 0) == Some(|Encoded(b.0, true)|)
  {
    EncodedAlphabet(b.0, true);
    EncodedAlphabet(b.1, true);
    FindChar(Encoded(b.0, true), '=', Encoded(b.1, true));
  }

  function PrintedBindings(bs: seq<Binding>): seq<string> {
    if bs == [] then [] else [PrintBinding(bs[0])] + PrintedBindings(bs[1..])
  }

  /** A query is its printed bindings with '&' between them, and none of them is empty. */
  lemma {:induction false} PrintedIsJoined(bs: seq<Binding>)
    ensures PrintQuery(bs) == JoinedBy(PrintedBindings(bs), '&')
    ensures Nonempty(PrintedBindings(bs)) == PrintedBindings(bs)
    ensures forall p :: p in PrintedBindings(bs) ==> '&' !in p
    decreases |bs|
  {
    hide PrintBinding;
    if bs != [] {
      var p, ps := PrintBinding(bs[0]), PrintedBindings(bs[1..]);
      PrintedBinding(bs[0]);
      PrintedIsJoined(bs[1..]);
      assert ([p] + ps)[1..] == ps;
    }
  }

  /** Splitting finds the printed bindings, whatever stands before the offset. */
  lemma SplitPrinted(before: string, bs: seq<Binding>)
    ensures SplitFrom(before + PrintQuery(bs), "&", |before|) == PrintedBindings(bs)
  {
    PrintedIsJoined(bs);
    SplitJoined(before, PrintedBindings(bs), '&');
  }

  lemma BindOne(m: Params, b: Binding, pieces: seq<string>)
    ensures BindAll(m, [PrintBinding(b)] + pieces)
         == BindAll(Insert(m, Survivors(b.0), Survivors(b.1)), pieces)
  {
    var ek, ev := Encoded(b.0, true), Encoded(b.1, true);
    var p := PrintBinding(b);
    PrintedBinding(b);
    assert p[..|ek|] == ek && p[|ek| + 1..] == ev;
    DecodeWhole(b.0);
    DecodeWhole(b.1);
    assert ([p] + pieces)[1..] == pieces;
  }

  lemma DecodeWhole(s: string)
    ensures Decoded(Encoded(s, true), true) == Survivors(s)
  {
    DecodeEncoded(s, "", true);
    assert Encoded(s, true) + "" == Encoded(s, true);
  }

  lemma SurvivableCons(bs: seq<Binding>)
    requires bs != []
    ensures Survivable(bs) == [(Survivors(bs[0].0), Survivors(bs[0].1))] + Survivable(bs[1..])
  {
  }

  /** Binding the printed list behind bindings already made. */
  lemma {:induction false} BindPrinted(bs: seq<Binding>, done: seq<Binding>, m: Params)
    requires FirstWins(done, m)
    ensures BindAll(m, PrintedBindings(bs)).ok
    ensures FirstWins(done + Survivable(bs), BindAll(m, PrintedBindings(bs)).params)
  {
    if bs == [] {
      assert done + Survivable(bs) == done;
    } else {
      var b := (Survivors(bs[0].0), Survivors(bs[0].1));
      FirstWinsSnoc(done, m, b);
      BindPrinted(bs[1..], done + [b], Insert(m, b.0, b.1));
      SurvivableCons(bs);
      Assoc(done, [b], Survivable(bs[1..]));
      BindOne(m, bs[0], PrintedBindings(bs[1..]));
    }
  }

  lemma FirstWinsSnoc(bs: seq<Binding>, m: Params, b: Binding)
    requires FirstWins(bs, m)
    ensures FirstWins(bs + [b], Insert(m, b.0, b.1))
  {
    var cs, n := bs + [b], Insert(m, b.0, b.1);
    forall k ensures k in n <==> exists i :: 0 <= i < |cs| && cs[i].0 == k {
      if k in n {
        if k in m {
          var i :| 0 <= i < |bs| && bs[i].0 == k;
          assert cs[i].0 == k;
        } else {
          assert cs[|bs|].0 == k;
        }
      }
      if i :| 0 <= i < |cs| && cs[i].0 == k {
        assert i == |bs| || bs[i].0 == k;
      }
    }
    forall i | 0 <= i < |cs| && (forall j :: 0 <= j < i ==> cs[j].0 != cs[i].0)
      ensures cs[i].0 in n && n[cs[i].0] == cs[i].1
    {
      if i < |bs| {
        forall j | 0 <= j < i ensures bs[j].0 != bs[i].0 { assert cs[j] == bs[j]; }
      } else {
        assert forall j :: 0 <= j < |bs| ==> cs[j] == bs[j];
        assert b.0 !in m;
      }
    }
  }

  /** Printing any bindings and parsing them back: first one wins, bytes from 0x80 on become 0xFF. */
  lemma QueryRoundTripBytes(bs: seq<Binding>)
    ensures QueryOf(PrintQuery(bs)).ok
    ensures FirstWins(Survivable(bs), QueryOf(PrintQuery(bs)).params)
  {
    SplitPrinted("", bs);
    assert "" + PrintQuery(bs) == PrintQuery(bs);
    BindPrinted(bs, [], map[]);
    assert [] + Survivable(bs) == Survivable(bs);
  }

  /** The round trip the source promises, on every list of codable bindings. */
  lemma QueryRoundTrip(bs: seq<Binding>)
    requires forall b :: b in bs ==> Codable(b.0) && Codable(b.1)
    ensures QueryOf(PrintQuery(bs)).ok
    ensures FirstWins(bs, QueryOf(PrintQuery(bs)).params)
  {
    QueryRoundTripBytes(bs);
    forall i | 0 <= i < |bs| ensures Survivors(bs[i].0) == bs[i].0 && Survivors(bs[i].1) == bs[i].1 {
      assert bs[i] in bs;
      CodableSurvives(bs[i].0);
      CodableSurvives(bs[i].1);
    }
    assert Survivable(bs) == bs;
  }

  lemma CodableSurvives(s: string)
    requires Codable(s)
    ensures Survivors(s) == s
  {
    forall i | 0 <= i < |s| ensures Survivors(s)[i] == s[i] {
      assert s[i] in s;
    }
  }

  // ---- what a query string must look like ----

  /** The loop ends well exactly if every piece has a '='. */
  lemma {:induction false} BindAllAccepts(m: Params, ps: seq<string>)
    ensures BindAll(m, ps).ok <==> forall p :: p in ps ==> '=' in p
    decreases |ps|
  {
    if ps != [] {
      FindFirstChar(ps[0], '=');
      assert forall p :: p in ps <==> p == ps[0] || p in ps[1..];
      if i :| Find(ps[0], "=", 0) == Some(i) {
        assert ps[0][i] in ps[0];
        BindAllAccepts(Insert(m, Decoded(ps[0][..i], true), Decoded(ps[0][i + 1..], true)), ps[1..]);
      }
    }
  }

  /** A piece without '=' stops the loop: the bindings in front of it stay, those behind are not made. */
  lemma {:induction false} BindAllStops(m: Params, ps: seq<string>, bad: string, rest: seq<string>)
    requires '=' !in bad && forall p :: p in ps ==> '=' in p
    ensures BindAll(m, ps + [bad] + rest) == Query(false, BindAll(m, ps).params)
    decreases |ps|
  {
    var all := ps + [bad] + rest;
    FindFirstChar(all[0], '=');
    if ps == [] {
      assert all[0] == bad;
      FindNoChar(bad, '=');
    } else {
      assert ps[0] in ps && all[0] == ps[0] && all[1..] == ps[1..] + [bad] + rest;
      var i := Find(ps[0], "=", 0).value;
      BindAllStops(Insert(m, Decoded(ps[0][..i], true), Decoded(ps[0][i + 1..], true)), ps[1..], bad, rest);
    }
  }

  /** A query of pieces between '&' is accepted exactly if each is empty or has a '='. */
  lemma QueryAccepted(ps: seq<string>)
    requires forall p :: p in ps ==> '&' !in p
    ensures QueryOf(JoinedBy(ps, '&')).ok <==> forall p :: p in ps ==> p == "" || '=' in p
  {
    SplitJoined("", ps, '&');
    assert "" + JoinedBy(ps, '&') == JoinedBy(ps, '&');
    BindAllAccepts(map[], Nonempty(ps));
    NonemptyOnes(ps);
  }

  lemma {:induction false} NonemptyOnes(ps: seq<string>)
    ensures forall p :: p in Nonempty(ps) <==> p in ps && p != ""
  {
    if ps != [] {
      NonemptyOnes(ps[1..]);
      assert forall p :: p in ps <==> p == ps[0] || p in ps[1..];
    }
  }
}
