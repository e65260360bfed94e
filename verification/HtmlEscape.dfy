/** HtmlEscape: four growing in-place passes that amount to one character map. */
module HtmlEscape {
  import opened Text

  /** Every `from` replaced by `to`, everything else kept. */
  function Replaced(s: string, from: char, to: string): string {
    if s == "" then "" else (if s[0] == from then to else [s[0]]) + Replaced(s[1..], from, to)
  }

  lemma {:induction false} ReplacedConcat(a: string, b: string, from: char, to: string)
    ensures Replaced(a + b, from, to) == Replaced(a, from, to) + Replaced(b, from, to)
  {
    if a == "" {
      assert a + b == b;
    } else {
      assert (a + b)[1..] == a[1..] + b;
      ReplacedConcat(a[1..], b, from, to);
      Assoc(if a[0] == from then to else [a[0]], Replaced(a[1..], from, to), Replaced(b, from, to));
    }
  }

  lemma {:induction false} ReplacedWithout(s: string, from: char, to: string)
    requires from !in s
    ensures Replaced(s, from, to) == s
  {
    if s != "" {
      ReplacedWithout(s[1..], from, to);
    }
  }

  /** The step of the loop: the first `from` of the unscanned suffix becomes `to`. */
  lemma ReplacedNext(head: string, rest: string, from: char, to: string)
    requires from !in head
    ensures Replaced(head + [from] + rest, from, to) == head + to + Replaced(rest, from, to)
  {
    assert head + [from] + rest == head + ([from] + rest);
    ReplacedConcat(head, [from] + rest, from, to);
    ReplacedWithout(head, from, to);
    assert ([from] + rest)[1..] == rest;
  }

  /** One turn of the loop, seen from the start of the string. */
  lemma ReplaceTurn(s: string, pos: nat, next: nat, from: char, to: string)
    requires pos <= next < |s| && Find(s, [from], pos) == Some(next)
    ensures var t := s[..next] + to + s[next + 1..];
            t[..next + |to|] + Replaced(t[next + |to|..], from, to) == s[..pos] + Replaced(s[pos..], from, to)
  {
    hide Replaced;
    var done, head, rest := s[..pos], s[pos..next], s[next + 1..];
    FindSuffixChar(s, from, pos);
    assert s[pos..] == head + [from] + rest;
    ReplacedNext(head, rest, from, to);
    var t := s[..next] + to + s[next + 1..];
    assert t[..next + |to|] == done + (head + to) && t[next + |to|..] == rest;
    Assoc(done, head + to, Replaced(rest, from, to));
  }

  /** The replacement may contain `from` ('&' in "&amp;"): scanning resumes behind it. */
  method ReplaceAll(text: string, from: char, to: string) returns (s: string)
    ensures s == Replaced(text, from, to)
  {
    hide Replaced;
    s := text;
    var pos := 0;
    var next := Find(s, [from], pos);
    while next.Some?
      invariant 0 <= pos <= |s|
      invariant next == Find(s, [from], pos)
      invariant Replaced(text, from, to) == s[..pos] + Replaced(s[pos..], from, to)
      decreases |s| - pos
    {
      ReplaceTurn(s, pos, next.value, from, to);
      s := s[..next.value] + to + s[next.value + 1..];
      pos := next.value + |to|;
      next := Find(s, [from], pos);
    }
    FindSuffixChar(s, from, pos);
    ReplacedWithout(s[pos..], from, to);
    assert s == s[..pos] + s[pos..];
  }

  lemma FindSuffixChar(s: string, c: char, from: nat)
    requires from <= |s|
    ensures match Find(s, [c], from)
            case None => c !in s[from..]
            case Some(i) => s[i] == c && c !in s[from..i]
  {
    FindFirst(s, [c], from);
    forall j | 0 <= j < |s| ensures OccursAt(s, [c], j) <==> s[j] == c {
      assert s[j..j + 1] == [s[j]];
    }
  }

  method HtmlEscape(text: string) returns (res: string)
    ensures res == Escaped(text)
  {
    res := ReplaceAll(text, '&', "&amp;");
    res := ReplaceAll(res, '<', "&lt;");
    res := ReplaceAll(res, '>', "&gt;");
    res := ReplaceAll(res, '"', "&quot;");
    PassesAreOneMap(text);
  }

  /** The map the four passes amount to. */
  function EscapedChar(c: char): string {
    match c
    case '&' => "&amp;"
    case '<' => "&lt;"
    case '>' => "&gt;"
    case '"' => "&quot;"
    case _ => [c]
  }

  function Escaped(s: string): string {
    if s == "" then "" else EscapedChar(s[0]) + Escaped(s[1..])
  }

  /** Each character on its own: the four markup characters become their entities, all others stay. */
  lemma EscapedForm(c: char)
    ensures Escaped([c]) == if c == '&' then "&amp;" else if c == '<' then "&lt;" else if c == '>' then "&gt;"
                            else if c == '"' then "&quot;" else [c]
  {
    assert [c][1..] == "" && EscapedChar(c) + "" == EscapedChar(c);
  }

  /** Text is escaped piecewise. */
  lemma {:induction false} EscapedConcat(a: string, b: string)
    ensures Escaped(a + b) == Escaped(a) + Escaped(b)
  {
    hide EscapedChar;
    if a == "" {
      assert a + b == b;
    } else {
      assert (a + b)[1..] == a[1..] + b;
      EscapedConcat(a[1..], b);
      Assoc(EscapedChar(a[0]), Escaped(a[1..]), Escaped(b));
    }
  }

  function Passes(s: string): string {
    Replaced(Replaced(Replaced(Replaced(s, '&', "&amp;"), '<', "&lt;"), '>', "&gt;"), '"', "&quot;")
  }

  lemma PassesConcat(a: string, b: string)
    ensures Passes(a + b) == Passes(a) + Passes(b)
  {
    ReplacedConcat(a, b, '&', "&amp;");
    var a1, b1 := Replaced(a, '&', "&amp;"), Replaced(b, '&', "&amp;");
    ReplacedConcat(a1, b1, '<', "&lt;");
    var a2, b2 := Replaced(a1, '<', "&lt;"), Replaced(b1, '<', "&lt;");
    ReplacedConcat(a2, b2, '>', "&gt;");
    ReplacedConcat(Replaced(a2, '>', "&gt;"), Replaced(b2, '>', "&gt;"), '"', "&quot;");
  }

  lemma ReplacedSingle(c: char, from: char, to: string)
    ensures Replaced([c], from, to) == if c == from then to else [c]
  {
    assert [c][1..] == "";
    assert Replaced("", from, to) == "";
  }

  /** A replacement text written by one pass is left alone by the later ones. */
  lemma LaterPassesKeep(e: string)
    requires '<' !in e && '>' !in e && '"' !in e
    ensures Replaced(Replaced(Replaced(e, '<', "&lt;"), '>', "&gt;"), '"', "&quot;") == e
  {
    ReplacedWithout(e, '<', "&lt;");
    ReplacedWithout(e, '>', "&gt;");
    ReplacedWithout(e, '"', "&quot;");
  }

  lemma PassesChar(c: char)
    ensures Passes([c]) == EscapedChar(c)
  {
    ReplacedSingle(c, '&', "&amp;");
    if c == '&' {
      LaterPassesKeep("&amp;");
    } else {
      ReplacedSingle(c, '<', "&lt;");
      if c == '<' {
        ReplacedWithout("&lt;", '>', "&gt;");
        ReplacedWithout("&lt;", '"', "&quot;");
      } else {
        ReplacedSingle(c, '>', "&gt;");
        if c == '>' {
          ReplacedWithout("&gt;", '"', "&quot;");
        } else {
          ReplacedSingle(c, '"', "&quot;");
        }
      }
    }
  }

  lemma {:induction false} PassesAreOneMap(s: string)
    ensures Passes(s) == Escaped(s)
  {
    if s != "" {
      assert s == [s[0]] + s[1..];
      PassesConcat([s[0]], s[1..]);
      PassesChar(s[0]);
      PassesAreOneMap(s[1..]);
    }
  }

  // ---- the way back ----

  function Unescaped(s: string): string
    decreases |s|
  {
    if s == "" then ""
    else if "&amp;" <= s then "&" + Unescaped(s[5..])
    else if "&lt;" <= s then "<" + Unescaped(s[4..])
    else if "&gt;" <= s then ">" + Unescaped(s[4..])
    else if "&quot;" <= s then "\"" + Unescaped(s[6..])
    else [s[0]] + Unescaped(s[1..])
  }

  lemma UnescapedChar(c: char, rest: string)
    ensures Unescaped(EscapedChar(c) + rest) == [c] + Unescaped(rest)
  {
    var e := EscapedChar(c);
    assert (e + rest)[|e|..] == rest;
    if c == '&' || c == '<' || c == '>' || c == '"' {
      assert (e + rest)[..|e|] == e;
      assert (e + rest)[1] == e[1];
      assert e <= e + rest;
    } else {
      assert (e + rest)[0] == c;
    }
  }

  /** Escaping loses nothing: the matching unescape recovers every text. */
  lemma {:induction false} EscapeRoundTrip(s: string)
    ensures Unescaped(Escaped(s)) == s
  {
    if s != "" {
      UnescapedChar(s[0], Escaped(s[1..]));
      EscapeRoundTrip(s[1..]);
    }
  }

  ghost predicate StartsEntity(t: string) {
    "&amp;" <= t || "&lt;" <= t || "&gt;" <= t || "&quot;" <= t
  }

  ghost predicate Inert(s: string) {
    && '<' !in s && '>' !in s && '"' !in s
    && forall i :: 0 <= i < |s| && s[i] == '&' ==> StartsEntity(s[i..])
  }

  lemma CharIsInert(c: char)
    ensures var e := EscapedChar(c);
            && '<' !in e && '>' !in e && '"' !in e
            && (forall i :: 0 < i < |e| ==> e[i] != '&')
            && (e != "" && e[0] == '&' ==> StartsEntity(e))
  {
  }

  lemma EntityPrefix(e: string, rest: string)
    requires StartsEntity(e)
    ensures StartsEntity(e + rest)
  {
  }

  /** No markup character survives, and every '&' left starts one of the four entities. */
  lemma {:induction false} EscapedIsInert(s: string)
    ensures Inert(Escaped(s))
  {
    hide EscapedChar, StartsEntity;
    if s != "" {
      var e, rest := EscapedChar(s[0]), Escaped(s[1..]);
      EscapedIsInert(s[1..]);
      CharIsInert(s[0]);
      forall i | 0 <= i < |e + rest| && (e + rest)[i] == '&' ensures StartsEntity((e + rest)[i..]) {
        if i < |e| {
          EntityPrefix(e, rest);
          assert (e + rest)[0..] == e + rest;
        } else {
          assert (e + rest)[i..] == rest[i - |e|..];
        }
      }
    }
  }
}
