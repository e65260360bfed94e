/** Substring search and line splitting, as std::string::find and std::getline do them. */
module Text {

  datatype Option<+T> = None | Some(value: T)

  lemma Assoc<T>(a: seq<T>, b: seq<T>, c: seq<T>)
    ensures (a + b) + c == a + (b + c)
  {
  }

  lemma SliceOfSlice<T>(s: seq<T>, from: nat, to: nat, i: nat, j: nat)
    requires from <= to <= |s| && i <= j <= to - from
    ensures s[from..to][i..j] == s[from + i..from + j]
  {
    forall k | 0 <= k < j - i ensures s[from..to][i..j][k] == s[from + i..from + j][k] {
      assert s[from..to][i + k] == s[from + i + k];
    }
  }

  predicate OccursAt(s: string, pat: string, i: nat) {
    i + |pat| <= |s| && s[i..i + |pat|] == pat
  }

  /** std::string::find(pat, from); npos is None. */
  function Find(s: string, pat: string, from: nat): (r: Option<nat>)
    ensures r.Some? ==> from <= r.value && r.value + |pat| <= |s|
    decreases |s| - from
  {
    if from + |pat| > |s| then None
    else if OccursAt(s, pat, from) then Some(from)
    else Find(s, pat, from + 1)
  }

  /** The answer is the first occurrence at or after `from`, and None when there is none. */
  lemma {:induction false} FindFirst(s: string, pat: string, from: nat)
    ensures var r := Find(s, pat, from);
            && (r.Some? ==> OccursAt(s, pat, r.value))
            && (forall j :: from <= j && (r.Some? ==> j < r.value) ==> !OccursAt(s, pat, j))
    decreases |s| - from
  {
    if from + |pat| <= |s| && !OccursAt(s, pat, from) {
      FindFirst(s, pat, from + 1);
    }
  }

  /** One differing character rules an occurrence out. */
  lemma Differs(s: string, pat: string, i: nat, k: nat)
    requires k < |pat| && i + k < |s| && s[i + k] != pat[k]
    ensures !OccursAt(s, pat, i)
  {
    if i + |pat| <= |s| {
      assert s[i..i + |pat|][k] == s[i + k];
    }
  }

  /** The search is determined by its answer: an occurrence with none before it. */
  lemma FindIs(s: string, pat: string, from: nat, at: nat)
    requires from <= at && OccursAt(s, pat, at)
    requires forall j :: from <= j < at ==> !OccursAt(s, pat, j)
    ensures Find(s, pat, from) == Some(at)
  {
    FindFirst(s, pat, from);
  }

  /** Every piece that `while (std::getline(in, piece, delim))` yields. */
  function Pieces(s: string, delim: char): seq<string> {
    if s == "" then []
    else
      match Find(s, [delim], 0)
      case None => [s]
      case Some(i) => [s[..i]] + Pieces(s[i + 1..], delim)
  }

  /** A search for one character: none before the answer, none at all when there is no answer. */
  lemma FindFirstChar(s: string, c: char)
    ensures match Find(s, [c], 0)
            case None => c !in s
            case Some(i) => s[i] == c && c !in s[..i]
  {
    FindFirst(s, [c], 0);
    forall j | 0 <= j < |s| ensures OccursAt(s, [c], j) <==> s[j] == c {
      assert s[j..j + 1] == [s[j]];
    }
  }

  /** Searching for one character finds it right after a prefix that lacks it. */
  lemma FindChar(p: string, c: char, rest: string)
    requires c !in p
    ensures Find(p + [c] + rest, [c], 0) == Some(|p|)
  {
    var s := p + [c] + rest;
    forall j | 0 <= j < |p| ensures !OccursAt(s, [c], j) {
      assert s[j] == p[j];
    }
    assert s[|p|..|p| + 1] == [c];
    FindIs(s, [c], 0, |p|);
  }

  lemma FindNoChar(s: string, c: char)
    requires c !in s
    ensures Find(s, [c], 0) == None
  {
    FindFirstChar(s, c);
  }

  lemma FindCharFrom(before: string, p: string, c: char, rest: string)
    requires c !in p
    ensures Find(before + p + [c] + rest, [c], |before|) == Some(|before| + |p|)
  {
    var s, n := before + p + [c] + rest, |before|;
    forall j | n <= j < n + |p| ensures !OccursAt(s, [c], j) {
      assert s[j] == p[j - n];
    }
    assert s[n + |p|..n + |p| + 1] == [c];
    FindIs(s, [c], n, n + |p|);
  }

  lemma FindNoCharFrom(before: string, p: string, c: char)
    requires c !in p
    ensures Find(before + p, [c], |before|) == None
  {
    var s, n := before + p, |before|;
    FindFirst(s, [c], n);
    forall j | n <= j < |s| ensures !OccursAt(s, [c], j) {
      assert s[j] == p[j - n];
    }
  }

  lemma PiecesCons(p: string, delim: char, rest: string)
    requires delim !in p
    ensures Pieces(p + [delim] + rest, delim) == [p] + Pieces(rest, delim)
  {
    FindChar(p, delim, rest);
    var s := p + [delim] + rest;
    assert s[..|p|] == p && s[|p| + 1..] == rest;
  }

  lemma PiecesLast(p: string, delim: char)
    requires delim !in p && p != ""
    ensures Pieces(p, delim) == [p]
  {
    FindNoChar(p, delim);
  }
}
