/**
 * The parts of Python's `str` that the paraphrase evaluator relies on:
 * `w in s`, `s.find(w)`, `s.split(sep)`, `sep.join(parts)`, `s.strip()`
 * and `s.replace(old, '')`. Strings are sequences of characters.
 */
module PyStrings {
  import opened Wrappers

  /** `w` occurs in `s` starting at index `i`. */
  ghost predicate OccursAt(s: string, w: string, i: int) {
    0 <= i && i + |w| <= |s| && s[i..i + |w|] == w
  }

  /** `s.endswith(w)`. */
  predicate EndsWith(s: string, w: string) {
    |w| <= |s| && s[|s| - |w|..] == w
  }

  lemma {:induction false} OccursShift(s: string, w: string)
    requires |s| > 0
    ensures forall j :: 1 <= j ==> (OccursAt(s, w, j) <==> OccursAt(s[1..], w, j - 1))
  {
    forall j | 1 <= j
      ensures OccursAt(s, w, j) <==> OccursAt(s[1..], w, j - 1)
    {
      if j + |w| <= |s| {
        assert s[1..][j - 1..j - 1 + |w|] == s[j..j + |w|];
      }
    }
  }

  /** `s.find(w)`: the lowest index at which `w` occurs in `s` (Python answers -1 where this is None). */
  function Find(s: string, w: string): (r: Option<nat>)
    ensures r.Some? ==> r.value + |w| <= |s|
    decreases |s|
  {
    if |s| < |w| then None
    else if s[..|w|] == w then Some(0)
    else
      match Find(s[1..], w)
      case None => None
      case Some(i) => Some(i + 1)
  }

  /** `Find` answers the first occurrence, and None exactly when there is none. */
  lemma {:induction false} FindFirst(s: string, w: string)
    ensures Find(s, w).Some? ==> OccursAt(s, w, Find(s, w).value)
    ensures Find(s, w).Some? ==> forall j :: 0 <= j < Find(s, w).value ==> !OccursAt(s, w, j)
    ensures Find(s, w).None? ==> forall j :: !OccursAt(s, w, j)
    decreases |s|
  {
    if |s| < |w| {
    } else if s[..|w|] == w {
    } else {
      FindFirst(s[1..], w);
      OccursShift(s, w);
    }
  }

  /** `w in s`. */
  function Contains(s: string, w: string): bool {
    Find(s, w).Some?
  }

  /** `w in s` holds exactly when `w` occurs somewhere in `s`. */
  lemma {:induction false} ContainsOccurs(s: string, w: string)
    ensures Contains(s, w) <==> exists i :: OccursAt(s, w, i)
  {
    FindFirst(s, w);
  }

  /** `s.split(sep)`: the pieces between the non-overlapping occurrences of `sep`, scanned left to right. */
  function Split(s: string, sep: string): (r: seq<string>)
    requires sep != ""
    ensures |r| >= 1
    decreases |s|
  {
    match Find(s, sep)
    case None => [s]
    case Some(i) => [s[..i]] + Split(s[i + |sep|..], sep)
  }

  /** One step of a split: the text before the first occurrence, then the split of what follows it. */
  lemma {:induction false} SplitStep(s: string, sep: string, i: nat)
    requires sep != "" && Find(s, sep) == Some(i)
    ensures i + |sep| <= |s|
    ensures Split(s, sep) == [s[..i]] + Split(s[i + |sep|..], sep)
    ensures s == s[..i] + sep + s[i + |sep|..]
    ensures forall j :: 0 <= j < i ==> !OccursAt(s, sep, j)
  {
    FindFirst(s, sep);
    assert s[i..i + |sep|] == sep;
    assert s == s[..i] + s[i..i + |sep|] + s[i + |sep|..];
  }

  /** `sep.join(parts)`. */
  function Join(parts: seq<string>, sep: string): string
    decreases |parts|
  {
    if parts == [] then ""
    else if |parts| == 1 then parts[0]
    else parts[0] + sep + Join(parts[1..], sep)
  }

  /** Joining the pieces of a split with the separator gives back the string. */
  lemma {:induction false} JoinSplit(s: string, sep: string)
    requires sep != ""
    ensures Join(Split(s, sep), sep) == s
    decreases |s|
  {
    match Find(s, sep)
    case None =>
    case Some(i) =>
      var rest := s[i + |sep|..];
      JoinSplit(rest, sep);
      SplitStep(s, sep, i);
      var parts := Split(s, sep);
      assert parts[0] == s[..i] && parts[1..] == Split(rest, sep);
  }

  /** `s.split(sep)[-1]`. */
  function LastPiece(s: string, sep: string): string
    requires sep != ""
  {
    var parts := Split(s, sep);
    parts[|parts| - 1]
  }

  lemma {:induction false} LastPieceStep(s: string, sep: string, i: nat)
    requires sep != "" && Find(s, sep) == Some(i)
    ensures i + |sep| <= |s| && LastPiece(s, sep) == LastPiece(s[i + |sep|..], sep)
  {
    FindFirst(s, sep);
    var q := Split(s[i + |sep|..], sep);
    var parts := Split(s, sep);
    assert parts == [s[..i]] + q;
    assert parts[|parts| - 1] == q[|q| - 1];
  }

  /**
   * `t` can be the last piece of `s`: a suffix of `s` holding no occurrence
   * of `sep`, with an occurrence ending right before it, or the whole of `s`
   * when the separator does not occur. A separator that can overlap itself
   * admits more than one such `t` ("aaa" and "aa" admit "" and "a");
   * `LastPieceAfterSep` pins the piece down for a `HeadUnique` one.
   */
  ghost predicate TailPiece(s: string, sep: string, t: string) {
    && EndsWith(s, t)
    && (forall j :: !OccursAt(t, sep, j))
    && (|t| < |s| ==> OccursAt(s, sep, |s| - |t| - |sep|))
    && (|t| == |s| ==> forall j :: !OccursAt(s, sep, j))
  }

  /** The last piece of a split is a separator-free suffix that follows an occurrence, or the whole text. */
  lemma {:induction false} LastPieceIsTail(s: string, sep: string)
    requires sep != ""
    ensures TailPiece(s, sep, LastPiece(s, sep))
    decreases |s|
  {
    FindFirst(s, sep);
    match Find(s, sep)
    case None =>
      assert LastPiece(s, sep) == s;
    case Some(i) =>
      var rest := s[i + |sep|..];
      var t := LastPiece(rest, sep);
      LastPieceStep(s, sep, i);
      LastPieceIsTail(rest, sep);
      TailAfter(s, sep, i, t);
  }

  lemma {:induction false} TailAfter(s: string, sep: string, i: nat, t: string)
    requires sep != "" && OccursAt(s, sep, i)
    requires TailPiece(s[i + |sep|..], sep, t)
    ensures TailPiece(s, sep, t) && |t| < |s|
  {
    var rest := s[i + |sep|..];
    assert s[|s| - |t|..] == rest[|rest| - |t|..];
    if |t| < |rest| {
      var p := |rest| - |t| - |sep|;
      assert rest[p..p + |sep|] == s[i + |sep| + p..i + |sep| + p + |sep|];
    }
  }

  /** The separator's first character does not recur in it, so two occurrences never overlap. */
  predicate HeadUnique(sep: string) {
    sep != "" && forall i :: 1 <= i < |sep| ==> sep[i] != sep[0]
  }

  lemma {:induction false} NoOverlap(s: string, sep: string, q: int, m: int)
    requires HeadUnique(sep)
    requires OccursAt(s, sep, q) && OccursAt(s, sep, m) && q < m
    ensures q + |sep| <= m
  {
    var k := if m - q < |sep| then m - q else 0;
    assert s[q + k] == s[q..q + |sep|][k] == sep[k];
    assert s[m] == s[m..m + |sep|][0] == sep[0];
  }

  /** Text that follows a separator and holds none is exactly the last piece. */
  lemma {:induction false} LastPieceAfterSep(p: string, sep: string, u: string)
    requires HeadUnique(sep)
    requires !Contains(u, sep)
    ensures LastPiece(p + sep + u, sep) == u
  {
    var x := p + sep + u;
    assert x[|p|..|p| + |sep|] == sep && x[|p| + |sep|..] == u;
    LastPieceAt(x, sep, |p|, u);
  }

  /** The text after an occurrence of the separator, when it holds none, is the last piece. */
  lemma {:induction false} LastPieceAt(x: string, sep: string, m: nat, u: string)
    requires HeadUnique(sep)
    requires m + |sep| <= |x| && x[m..m + |sep|] == sep && x[m + |sep|..] == u
    requires !Contains(u, sep)
    ensures LastPiece(x, sep) == u
  {
    var t := LastPiece(x, sep);
    LastPieceIsTail(x, sep);
    assert OccursAt(x, sep, m);
    var q := |x| - |t| - |sep|;
    // no occurrence starts inside the last piece, nor inside `u`
    assert x[q + |sep|..] == t;
    FreeTail(x, sep, q + |sep|, m);
    ContainsOccurs(u, sep);
    FreeTail(x, sep, m + |sep|, q);
    Apart(x, sep, q, m);
  }

  /** An occurrence in `s` starts before any suffix that holds none. */
  lemma {:induction false} FreeTail(s: string, w: string, a: int, m: int)
    requires 0 <= a <= |s|
    requires forall j :: !OccursAt(s[a..], w, j)
    requires OccursAt(s, w, m)
    ensures m < a
  {
    assert s[a..|s|] == s[a..];
    if a <= m {
      OccursInSlice(s, w, a, |s|, m - a);
    }
  }

  /** Two occurrences of a separator whose first character is unique are equal or disjoint. */
  lemma {:induction false} Apart(s: string, sep: string, q: int, m: int)
    requires HeadUnique(sep)
    requires OccursAt(s, sep, q) && OccursAt(s, sep, m)
    ensures q == m || q + |sep| <= m || m + |sep| <= q
  {
    if q < m {
      NoOverlap(s, sep, q, m);
    } else if m < q {
      NoOverlap(s, sep, m, q);
    }
  }

  /** Text without the separator is its own last piece. */
  lemma {:induction false} LastPieceWithoutSep(s: string, sep: string)
    requires sep != ""
    requires !Contains(s, sep)
    ensures LastPiece(s, sep) == s
  {
    LastPieceIsTail(s, sep);
    ContainsOccurs(s, sep);
    var t := LastPiece(s, sep);
    assert |t| == |s|;
    assert s[|s| - |t|..] == s;
  }

  /** No character of `w` is whitespace. */
  predicate NoSpace(w: string) {
    forall k :: 0 <= k < |w| ==> !IsSpace(w[k])
  }

  /** The characters `str.isspace()` accepts. */
  predicate IsSpace(c: char) {
    || c == ' ' || '\t' <= c <= '\r' || '\U{001C}' <= c <= '\U{001F}'
    || c == '\U{0085}' || c == '\U{00A0}' || c == '\U{1680}'
    || '\U{2000}' <= c <= '\U{200A}' || c == '\U{2028}' || c == '\U{2029}'
    || c == '\U{202F}' || c == '\U{205F}' || c == '\U{3000}'
  }

  function StripStart(s: string): string
    decreases |s|
  {
    if |s| > 0 && IsSpace(s[0]) then StripStart(s[1..]) else s
  }

  function StripEnd(s: string): string
    decreases |s|
  {
    if |s| > 0 && IsSpace(s[|s| - 1]) then StripEnd(s[..|s| - 1]) else s
  }

  /** `s.strip()`: whitespace removed from both ends. */
  function Strip(s: string): string {
    StripEnd(StripStart(s))
  }

  /** `StripStart` drops a run of leading whitespace and nothing else. */
  lemma {:induction false} StripStartDrops(s: string)
    ensures var t := StripStart(s);
      && EndsWith(s, t)
      && (forall k :: 0 <= k < |s| - |t| ==> IsSpace(s[k]))
      && (t != "" ==> !IsSpace(t[0]))
    decreases |s|
  {
    if |s| > 0 && IsSpace(s[0]) {
      StripStartDrops(s[1..]);
      var t := StripStart(s[1..]);
      assert s[1..][|s| - 1 - |t|..] == s[|s| - |t|..];
      forall k | 1 <= k < |s| - |t| ensures IsSpace(s[k]) {
        assert s[1..][k - 1] == s[k];
      }
    }
  }

  /** `StripEnd` drops a run of trailing whitespace and nothing else. */
  lemma {:induction false} StripEndDrops(s: string)
    ensures var t := StripEnd(s);
      && |t| <= |s| && s[..|t|] == t
      && (forall k :: |t| <= k < |s| ==> IsSpace(s[k]))
      && (t != "" ==> !IsSpace(t[|t| - 1]))
    decreases |s|
  {
    if |s| > 0 && IsSpace(s[|s| - 1]) {
      StripEndDrops(s[..|s| - 1]);
    }
  }

  /** `s.strip()` has neither leading nor trailing whitespace, so stripping again changes nothing. */
  lemma {:induction false} StripIdempotent(s: string)
    ensures Strip(Strip(s)) == Strip(s)
  {
    var u := StripStart(s);
    var t := StripEnd(u);
    StripStartDrops(s);
    StripEndDrops(u);
    if t != "" {
      assert t[0] == u[0];
    }
    assert StripStart(t) == t;
    StripEndDrops(StripStart(t));
    if t != "" {
      assert StripEnd(t) == t;
    }
  }

  /** A word with no whitespace in it occurs in `s` exactly when it occurs in `s.strip()`. */
  lemma {:induction false} StripKeepsWords(s: string, w: string)
    requires w != "" && NoSpace(w)
    ensures Contains(Strip(s), w) == Contains(s, w)
  {
    var u := StripStart(s);
    var t := StripEnd(u);
    StripStartDrops(s);
    StripEndDrops(u);
    var a := |s| - |u|;
    var b := a + |t|;
    assert u == s[a..];
    assert t == s[a..b];
    ContainsOccurs(s, w);
    ContainsOccurs(t, w);
    if Contains(s, w) {
      var i :| OccursAt(s, w, i);
      WordInside(s, w, i, a, b);
      OccursInSlice(s, w, a, b, i - a);
    }
    if Contains(t, w) {
      var i :| OccursAt(t, w, i);
      OccursInSlice(s, w, a, b, i);
    }
  }

  /** Occurrences in a slice are the occurrences in the whole that lie inside the slice, shifted. */
  lemma {:induction false} OccursInSlice(s: string, w: string, a: int, b: int, i: int)
    requires 0 <= a <= b <= |s|
    ensures OccursAt(s[a..b], w, i) <==> 0 <= i && a + i + |w| <= b && OccursAt(s, w, a + i)
  {
    if 0 <= i && a + i + |w| <= b {
      var x, y := s[a..b][i..i + |w|], s[a + i..a + i + |w|];
      assert |x| == |y| && forall k :: 0 <= k < |x| ==> x[k] == y[k];
    }
  }

  /** An occurrence of a word without whitespace lies inside the span that whitespace surrounds. */
  lemma {:induction false} WordInside(s: string, w: string, i: int, a: int, b: int)
    requires w != "" && forall k :: 0 <= k < |w| ==> !IsSpace(w[k])
    requires OccursAt(s, w, i)
    requires 0 <= a <= b <= |s|
    requires forall k :: 0 <= k < a ==> IsSpace(s[k])
    requires forall k :: b <= k < |s| ==> IsSpace(s[k])
    ensures a <= i && i + |w| <= b
  {
    assert s[i] == s[i..i + |w|][0] == w[0];
    assert s[i + |w| - 1] == s[i..i + |w|][|w| - 1] == w[|w| - 1];
  }

  /**
   * `s.replace(w, '')`. With an empty `w` Python inserts the empty string
   * between characters, which leaves `s` as it is.
   */
  function RemoveAll(s: string, w: string): string {
    if w == "" then s else Join(Split(s, w), "")
  }

  /** Joining the pieces without the separator drops at least one character per occurrence. */
  lemma {:induction false} JoinSplitLength(s: string, sep: string)
    requires sep != ""
    ensures |Join(Split(s, sep), "")| + |Split(s, sep)| - 1 <= |s|
    decreases |s|
  {
    match Find(s, sep)
    case None =>
    case Some(i) =>
      var rest := s[i + |sep|..];
      JoinSplitLength(rest, sep);
      SplitStep(s, sep, i);
      var parts := Split(s, sep);
      assert parts[0] == s[..i] && parts[1..] == Split(rest, sep) && |parts| == |Split(rest, sep)| + 1;
      assert Join(parts, "") == parts[0] + "" + Join(parts[1..], "");
  }

  lemma {:induction false} RemoveAllShrinks(s: string, w: string)
    ensures |RemoveAll(s, w)| <= |s|
    ensures !Contains(s, w) ==> RemoveAll(s, w) == s
  {
    if w != "" {
      JoinSplitLength(s, w);
    }
  }
}
