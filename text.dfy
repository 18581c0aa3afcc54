/**
 * The handful of Python string operations the scorer and the chat loop rely on:
 * `str.strip()`, `str.lower()`, `str.split()` with no argument, and the
 * substring test `sub in s`. Each is given a definition by recursion and a
 * characterisation in terms of positions in the string.
 */
module Text {

  /** Python's `str.isspace()` for one character: the ASCII whitespace
      characters, the information separators U+001C..U+001F, NEL, NBSP and the
      Unicode space and line/paragraph separators. `strip()` and `split()` both
      use this set. */
  predicate IsSpace(c: char) {
    || c == ' '
    || ('\t' <= c <= '\r')
    || ('\U{1C}' <= c <= '\U{1F}')
    || c == '\U{85}' || c == '\U{A0}' || c == '\U{1680}'
    || ('\U{2000}' <= c <= '\U{200A}')
    || c == '\U{2028}' || c == '\U{2029}' || c == '\U{202F}' || c == '\U{205F}' || c == '\U{3000}'
  }

  /** Every character of `s` at a position in `[lo, hi)` is whitespace. */
  ghost predicate SpaceBetween(s: string, lo: int, hi: int) {
    forall p :: lo <= p < hi && 0 <= p < |s| ==> IsSpace(s[p])
  }

  ghost predicate NoSpace(s: string) {
    forall i :: 0 <= i < |s| ==> !IsSpace(s[i])
  }

  // ---------------------------------------------------------------------------
  // strip()
  // ---------------------------------------------------------------------------

  /** `s` without its leading whitespace: a suffix of `s`. */
  function TrimStart(s: string): (r: string)
    ensures |r| <= |s| && r == s[|s| - |r|..]
  {
    if s != [] && IsSpace(s[0]) then TrimStart(s[1..]) else s
  }

  /** What `TrimStart` removes is whitespace. */
  lemma {:induction false} TrimStartSpace(s: string)
    ensures SpaceBetween(s, 0, |s| - |TrimStart(s)|)
    decreases |s|
  {
    if s != [] && IsSpace(s[0]) {
      var n := |s| - |TrimStart(s)|;
      TrimStartSpace(s[1..]);
      forall p | 1 <= p < n ensures IsSpace(s[p]) { assert s[p] == s[1..][p - 1]; }
    }
  }

  /** `TrimStart` stops at a character that is not whitespace. */
  lemma {:induction false} TrimStartStops(s: string)
    ensures TrimStart(s) == [] || !IsSpace(TrimStart(s)[0])
    decreases |s|
  {
    if s != [] && IsSpace(s[0]) {
      TrimStartStops(s[1..]);
    }
  }

  /** `s` without its trailing whitespace: a prefix of `s`. */
  function TrimEnd(s: string): (r: string)
    ensures |r| <= |s| && r == s[..|r|]
  {
    if s != [] && IsSpace(s[|s| - 1]) then
      var r := TrimEnd(s[..|s| - 1]);
      assert s[..|s| - 1][..|r|] == s[..|r|];
      r
    else s
  }

  /** What `TrimEnd` removes is whitespace, and it stops at a character that
      is not. */
  lemma {:induction false} TrimEndSpace(s: string)
    ensures SpaceBetween(s, |TrimEnd(s)|, |s|)
    ensures TrimEnd(s) == [] || !IsSpace(TrimEnd(s)[|TrimEnd(s)| - 1])
    decreases |s|
  {
    if s != [] && IsSpace(s[|s| - 1]) {
      var n := |TrimEnd(s)|;
      TrimEndSpace(s[..|s| - 1]);
      forall p | n <= p < |s| - 1 ensures IsSpace(s[p]) { assert s[p] == s[..|s| - 1][p]; }
    }
  }

  /** `r` is what remains of `s` once a whitespace-only prefix and suffix are
      removed, and `r` neither starts nor ends with whitespace. */
  ghost predicate IsStripOf(s: string, r: string) {
    && (r == [] || (!IsSpace(r[0]) && !IsSpace(r[|r| - 1])))
    && exists i :: StripsAt(s, r, i)
  }

  /** `r` sits in `s` at position `i` with only whitespace before and after. */
  ghost predicate StripsAt(s: string, r: string, i: int) {
    0 <= i <= |s| - |r| && s[i..i + |r|] == r && SpaceBetween(s, 0, i) && SpaceBetween(s, i + |r|, |s|)
  }

  /** Python's `s.strip()`. */
  function Strip(s: string): (r: string)
    ensures |r| <= |s|
  {
    TrimEnd(TrimStart(s))
  }

  /** `Strip` removes exactly the leading and trailing whitespace. */
  lemma StripSpec(s: string)
    ensures IsStripOf(s, Strip(s))
  {
    var t := TrimStart(s);
    var r := TrimEnd(t);
    TrimStartSpace(s);
    TrimStartStops(s);
    TrimEndSpace(t);
    StripInner(s, t, r);
    assert StripsAt(s, r, |s| - |t|);
    assert r == [] || (!IsSpace(r[0]) && !IsSpace(r[|r| - 1]));
  }

  /** What is left of the suffix `t` of `s` once its trailing whitespace is
      gone sits in `s` with only whitespace after it. */
  lemma StripInner(s: string, t: string, r: string)
    requires |t| <= |s| && t == s[|s| - |t|..]
    requires |r| <= |t| && r == t[..|r|] && SpaceBetween(t, |r|, |t|)
    ensures var i := |s| - |t|; s[i..i + |r|] == r && SpaceBetween(s, i + |r|, |s|)
    ensures r == [] || r[0] == t[0]
  {
    var i := |s| - |t|;
    assert s[i..i + |r|] == t[..|r|];
    forall p | i + |r| <= p < |s| ensures IsSpace(s[p]) { assert s[p] == t[p - i]; }
  }

  // ---------------------------------------------------------------------------
  // lower()
  // ---------------------------------------------------------------------------

  /** Lower-casing of one character, on the ASCII letters. */
  function LowerChar(c: char): (d: char)
    ensures ('A' <= c <= 'Z') <==> (d != c)
    ensures 'A' <= c <= 'Z' ==> d as int == c as int + 32
  {
    if 'A' <= c <= 'Z' then (c as int + 32) as char else c
  }

  /** Python's `s.lower()`, restricted to ASCII letters. */
  function Lower(s: string): (r: string)
    ensures |r| == |s|
    ensures forall i :: 0 <= i < |s| ==> r[i] == LowerChar(s[i])
  {
    if s == [] then [] else [LowerChar(s[0])] + Lower(s[1..])
  }

  lemma LowerIdempotent(s: string)
    ensures Lower(Lower(s)) == Lower(s)
  {
  }

  /** Lower-casing does not touch whitespace, so it commutes with the trims. */
  lemma {:induction false} TrimStartLower(s: string)
    ensures TrimStart(Lower(s)) == Lower(TrimStart(s))
    decreases |s|
  {
    if s != [] {
      var ls := Lower(s);
      assert ls[0] == LowerChar(s[0]);
      assert IsSpace(ls[0]) == IsSpace(s[0]);
      if IsSpace(s[0]) {
        assert ls[1..] == Lower(s[1..]);
        TrimStartLower(s[1..]);
        assert TrimStart(ls) == TrimStart(ls[1..]);
      }
    }
  }

  lemma LowerPrefix(s: string, n: nat)
    requires n <= |s|
    ensures Lower(s)[..n] == Lower(s[..n])
  {
  }

  lemma {:induction false} TrimEndLower(s: string)
    ensures TrimEnd(Lower(s)) == Lower(TrimEnd(s))
    decreases |s|
  {
    var ls := Lower(s);
    if s == [] {
    } else if IsSpace(s[|s| - 1]) {
      assert IsSpace(ls[|s| - 1]);
      LowerPrefix(s, |s| - 1);
      TrimEndLower(s[..|s| - 1]);
    } else {
      assert !IsSpace(ls[|s| - 1]);
    }
  }

  lemma StripLowerCommute(s: string)
    ensures Strip(Lower(s)) == Lower(Strip(s))
  {
    TrimStartLower(s);
    TrimEndLower(TrimStart(s));
  }

  // ---------------------------------------------------------------------------
  // sub in s
  // ---------------------------------------------------------------------------

  /** `sub` occurs in `s` starting at position `i`. */
  ghost predicate OccursAt(s: string, sub: string, i: int) {
    0 <= i && i + |sub| <= |s| && s[i..i + |sub|] == sub
  }

  ghost predicate Occurs(s: string, sub: string) {
    exists i :: OccursAt(s, sub, i)
  }

  /** Python's substring test `sub in s`. */
  function Contains(s: string, sub: string): bool
    decreases |s|
  {
    sub <= s || (s != [] && Contains(s[1..], sub))
  }

  lemma {:induction false} ContainsIff(s: string, sub: string)
    ensures Contains(s, sub) <==> Occurs(s, sub)
    decreases |s|
  {
    if s == [] {
      if sub == [] { assert OccursAt(s, sub, 0); }
    } else {
      ContainsIff(s[1..], sub);
      if Contains(s, sub) {
        if sub <= s {
          assert OccursAt(s, sub, 0);
        } else {
          var i :| OccursAt(s[1..], sub, i);
          OccursShift(s, sub, i);
        }
      }
      if Occurs(s, sub) {
        var i :| OccursAt(s, sub, i);
        if i == 0 {
          assert sub <= s;
        } else {
          OccursShift(s, sub, i - 1);
        }
      }
    }
  }

  /** An occurrence in `s[1..]` is an occurrence in `s` one place later. */
  lemma OccursShift(s: string, sub: string, i: nat)
    requires s != []
    ensures OccursAt(s[1..], sub, i) <==> OccursAt(s, sub, i + 1)
  {
    if i + 1 + |sub| <= |s| {
      var a, b := s[1..][i..i + |sub|], s[i + 1..i + 1 + |sub|];
      forall j | 0 <= j < |sub| ensures a[j] == b[j] {
        assert a[j] == s[1..][i + j] == s[i + 1 + j];
      }
      assert a == b;
    }
  }

  /** Nothing but the empty string occurs in the empty string. */
  lemma NothingInEmpty(sub: string)
    requires sub != []
    ensures !Contains([], sub)
  {
  }

  // ---------------------------------------------------------------------------
  // split()
  // ---------------------------------------------------------------------------

  /** The longest prefix of `s` free of whitespace. */
  function Word(s: string): (w: string)
    ensures |w| <= |s| && w == s[..|w|] && NoSpace(w)
    ensures |w| == |s| || IsSpace(s[|w|])
  {
    if s == [] || IsSpace(s[0]) then [] else [s[0]] + Word(s[1..])
  }

  /** Python's `s.split()` with no argument: the maximal runs of non-whitespace
      characters, left to right. */
  function Split(s: string): seq<string>
    decreases |s|
  {
    var t := TrimStart(s);
    TrimStartStops(s);
    if t == [] then []
    else
      var w := Word(t);
      assert w != [];
      [w] + Split(t[|w|..])
  }

  /** `w` sits in `s` at position `i` with whitespace (or an end of `s`) on
      both sides. */
  ghost predicate TokenAt(s: string, w: string, i: int) {
    && OccursAt(s, w, i)
    && (i == 0 || IsSpace(s[i - 1]))
    && (i + |w| == |s| || IsSpace(s[i + |w|]))
  }

  /** `w` is one of the whitespace-separated words of `s`. */
  ghost predicate IsToken(s: string, w: string) {
    w != [] && NoSpace(w) && exists i :: TokenAt(s, w, i)
  }

  /** A run of non-whitespace that starts after a whitespace-only prefix and
      ends at whitespace or at the end is a token. */
  lemma RunIsToken(s: string, k: nat, m: nat)
    requires k < m <= |s|
    requires forall p :: 0 <= p < k ==> IsSpace(s[p])
    requires forall p :: k <= p < m ==> !IsSpace(s[p])
    requires m == |s| || IsSpace(s[m])
    ensures IsToken(s, s[k..m])
  {
    assert TokenAt(s, s[k..m], k);
  }

  /** When the first run ends at whitespace or at the end, tokens of what
      follows it are tokens of `s`. */
  lemma TailTokens(s: string, w: string, m: nat)
    requires 0 < m <= |s|
    requires m == |s| || IsSpace(s[m])
    requires IsToken(s[m..], w)
    ensures IsToken(s, w)
  {
    var rest := s[m..];
    var j :| TokenAt(rest, w, j);
    assert rest[j] == w[0];
    assert j >= 1;
    assert s[m + j..m + j + |w|] == rest[j..j + |w|];
    assert s[m + j - 1] == rest[j - 1];
    assert m + j + |w| == |s| || s[m + j + |w|] == rest[j + |w|];
    assert TokenAt(s, w, m + j);
  }

  /** Every token of `s` is its first run or a token of what follows it. */
  lemma TokensCovered(s: string, w: string, k: nat, m: nat)
    requires k < m <= |s|
    requires forall p :: 0 <= p < k ==> IsSpace(s[p])
    requires forall p :: k <= p < m ==> !IsSpace(s[p])
    requires m == |s| || IsSpace(s[m])
    requires IsToken(s, w)
    ensures w == s[k..m] || IsToken(s[m..], w)
  {
    var i :| TokenAt(s, w, i);
    TokenChars(s, w, i);
    assert !IsSpace(s[i]);
    assert i >= k;
    assert i == k || i > m;
    if i == k {
      assert |w| == m - k;
    } else {
      TokenShift(s, w, m, i);
    }
  }

  /** The characters a token covers are not whitespace. */
  lemma TokenChars(s: string, w: string, i: int)
    requires NoSpace(w) && w != [] && TokenAt(s, w, i)
    ensures forall p :: i <= p < i + |w| ==> !IsSpace(s[p])
  {
    forall p | i <= p < i + |w| ensures !IsSpace(s[p]) { assert s[p] == s[i..i + |w|][p - i]; }
  }

  /** A token of `s` that starts past position `m` is a token of `s[m..]`. */
  lemma TokenShift(s: string, w: string, m: nat, i: int)
    requires m < i && m <= |s| && TokenAt(s, w, i)
    ensures TokenAt(s[m..], w, i - m)
  {
    var rest := s[m..];
    var j := i - m;
    assert rest[j..j + |w|] == s[i..i + |w|];
    assert rest[j - 1] == s[i - 1];
    assert j + |w| == |rest| || rest[j + |w|] == s[i + |w|];
  }

  /** A string made of whitespace only has no tokens. */
  lemma NoTokenInSpace(s: string, w: string)
    requires SpaceBetween(s, 0, |s|)
    ensures !IsToken(s, w)
  {
    if w != [] && exists i :: TokenAt(s, w, i) {
      var i :| TokenAt(s, w, i);
      assert w[0] == s[i];
      assert !NoSpace(w);
    }
  }

  /** Where the first word `split()` finds lies in `s`: after the leading
      whitespace `s[..k]`, as the run `s[k..m]`. */
  lemma FirstRun(s: string, k: nat, m: nat)
    requires TrimStart(s) != [] && k == |s| - |TrimStart(s)| && m == k + |Word(TrimStart(s))|
    ensures k < m <= |s|
    ensures s[k..m] == Word(TrimStart(s)) && s[m..] == TrimStart(s)[m - k..]
  {
    var t := TrimStart(s);
    var w := Word(t);
    TrimStartStops(s);
    assert s[k..] == t;
    assert s[k..m] == s[k..][..m - k];
    assert s[m..] == s[k..][m - k..];
  }

  lemma FirstRunBounds(s: string, k: nat, m: nat)
    requires TrimStart(s) != [] && k == |s| - |TrimStart(s)| && m == k + |Word(TrimStart(s))|
    ensures forall p :: 0 <= p < k ==> IsSpace(s[p])
    ensures forall p :: k <= p < m ==> !IsSpace(s[p])
    ensures m == |s| || IsSpace(s[m])
  {
    var t := TrimStart(s);
    FirstRun(s, k, m);
    TrimStartSpace(s);
    RunNoSpace(s, k, m);
    if m < |s| { assert s[m] == s[m..][0] == t[m - k]; }
  }

  lemma RunNoSpace(s: string, k: nat, m: nat)
    requires k <= m <= |s| && NoSpace(s[k..m])
    ensures forall p :: k <= p < m ==> !IsSpace(s[p])
  {
    forall p | k <= p < m ensures !IsSpace(s[p]) { assert s[p] == s[k..m][p - k]; }
  }

  /** The words `split()` returns are exactly the maximal whitespace-free runs. */
  lemma {:induction false} SplitIff(s: string, w: string)
    ensures w in Split(s) <==> IsToken(s, w)
    decreases |s|
  {
    var t := TrimStart(s);
    var k := |s| - |t|;
    if t == [] {
      TrimStartSpace(s);
      NoTokenInSpace(s, w);
    } else {
      var m := k + |Word(t)|;
      FirstRun(s, k, m);
      FirstRunBounds(s, k, m);
      assert Split(s) == [s[k..m]] + Split(s[m..]);
      SplitIff(s[m..], w);
      RunIsToken(s, k, m);
      if IsToken(s[m..], w) { TailTokens(s, w, m); }
      if IsToken(s, w) { TokensCovered(s, w, k, m); }
    }
  }
}
