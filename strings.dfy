/**
 * The JavaScript string primitives the reader relies on: the `\s` character
 * class (which is also the set `trim` removes), `trim`, `indexOf`, `includes`,
 * the white-space run `substring(k).match(/^\s+/)` measures, lower-casing,
 * and the code-unit order `sort` uses.  Strings are sequences of characters.
 */
module Strings {

  /** ECMAScript WhiteSpace and LineTerminator code points: what `\s` matches and `trim` strips. */
  predicate IsSpace(c: char) {
    c == '\t' || c == '\n' || c == '\U{B}' || c == '\U{C}' || c == '\r' || c == ' ' ||
    c == '\U{A0}' || c == '\U{1680}' || ('\U{2000}' <= c <= '\U{200A}') ||
    c == '\U{2028}' || c == '\U{2029}' || c == '\U{202F}' || c == '\U{205F}' ||
    c == '\U{3000}' || c == '\U{FEFF}'
  }

  predicate NotSpace(c: char) { !IsSpace(c) }

  ghost predicate AllSpace(s: string) {
    forall i :: 0 <= i < |s| ==> IsSpace(s[i])
  }

  ghost predicate NoSpace(s: string) {
    forall i :: 0 <= i < |s| ==> !IsSpace(s[i])
  }

  /** Length of the longest prefix of `s` whose characters all satisfy `p` (what a greedy `[...]+` / `[...]*` consumes). */
  function Run(s: string, p: char -> bool): (n: nat)
    ensures n <= |s|
    ensures forall i :: 0 <= i < n ==> p(s[i])
    ensures n < |s| ==> !p(s[n])
  {
    if s != [] && p(s[0]) then 1 + Run(s[1..], p) else 0
  }

  /**
   * Length of the white-space run starting at position `k`: the length of
   * `s.substring(k).match(/^\s+/)[0]`, or 0 when it does not match.
   */
  function SpaceRunAt(s: string, k: nat): (n: nat)
    ensures k >= |s| ==> n == 0
    ensures k < |s| ==> k + n <= |s|
    ensures forall i :: k <= i < k + n ==> IsSpace(s[i])
    ensures k + n < |s| ==> !IsSpace(s[k + n])
    decreases |s| - k
  {
    if k < |s| && IsSpace(s[k]) then 1 + SpaceRunAt(s, k + 1) else 0
  }

  lemma {:induction false} RunAppend(x: string, y: string, p: char -> bool)
    requires forall i :: 0 <= i < |x| ==> p(x[i])
    ensures Run(x + y, p) == |x| + Run(y, p)
  {
    if x != [] {
      assert (x + y)[1..] == x[1..] + y;
      RunAppend(x[1..], y, p);
    } else {
      assert x + y == y;
    }
  }

  lemma SplitAt(s: string, m: nat)
    requires m <= |s|
    ensures s[..m] + s[m..] == s
  {
  }

  lemma HeadTail(s: string, t: string)
    requires s != []
    ensures [s[0]] + (s[1..] + t) == s + t
  {
  }

  /** Concatenation of a list of strings (`Array.prototype.join('')`). */
  function Concat(ss: seq<string>): (r: string)
  {
    if ss == [] then [] else ss[0] + Concat(ss[1..])
  }

  lemma {:induction false} ConcatAppend(a: seq<string>, b: seq<string>)
    ensures Concat(a + b) == Concat(a) + Concat(b)
  {
    if a == [] {
      assert a + b == b;
    } else {
      assert (a + b)[1..] == a[1..] + b;
      ConcatAppend(a[1..], b);
    }
  }

  /** `s.trimStart()`: drops the leading white space. */
  function TrimStart(s: string): (r: string)
    ensures |r| <= |s|
    ensures r == [] || !IsSpace(r[0])
  {
    if s != [] && IsSpace(s[0]) then TrimStart(s[1..]) else s
  }

  /** What `trimStart` drops is white space, and nothing else is dropped. */
  lemma {:induction false} TrimStartIsSuffix(s: string)
    ensures var r := TrimStart(s); r == s[|s| - |r|..] && AllSpace(s[..|s| - |r|])
  {
    if s != [] && IsSpace(s[0]) {
      TrimStartIsSuffix(s[1..]);
      var r := TrimStart(s);
      var k := |s| - |r|;
      assert s[1..][k - 1..] == s[k..];
      forall i | 0 <= i < k ensures IsSpace(s[..k][i]) {
        if i > 0 { assert s[..k][i] == s[1..][..k - 1][i - 1]; }
      }
    }
  }

  /** `s.trimEnd()`: drops the trailing white space. */
  function TrimEnd(s: string): (r: string)
    ensures |r| <= |s|
    ensures r == [] || !IsSpace(r[|r| - 1])
  {
    if s != [] && IsSpace(s[|s| - 1]) then TrimEnd(s[..|s| - 1]) else s
  }

  /** What `trimEnd` drops is white space, and nothing else is dropped. */
  lemma {:induction false} TrimEndIsPrefix(s: string)
    ensures var r := TrimEnd(s); r == s[..|r|] && AllSpace(s[|r|..])
  {
    if s != [] && IsSpace(s[|s| - 1]) {
      var init := s[..|s| - 1];
      TrimEndIsPrefix(init);
      var r := TrimEnd(s);
      assert init[..|r|] == s[..|r|];
      forall i | |r| <= i < |s| ensures IsSpace(s[i]) {
        if i < |s| - 1 { assert s[i] == init[|r|..][i - |r|]; }
      }
    }
  }

  /** Where the kept part of `Trim(s)` begins in `s`. */
  function TrimOffset(s: string): nat
  {
    |s| - |TrimStart(s)|
  }

  /**
   * `s.trim()`: the result neither starts nor ends with white space, and it is
   * empty exactly when `s` is all white space.
   */
  function Trim(s: string): (r: string)
    ensures |r| <= |s|
    ensures r == [] || (!IsSpace(r[0]) && !IsSpace(r[|r| - 1]))
    ensures r == [] <==> AllSpace(s)
  {
    TrimEndIsPrefix(TrimStart(s));
    TrimEmpty(s);
    TrimEnd(TrimStart(s))
  }

  /**
   * `s.trim()` is the piece of `s` that starts at `TrimOffset(s)`, and
   * everything cut off on either side is white space.
   */
  lemma TrimIsSlice(s: string)
    ensures var r := TrimEnd(TrimStart(s));
      && TrimOffset(s) + |r| <= |s|
      && r == s[TrimOffset(s)..TrimOffset(s) + |r|]
      && AllSpace(s[..TrimOffset(s)]) && AllSpace(s[TrimOffset(s) + |r|..])
  {
    var t := TrimStart(s);
    var r := TrimEnd(t);
    TrimStartIsSuffix(s);
    TrimEndIsPrefix(t);
    var k := |s| - |t|;
    assert s[k + |r|..] == t[|r|..];
    SplitAt(s, k);
  }

  lemma TrimEmpty(s: string)
    ensures TrimEnd(TrimStart(s)) == [] <==> AllSpace(s)
  {
    var t := TrimStart(s);
    var r := TrimEnd(t);
    TrimIsSlice(s);
    var k := TrimOffset(s);
    if r == [] {
      forall i | 0 <= i < |s| ensures IsSpace(s[i]) {
        if i < k {
          assert s[i] == s[..k][i];
        } else {
          assert s[i] == s[k + |r|..][i - k];
        }
      }
    } else {
      assert r[0] == s[k];
    }
  }

  lemma {:induction false} TrimNoSpace(s: string)
    requires NoSpace(s)
    ensures Trim(s) == s
  {
    if s != [] {
      TrimIsSlice(s);
      assert TrimOffset(s) == 0;
    }
  }

  lemma {:induction false} TrimAllSpace(s: string)
    requires AllSpace(s)
    ensures Trim(s) == []
  {
  }

  /** JavaScript clamps the `fromIndex` of `indexOf` into `0..|s|`. */
  function Clamp(from: int, len: nat): (k: nat)
    ensures k <= len
    ensures 0 <= from <= len ==> k == from
  {
    if from < 0 then 0 else if from > len then len else from
  }

  ghost predicate OccursAt(s: string, t: string, k: int) {
    0 <= k && k + |t| <= |s| && s[k..k + |t|] == t
  }

  /**
   * `s.indexOf(t, from)`: an occurrence of `t` at or after the clamped start
   * with none earlier there, or -1 exactly when there is none from that start.
   */
  function IndexOf(s: string, t: string, from: int): (r: int)
    ensures r == -1 || (Clamp(from, |s|) <= r && OccursAt(s, t, r))
    ensures r == -1 ==> forall k :: Clamp(from, |s|) <= k ==> !OccursAt(s, t, k)
    ensures r != -1 ==> forall k :: Clamp(from, |s|) <= k < r ==> !OccursAt(s, t, k)
    decreases |s| - Clamp(from, |s|)
  {
    var k := Clamp(from, |s|);
    if k + |t| > |s| then -1
    else if s[k..k + |t|] == t then k
    else
      assert !OccursAt(s, t, k);
      assert Clamp(k + 1, |s|) == k + 1;
      IndexOf(s, t, k + 1)
  }

  /** `s.includes(t)`. */
  function Contains(s: string, t: string): (b: bool)
    ensures b <==> exists k :: OccursAt(s, t, k)
  {
    IndexOf(s, t, 0) != -1
  }

  /** Lower-cases the ASCII letters A-Z and leaves every other character alone. */
  function ToLower(s: string): (r: string)
    ensures |r| == |s|
    ensures forall i :: 0 <= i < |s| ==>
              r[i] == if 'A' <= s[i] <= 'Z' then (s[i] as int + 32) as char else s[i]
  {
    if s == [] then []
    else
      var c := s[0];
      [if 'A' <= c <= 'Z' then (c as int + 32) as char else c] + ToLower(s[1..])
  }

  /** `s.split(sep)[0]` for a one-character separator: everything before the first `sep`. */
  function BeforeFirst(s: string, sep: char): (r: string)
    ensures |r| <= |s| && r == s[..|r|]
    ensures sep !in r
    ensures |r| < |s| ==> s[|r|] == sep
  {
    if s == [] || s[0] == sep then [] else [s[0]] + BeforeFirst(s[1..], sep)
  }

  /** `s.replace(/\s/g, "")`: the string with every white-space character removed. */
  function Squeeze(s: string): (r: string)
    ensures |r| <= |s|
  {
    if s == [] then [] else (if IsSpace(s[0]) then [] else [s[0]]) + Squeeze(s[1..])
  }

  lemma {:induction false} SqueezeAppend(a: string, b: string)
    ensures Squeeze(a + b) == Squeeze(a) + Squeeze(b)
  {
    if a == [] {
      assert a + b == b;
    } else {
      assert (a + b)[1..] == a[1..] + b;
      SqueezeAppend(a[1..], b);
    }
  }

  lemma {:induction false} SqueezeAllSpace(s: string)
    requires AllSpace(s)
    ensures Squeeze(s) == []
  {
    if s != [] {
      SqueezeAllSpace(s[1..]);
    }
  }

  lemma {:induction false} SqueezeNoSpace(s: string)
    requires NoSpace(s)
    ensures Squeeze(s) == s
  {
    if s != [] {
      SqueezeNoSpace(s[1..]);
      assert s == [s[0]] + s[1..];
    }
  }

  /**
   * The order `Array.prototype.sort` puts strings in: `a` comes first when it
   * is a proper prefix of `b` or has the smaller character where they first differ.
   */
  predicate LexLess(a: string, b: string)
    decreases |a|
  {
    b != [] && (a == [] || a[0] < b[0] || (a[0] == b[0] && LexLess(a[1..], b[1..])))
  }

  lemma {:induction false} LexLessIrreflexive(a: string)
    ensures !LexLess(a, a)
    decreases |a|
  {
    if a != [] {
      LexLessIrreflexive(a[1..]);
    }
  }

  lemma {:induction false} LexLessTransitive(a: string, b: string, c: string)
    requires LexLess(a, b) && LexLess(b, c)
    ensures LexLess(a, c)
    decreases |a|
  {
    if a != [] && a[0] == b[0] && b[0] == c[0] {
      LexLessTransitive(a[1..], b[1..], c[1..]);
    }
  }

  /** Two different strings are ordered one way or the other. */
  lemma {:induction false} LexLessTotal(a: string, b: string)
    requires a != b
    ensures LexLess(a, b) || LexLess(b, a)
    decreases |a|
  {
    if a != [] && b != [] && a[0] == b[0] {
      assert a == [a[0]] + a[1..] && b == [b[0]] + b[1..];
      LexLessTotal(a[1..], b[1..]);
    }
  }
}
