/**
 * The character-offset to word-index mapping of `highlightCurrentWord`
 * (assets/shadowReader.js:542-611): the speech engine reports a character
 * offset into the sentence, and the reader picks the word span to highlight,
 * first by an exact pass over estimated word ranges, then by the word whose
 * found position is nearest.
 */
module Highlight {
  import opened Strings
  import opened Markup

  /** `Math.abs`. */
  function Abs(x: int): (r: nat)
    ensures r == x || r == -x
  {
    if x < 0 then -x else x
  }

  /**
   * Where the exact pass continues after word `i`, which it placed as ending
   * at `wordEnd`: past the white space that follows in the sentence, or one
   * position further when none follows and another word does.
   */
  function NextStart(words: seq<string>, sentence: string, i: nat, wordEnd: nat): (r: nat)
    ensures r >= wordEnd
  {
    var gap := SpaceRunAt(sentence, wordEnd);
    if gap > 0 then wordEnd + gap else if i + 1 < |words| then wordEnd + 1 else wordEnd
  }

  /** `accumulatedLength` when the exact pass reaches word `i`: where it takes word `i` to start. */
  function ScanStart(words: seq<string>, sentence: string, i: nat): nat
    requires i <= |words|
    decreases i, 0
  {
    if i == 0 then 0
    else NextStart(words, sentence, i - 1, ScanEnd(words, sentence, i - 1))
  }

  /** Where the exact pass takes word `i` to end: its start plus the length of its trimmed text. */
  function ScanEnd(words: seq<string>, sentence: string, i: nat): nat
    requires i < |words|
    decreases i, 1
  {
    ScanStart(words, sentence, i) + |Trim(words[i])|
  }

  lemma ScanStartStep(words: seq<string>, sentence: string, i: nat)
    requires i < |words|
    ensures ScanStart(words, sentence, i + 1) == NextStart(words, sentence, i, ScanEnd(words, sentence, i))
  {
  }

  /** The exact pass's range test for word `i`: start and end both inclusive. */
  ghost predicate InWord(words: seq<string>, sentence: string, charIndex: int, i: nat)
    requires i < |words|
  {
    ScanStart(words, sentence, i) <= charIndex <= ScanEnd(words, sentence, i)
  }

  /** The fallback pass searches for word `i` from just after the first occurrence of the previous word (its untrimmed text). */
  function SearchFrom(words: seq<string>, sentence: string, i: nat): int
    requires i < |words|
  {
    if i > 0 then IndexOf(sentence, words[i - 1], 0) + |words[i - 1]| else 0
  }

  /** The position the fallback pass finds for word `i`, or -1. */
  function Position(words: seq<string>, sentence: string, i: nat): int
    requires i < |words|
  {
    IndexOf(sentence, Trim(words[i]), SearchFrom(words, sentence, i))
  }

  /** The positions the fallback pass finds for words `i`, `i + 1`, ... */
  function PositionsFrom(words: seq<string>, sentence: string, i: nat): (ps: seq<int>)
    requires i <= |words|
    ensures |ps| == |words| - i
    decreases |words| - i
  {
    if i == |words| then [] else [Position(words, sentence, i)] + PositionsFrom(words, sentence, i + 1)
  }

  lemma {:induction false} PositionsFromAt(words: seq<string>, sentence: string, i: nat, k: nat)
    requires i <= k < |words|
    ensures PositionsFrom(words, sentence, i)[k - i] == Position(words, sentence, k)
    decreases k - i
  {
    if i < k {
      PositionsFromAt(words, sentence, i + 1, k);
    }
  }

  /** The positions the fallback pass finds for all the words, -1 for a word it does not find. */
  function Positions(words: seq<string>, sentence: string): (ps: seq<int>)
    ensures |ps| == |words|
  {
    PositionsFrom(words, sentence, 0)
  }

  /**
   * What the fallback finds for word `k`: -1 exactly when its trimmed text does
   * not occur at or after the search start, and otherwise the first occurrence
   * there.
   */
  lemma PositionFound(words: seq<string>, sentence: string, k: nat)
    requires k < |words|
    ensures var p, w := Positions(words, sentence)[k], Trim(words[k]);
      var from := Clamp(SearchFrom(words, sentence, k), |sentence|);
      && (p == -1 <==> forall q :: from <= q ==> !OccursAt(sentence, w, q))
      && (p != -1 ==> from <= p && OccursAt(sentence, w, p) && forall q :: from <= q < p ==> !OccursAt(sentence, w, q))
  {
    PositionsFromAt(words, sentence, 0, k);
  }

  lemma ExampleTailRuns()
    ensures Run("y z", NotSpace) == 1 && Run(" z", IsSpace) == 1 && Run("z", NotSpace) == 1
  {
    assert "y z"[1..] == " z";
    assert " z"[1..] == "z";
    assert "z"[1..] == "";
  }

  lemma ExampleHeadRuns()
    ensures Run("xyz y z", NotSpace) == 3 && Run(" y z", IsSpace) == 1
  {
    assert "xyz y z"[1..] == "yz y z";
    assert "yz y z"[1..] == "z y z";
    assert "z y z"[1..] == " y z";
    assert " y z"[1..] == "y z";
  }

  lemma ExampleTail()
    ensures Words("y z") == ["y", "z"] && Gaps("y z") == [" "]
  {
    ExampleTailRuns();
    WordsNoSpace("z");
    assert Segments("y z") == ["y"] + Segments("z") by {
      assert "y z"[..1] == "y" && "y z"[1..][0] == ' ' && "y z"[2..] == "z";
    }
    assert Words("y z") == ["y"] + Words("z") by {
      assert "y z" == "y" + " " + "z";
      WordsStep("y", " ", "z");
    }
    assert Gaps("z") == [];
    assert Gaps("y z") == [" "] + Gaps("z") by {
      assert "y z"[1..2] == " " && "y z"[2..] == "z";
    }
  }

  lemma ExampleHeadSegments()
    ensures Segments("xyz y z") == ["xyz"] + Segments("y z")
    ensures Gaps("xyz y z") == [" "] + Gaps("y z")
  {
    ExampleHeadRuns();
    var s := "xyz y z";
    assert s[..3] == "xyz" && s[3..4] == " " && s[4..] == "y z";
  }

  /** A word at the head of the segments is the first word. */
  lemma WordsCons(s: string, seg: string, rest: string)
    requires seg != [] && NoSpace(seg)
    requires Segments(s) == [seg] + Segments(rest)
    ensures Words(s) == [seg] + Words(rest)
  {
    WrapPartCases(seg);
    NonBlankStep(seg, Segments(rest));
  }

  lemma ExampleHeadWord()
    ensures NoSpace("xyz")
  {
    forall i | 0 <= i < 3 ensures !IsSpace("xyz"[i]) {
      assert "xyz"[i] == 'x' || "xyz"[i] == 'y' || "xyz"[i] == 'z';
    }
  }

  lemma ExampleHeadWords()
    ensures Words("xyz y z") == ["xyz"] + Words("y z")
  {
    ExampleHeadSegments();
    ExampleHeadWord();
    WordsCons("xyz y z", "xyz", "y z");
  }

  lemma ExampleWords()
    ensures Words("xyz y z") == ["xyz", "y", "z"]
  {
    ExampleHeadWords();
    ExampleTail();
  }

  lemma ExampleGaps()
    ensures Gaps("xyz y z") == [" ", " "]
  {
    ExampleTail();
    ExampleHeadSegments();
  }

  lemma ExampleStart()
    ensures WordStart("xyz y z", 2) == 6
  {
    ExampleWords();
    ExampleGaps();
  }

  lemma ExampleSearchFrom()
    ensures SearchFrom(["xyz", "y", "z"], "xyz y z", 2) == 2
  {
    var s := "xyz y z";
    assert s[0..1] != "y" by {
      assert s[0..1][0] == 'x';
    }
    assert s[1..2] == "y";
    assert IndexOf(s, "y", 0) == IndexOf(s, "y", 1);
  }

  lemma ExamplePosition()
    ensures Positions(["xyz", "y", "z"], "xyz y z")[2] == 2
  {
    var s := "xyz y z";
    var ws := ["xyz", "y", "z"];
    ExampleSearchFrom();
    assert Trim(ws[2]) == "z" by {
      TrimNoSpace("z");
    }
    assert OccursAt(s, "z", 2) by {
      assert s[2..3] == "z";
    }
    PositionFound(ws, s, 2);
  }

  /**
   * The search for a word starts after the first occurrence of the previous
   * word anywhere in the sentence, not after where the previous word was
   * found, so a word can be placed inside an earlier one: in `xyz y z` the
   * third word is found at 2, inside `xyz`, although it starts at 6.
   */
  lemma FallbackCanPlaceWordInsideEarlierOne()
    ensures var s := "xyz y z";
      && Words(s) == ["xyz", "y", "z"] && WordStart(s, 2) == 6
      && Positions(Words(s), s)[2] == 2
  {
    ExampleWords();
    ExampleStart();
    ExamplePosition();
  }

  /**
   * Among the first `n` positions, word `k` was found, no found word is nearer
   * to the offset, and every found word before `k` is strictly farther (the
   * pass keeps the first of equals).
   */
  ghost predicate NearestAmong(ps: seq<int>, n: nat, charIndex: int, k: nat)
    requires k < n <= |ps|
  {
    && ps[k] != -1
    && (forall j :: 0 <= j < n && ps[j] != -1 ==> Abs(charIndex - ps[k]) <= Abs(charIndex - ps[j]))
    && (forall j :: 0 <= j < k && ps[j] != -1 ==> Abs(charIndex - ps[j]) > Abs(charIndex - ps[k]))
  }

  /** Word `k` is the nearest found word of all of them. */
  ghost predicate IsNearest(ps: seq<int>, charIndex: int, k: nat)
    requires k < |ps|
  {
    NearestAmong(ps, |ps|, charIndex, k)
  }

  /**
   * After the first `n` words, the fallback pass's answer is -1 exactly when
   * none of them was found, and otherwise the nearest found word among them.
   */
  ghost predicate NearestSoFar(ps: seq<int>, n: nat, charIndex: int, index: int)
    requires n <= |ps|
  {
    && (index == -1 <==> forall j :: 0 <= j < n ==> ps[j] == -1)
    && (index != -1 ==> 0 <= index < n && NearestAmong(ps, n, charIndex, index))
  }

  /** One step of the fallback pass keeps its answer the nearest found word of the words seen so far. */
  lemma NearestStep(ps: seq<int>, charIndex: int, k: nat, before: int, after: int)
    requires k < |ps| && NearestSoFar(ps, k, charIndex, before)
    requires ps[k] == -1 ==> after == before
    requires ps[k] != -1 && (before == -1 || Abs(charIndex - ps[k]) < Abs(charIndex - ps[before])) ==> after == k
    requires ps[k] != -1 && before != -1 && Abs(charIndex - ps[k]) >= Abs(charIndex - ps[before]) ==> after == before
    ensures NearestSoFar(ps, k + 1, charIndex, after)
  {
  }

  /** Words separated by the gaps between them: `ws[0] + gs[0] + ws[1] + ... + ws[|gs|]`. */
  function Layout(ws: seq<string>, gs: seq<string>): string
    requires |ws| == |gs| + 1
    decreases |gs|
  {
    if gs == [] then ws[0] else ws[0] + gs[0] + Layout(ws[1..], gs[1..])
  }

  /** Where word `i` starts in `Layout(ws, gs)`. */
  function Start(ws: seq<string>, gs: seq<string>, i: nat): nat
    decreases i
  {
    if i == 0 || ws == [] || gs == [] then 0 else |ws[0]| + |gs[0]| + Start(ws[1..], gs[1..], i - 1)
  }

  /** Each string of the list is a non-empty white-space run. */
  ghost predicate AreGaps(gs: seq<string>) {
    forall k :: 0 <= k < |gs| ==> gs[k] != [] && AllSpace(gs[k])
  }

  lemma SuffixOfAppend(p: string, t: string, x: nat)
    requires x <= |t|
    ensures (p + t)[|p| + x..] == t[x..]
  {
  }

  lemma LayoutCons(w: string, g: string, ws: seq<string>, gs: seq<string>)
    requires |ws| == |gs| + 1
    ensures Layout([w] + ws, [g] + gs) == w + g + Layout(ws, gs)
  {
    assert ([w] + ws)[1..] == ws && ([g] + gs)[1..] == gs;
  }

  /** The layout starts with its first word. */
  lemma LayoutHead(ws: seq<string>, gs: seq<string>)
    requires |ws| == |gs| + 1
    ensures |ws[0]| <= |Layout(ws, gs)| && Layout(ws, gs)[..|ws[0]|] == ws[0]
  {
    if gs != [] {
      var t := Layout(ws[1..], gs[1..]);
      assert Layout(ws, gs) == ws[0] + (gs[0] + t);
    }
  }

  /** From where word `i` starts, the layout is the layout of the words and gaps from `i` on. */
  lemma {:induction false} LayoutSuffix(ws: seq<string>, gs: seq<string>, i: nat)
    requires |ws| == |gs| + 1 && i < |ws|
    ensures Start(ws, gs, i) <= |Layout(ws, gs)|
    ensures Layout(ws, gs)[Start(ws, gs, i)..] == Layout(ws[i..], gs[i..])
  {
    if i > 0 {
      var t := Layout(ws[1..], gs[1..]);
      LayoutSuffix(ws[1..], gs[1..], i - 1);
      assert ws[1..][i - 1..] == ws[i..];
      assert gs[1..][i - 1..] == gs[i..];
      SuffixOfAppend(ws[0] + gs[0], t, Start(ws[1..], gs[1..], i - 1));
    }
  }

  lemma {:induction false} StartStep(ws: seq<string>, gs: seq<string>, i: nat)
    requires |ws| == |gs| + 1 && i < |gs|
    ensures Start(ws, gs, i + 1) == Start(ws, gs, i) + |ws[i]| + |gs[i]|
  {
    if i > 0 {
      StartStep(ws[1..], gs[1..], i - 1);
      assert ws[1..][i - 1] == ws[i] && gs[1..][i - 1] == gs[i];
    }
  }

  /** Word `i` starts at `Start(ws, gs, i)`, gap `i` follows it, and then the first character of word `i + 1`. */
  lemma LayoutAt(ws: seq<string>, gs: seq<string>, i: nat)
    requires |ws| == |gs| + 1 && i < |gs| && ws[i + 1] != []
    ensures var p, l := Start(ws, gs, i), Layout(ws, gs);
      && p + |ws[i]| + |gs[i]| < |l|
      && l[p..p + |ws[i]|] == ws[i]
      && l[p + |ws[i]|..p + |ws[i]| + |gs[i]|] == gs[i]
      && l[p + |ws[i]| + |gs[i]|] == ws[i + 1][0]
  {
    var p, l := Start(ws, gs, i), Layout(ws, gs);
    LayoutSuffix(ws, gs, i);
    var t := Layout(ws[i + 1..], gs[i + 1..]);
    assert ws[i..][1..] == ws[i + 1..] && gs[i..][1..] == gs[i + 1..];
    assert l[p..] == ws[i] + gs[i] + t;
    LayoutHead(ws[i + 1..], gs[i + 1..]);
    assert t[0] == ws[i + 1][0];
  }

  /** The last word ends the layout. */
  lemma LayoutLast(ws: seq<string>, gs: seq<string>)
    requires |ws| == |gs| + 1
    ensures var p, l := Start(ws, gs, |gs|), Layout(ws, gs);
      p + |ws[|gs|]| == |l| && l[p..] == ws[|gs|]
  {
    LayoutSuffix(ws, gs, |gs|);
    assert gs[|gs|..] == [];
    assert ws[|gs|..] == [ws[|gs|]];
  }

  /** A white-space run followed by a non-space character is exactly what `match(/^\s+/)` takes. */
  lemma {:induction false} SpaceRunAtGap(s: string, k: nat, g: string)
    requires k + |g| < |s| && s[k..k + |g|] == g && AllSpace(g) && !IsSpace(s[k + |g|])
    ensures SpaceRunAt(s, k) == |g|
    decreases |g|
  {
    if g != [] {
      assert s[k] == g[0];
      assert s[k + 1..k + 1 + |g[1..]|] == g[1..];
      SpaceRunAtGap(s, k + 1, g[1..]);
    }
  }

  /**
   * On words laid out with white-space gaps, the exact pass's estimate of where
   * each word starts is exact.
   */
  lemma {:induction false} ScanMatchesLayout(ws: seq<string>, gs: seq<string>, i: nat)
    requires |ws| == |gs| + 1 && AreWords(ws) && AreGaps(gs) && i < |ws|
    ensures ScanStart(ws, Layout(ws, gs), i) == Start(ws, gs, i)
  {
    if i > 0 {
      var j := i - 1;
      ScanMatchesLayout(ws, gs, j);
      assert NoSpace(ws[j]);
      TrimNoSpace(ws[j]);
      GapAfterWord(ws, gs, j);
      ScanPastGap(ws, Layout(ws, gs), j, Start(ws, gs, j), |gs[j]|);
      StartStep(ws, gs, j);
    }
  }

  /** The exact pass moves from word `j`, placed at `start`, past the white-space run that follows it. */
  lemma ScanPastGap(words: seq<string>, sentence: string, j: nat, start: nat, gap: nat)
    requires j + 1 < |words| && ScanStart(words, sentence, j) == start && Trim(words[j]) == words[j]
    requires SpaceRunAt(sentence, start + |words[j]|) == gap > 0
    ensures ScanStart(words, sentence, j + 1) == start + |words[j]| + gap
  {
    ScanStartStep(words, sentence, j);
  }

  /** On a layout, the white-space run after word `j` is exactly gap `j`. */
  lemma GapAfterWord(ws: seq<string>, gs: seq<string>, j: nat)
    requires |ws| == |gs| + 1 && AreWords(ws) && AreGaps(gs) && j < |gs|
    ensures SpaceRunAt(Layout(ws, gs), Start(ws, gs, j) + |ws[j]|) == |gs[j]| > 0
  {
    var l, w, g := Layout(ws, gs), ws[j + 1], gs[j];
    var k := Start(ws, gs, j) + |ws[j]|;
    assert g != [] && AllSpace(g);
    assert !IsSpace(w[0]) by {
      assert w != [] && NoSpace(w);
    }
    assert k + |g| < |l| && l[k..k + |g|] == g && l[k + |g|] == w[0] by {
      LayoutAt(ws, gs, j);
    }
    SpaceRunAtGap(l, k, g);
  }

  /** Every word of a layout with non-empty gaps ends before any later word starts. */
  lemma {:induction false} StartsIncrease(ws: seq<string>, gs: seq<string>, j: nat, i: nat)
    requires |ws| == |gs| + 1 && AreGaps(gs) && j < i < |ws|
    ensures Start(ws, gs, j) + |ws[j]| < Start(ws, gs, i)
    decreases i
  {
    StartStep(ws, gs, i - 1);
    if j < i - 1 {
      StartsIncrease(ws, gs, j, i - 1);
    }
  }

  lemma GapsCons(g: string, gs: seq<string>)
    requires g != [] && AllSpace(g) && AreGaps(gs)
    ensures AreGaps([g] + gs)
  {
    assert forall k :: 1 <= k < |[g] + gs| ==> ([g] + gs)[k] == gs[k - 1];
  }

  /** `s` is the words `ws`, each free of white space, separated by the white-space runs `gs`. */
  ghost predicate IsLayout(ws: seq<string>, gs: seq<string>, s: string) {
    |ws| == |gs| + 1 && AreWords(ws) && AreGaps(gs) && Layout(ws, gs) == s
  }

  /**
   * A sentence that neither starts nor ends with white space is its words
   * separated by its white-space runs, one run fewer than words.
   */
  lemma {:induction false} TrimmedLayout(s: string)
    requires s != [] && !IsSpace(s[0]) && !IsSpace(s[|s| - 1])
    ensures IsLayout(Words(s), Gaps(s), s)
    decreases |s|
  {
    if Run(s, NotSpace) == |s| {
      WordsNoSpace(s);
      assert Gaps(s) == [];
    } else {
      var seg, sep, rest := Decompose(s);
      assert seg != [];
      assert rest != [];
      assert s[|s| - 1] == rest[|rest| - 1];
      TrimmedLayout(rest);
      WordsStep(seg, sep, rest);
      WordsStepAreWords(seg, Words(rest));
      GapsCons(sep, Gaps(rest));
      LayoutCons(seg, sep, Words(rest), Gaps(rest));
    }
  }

  /** On a layout, the exact pass's range for word `j` ends where the word does. */
  lemma ScanEndMatchesLayout(ws: seq<string>, gs: seq<string>, j: nat)
    requires |ws| == |gs| + 1 && AreWords(ws) && AreGaps(gs) && j < |ws|
    ensures ScanEnd(ws, Layout(ws, gs), j) == Start(ws, gs, j) + |ws[j]|
  {
    ScanMatchesLayout(ws, gs, j);
    TrimNoSpace(ws[j]);
  }

  /** On a layout, word `i` sits at its start. */
  lemma WordAtStart(ws: seq<string>, gs: seq<string>, i: nat)
    requires |ws| == |gs| + 1 && AreWords(ws) && i < |ws|
    ensures var p, l := Start(ws, gs, i), Layout(ws, gs);
      p + |ws[i]| <= |l| && l[p..p + |ws[i]|] == ws[i]
  {
    if i < |gs| {
      LayoutAt(ws, gs, i);
    } else {
      LayoutLast(ws, gs);
    }
  }

  /**
   * On a layout, for any offset from the first character of word `i` to just
   * past its last, word `i` is the first whose estimated range holds the offset.
   */
  lemma WordInLayout(ws: seq<string>, gs: seq<string>, i: nat, c: int)
    requires |ws| == |gs| + 1 && AreWords(ws) && AreGaps(gs) && i < |ws|
    requires Start(ws, gs, i) <= c <= Start(ws, gs, i) + |ws[i]|
    ensures InWord(ws, Layout(ws, gs), c, i)
    ensures forall j :: 0 <= j < i ==> !InWord(ws, Layout(ws, gs), c, j)
  {
    var l := Layout(ws, gs);
    ScanMatchesLayout(ws, gs, i);
    ScanEndMatchesLayout(ws, gs, i);
    forall j | 0 <= j < i ensures !InWord(ws, l, c, j) {
      ScanEndMatchesLayout(ws, gs, j);
      StartsIncrease(ws, gs, j, i);
    }
  }

  /**
   * Word `i` of `ws` sits at `p` in `s`, and it is the first word whose
   * estimated range holds the offset `c`.
   */
  ghost predicate FoundAt(ws: seq<string>, s: string, p: nat, c: int, i: nat)
    requires i < |ws|
  {
    && p + |ws[i]| <= |s| && s[p..p + |ws[i]|] == ws[i]
    && InWord(ws, s, c, i)
    && forall j :: 0 <= j < i ==> !InWord(ws, s, c, j)
  }

  /** On any text laid out from words and gaps, the exact pass finds word `i` at any offset inside it. */
  lemma FindInLayout(ws: seq<string>, gs: seq<string>, s: string, i: nat, c: int)
    requires IsLayout(ws, gs, s) && i < |ws|
    requires Start(ws, gs, i) <= c <= Start(ws, gs, i) + |ws[i]|
    ensures FoundAt(ws, s, Start(ws, gs, i), c, i)
  {
    WordAtStart(ws, gs, i);
    WordInLayout(ws, gs, i, c);
  }

  /** Where word `i` of a sentence starts in it. */
  function WordStart(s: string, i: nat): nat
  {
    Start(Words(s), Gaps(s), i)
  }

  /**
   * For a sentence as the reader splits it (non-empty, trimmed), and its words
   * (the words of its spans, by `WrapRoundTrip`): word `i` sits at
   * `WordStart(s, i)`, and for any offset from its first character to just
   * past its last, word `i` is the first whose estimated range holds the
   * offset, so the exact pass highlights it.
   */
  lemma ExactPassFindsSpokenWord(s: string, i: nat, c: int)
    requires s != [] && !IsSpace(s[0]) && !IsSpace(s[|s| - 1])
    requires i < |Words(s)|
    requires WordStart(s, i) <= c <= WordStart(s, i) + |Words(s)[i]|
    ensures FoundAt(Words(s), s, WordStart(s, i), c, i)
  {
    TrimmedLayout(s);
    FindInLayout(Words(s), Gaps(s), s, i, c);
  }

  /**
   * The exact pass: the first word whose estimated range holds the offset, or
   * -1 when none does.
   */
  method ExactPass(words: seq<string>, charIndex: int, sentence: string) returns (index: int)
    ensures -1 <= index < |words|
    ensures index == -1 <==> forall i :: 0 <= i < |words| ==> !InWord(words, sentence, charIndex, i)
    ensures index != -1 ==>
              InWord(words, sentence, charIndex, index) &&
              forall j :: 0 <= j < index ==> !InWord(words, sentence, charIndex, j)
  {
    var accumulatedLength: nat := 0;
    var i := 0;
    while i < |words|
      invariant 0 <= i <= |words|
      invariant accumulatedLength == ScanStart(words, sentence, i)
      invariant forall j :: 0 <= j < i ==> !InWord(words, sentence, charIndex, j)
    {
      var wordText := Trim(words[i]);
      var wordStart := accumulatedLength;
      var wordEnd := accumulatedLength + |wordText|;
      assert wordEnd == ScanEnd(words, sentence, i);
      if wordStart <= charIndex <= wordEnd {
        assert InWord(words, sentence, charIndex, i);
        return i;
      }
      ScanStartStep(words, sentence, i);
      assert !InWord(words, sentence, charIndex, i);
      accumulatedLength := wordEnd;
      var gap := SpaceRunAt(sentence, accumulatedLength);
      if gap > 0 {
        accumulatedLength := accumulatedLength + gap;
      } else if i < |words| - 1 {
        accumulatedLength := accumulatedLength + 1;
      }
      assert accumulatedLength == NextStart(words, sentence, i, wordEnd);
      i := i + 1;
    }
    return -1;
  }

  /**
   * Where the fallback pass finds word `k`: an occurrence of its trimmed text
   * at or after the clamped search start (just after the first occurrence of
   * the previous word), or -1; it is the position `Positions` records for
   * word `k`, which `PositionFound` shows to be the first such occurrence.
   */
  method FindWord(words: seq<string>, sentence: string, k: nat) returns (wordPosition: int)
    requires k < |words|
    ensures wordPosition == -1 ||
              (Clamp(SearchFrom(words, sentence, k), |sentence|) <= wordPosition &&
               OccursAt(sentence, Trim(words[k]), wordPosition))
    ensures wordPosition == Positions(words, sentence)[k]
  {
    var wordText := Trim(words[k]);
    var from := if k > 0 then IndexOf(sentence, words[k - 1], 0) + |words[k - 1]| else 0;
    wordPosition := IndexOf(sentence, wordText, from);
    PositionsFromAt(words, sentence, 0, k);
  }

  /**
   * The fallback pass: the found word nearest to the offset (the first of
   * equally near ones), or -1 when no word is found in the sentence.
   */
  method NearestPass(words: seq<string>, charIndex: int, sentence: string) returns (index: int)
    ensures -1 <= index < |words|
    ensures index == -1 <==> forall i :: 0 <= i < |words| ==> Positions(words, sentence)[i] == -1
    ensures index != -1 ==> IsNearest(Positions(words, sentence), charIndex, index)
  {
    ghost var ps := Positions(words, sentence);
    index := -1;
    // `found` is false while `minDistance` is still `Infinity`.
    var found := false;
    var minDistance: nat := 0;
    var k := 0;
    while k < |words|
      invariant 0 <= k <= |words|
      invariant found <==> index != -1
      invariant NearestSoFar(ps, k, charIndex, index)
      invariant index != -1 ==> 0 <= index < k && minDistance == Abs(charIndex - ps[index])
    {
      var wordPosition := FindWord(words, sentence, k);
      ghost var index0 := index;
      if wordPosition != -1 {
        var distance := Abs(charIndex - wordPosition);
        if !found || distance < minDistance {
          minDistance := distance;
          index := k;
          found := true;
        }
      }
      NearestStep(ps, charIndex, k, index0, index);
      k := k + 1;
    }
  }

  /**
   * The index of the word span to highlight, or -1 for none: the exact pass's
   * answer when it has one, otherwise the fallback's; -1 when there are no words.
   */
  method WordIndexAt(words: seq<string>, charIndex: int, sentence: string) returns (index: int)
    ensures -1 <= index < |words|
    ensures (exists i :: 0 <= i < |words| && InWord(words, sentence, charIndex, i)) ==>
              0 <= index && InWord(words, sentence, charIndex, index) &&
              forall j :: 0 <= j < index ==> !InWord(words, sentence, charIndex, j)
    ensures (forall i :: 0 <= i < |words| ==> !InWord(words, sentence, charIndex, i)) ==>
              (index == -1 <==> forall i :: 0 <= i < |words| ==> Positions(words, sentence)[i] == -1)
    ensures (forall i :: 0 <= i < |words| ==> !InWord(words, sentence, charIndex, i)) && index != -1 ==>
              IsNearest(Positions(words, sentence), charIndex, index)
  {
    if |words| == 0 {
      return -1;
    }
    index := ExactPass(words, charIndex, sentence);
    if index == -1 {
      index := NearestPass(words, charIndex, sentence);
    }
  }
}
