/**
 * `splitIntoSentences` (assets/shadowReader.js:380-383): the global matches of
 * the pattern "one or more non-terminators, then any terminators", with the
 * terminators `. ! ? ; ؟`; the whole text when nothing matches; every piece
 * trimmed; empty pieces dropped.
 */
module Sentences {
  import opened Strings

  /** The sentence terminators of the pattern's character class: `.`, `!`, Arabic `؟` (U+061F), `?` and `;`. */
  predicate IsTerminator(c: char) {
    c == '.' || c == '!' || c == '\U{061F}' || c == '?' || c == ';'
  }

  predicate NotTerminator(c: char) { !IsTerminator(c) }

  /** Once a terminator appears, every later character is a terminator too. */
  ghost predicate TerminatorsOnlyAtEnd(s: string) {
    forall i, j :: 0 <= i <= j < |s| && IsTerminator(s[i]) ==> IsTerminator(s[j])
  }

  /** Number of terminators before the first non-terminator: the positions where no match can start. */
  function LeadingTerminators(s: string): nat
  {
    Run(s, IsTerminator)
  }

  /**
   * Where a match that starts at position 0 ends: after every non-terminator
   * there and every terminator after them.  What follows, if anything, is a
   * non-terminator.
   */
  function MatchEnd(s: string): (m: nat)
    requires s != [] && !IsTerminator(s[0])
    ensures 0 < m <= |s|
    ensures m < |s| ==> !IsTerminator(s[m])
  {
    var n := Run(s, NotTerminator);
    var rest := s[n..];
    var m := n + Run(rest, IsTerminator);
    assert m < |s| ==> rest[m - n] == s[m];
    m
  }

  /**
   * The successive matches of the global pattern, left to right.  A match can
   * only start at a non-terminator; the next search resumes where the match ended.
   */
  function Matches(s: string): seq<string>
    decreases |s|
  {
    if s == [] then []
    else if IsTerminator(s[0]) then Matches(s[1..])
    else
      var m := MatchEnd(s);
      [s[..m]] + Matches(s[m..])
  }

  /** A single match has its terminators only at its end. */
  lemma FirstMatchShape(s: string)
    requires s != [] && !IsTerminator(s[0])
    ensures TerminatorsOnlyAtEnd(s[..MatchEnd(s)])
  {
    var n := Run(s, NotTerminator);
    var m := MatchEnd(s);
    var first := s[..m];
    assert m == n + Run(s[n..], IsTerminator);
    assert forall i :: 0 <= i < n ==> !IsTerminator(first[i]);
    assert forall i :: n <= i < m ==> IsTerminator(first[i]) by {
      forall i | n <= i < m ensures IsTerminator(first[i]) {
        assert first[i] == s[n..][i - n];
      }
    }
  }

  /** Every match is non-empty, starts with a non-terminator, and has its terminators only at its end. */
  lemma {:induction false} MatchesShape(s: string)
    ensures forall k :: 0 <= k < |Matches(s)| ==>
              var m := Matches(s)[k];
              m != [] && !IsTerminator(m[0]) && TerminatorsOnlyAtEnd(m)
    decreases |s|
  {
    if s == [] {
    } else if IsTerminator(s[0]) {
      MatchesShape(s[1..]);
    } else {
      var m := MatchEnd(s);
      FirstMatchShape(s);
      MatchesShape(s[m..]);
      assert Matches(s) == [s[..m]] + Matches(s[m..]);
    }
  }

  /** The matches, put back together, are the text minus its leading terminators: nothing else is skipped. */
  lemma {:induction false} MatchesCoverText(s: string)
    ensures Concat(Matches(s)) == s[LeadingTerminators(s)..]
    decreases |s|
  {
    if s == [] {
    } else if IsTerminator(s[0]) {
      MatchesCoverText(s[1..]);
      CoverAfterTerminator(s);
    } else {
      MatchesCoverText(s[MatchEnd(s)..]);
      CoverAfterMatch(s);
    }
  }

  lemma CoverAfterTerminator(s: string)
    requires s != [] && IsTerminator(s[0])
    requires Concat(Matches(s[1..])) == s[1..][LeadingTerminators(s[1..])..]
    ensures Concat(Matches(s)) == s[LeadingTerminators(s)..]
  {
    assert LeadingTerminators(s) == 1 + LeadingTerminators(s[1..]);
    assert s[1..][LeadingTerminators(s[1..])..] == s[LeadingTerminators(s)..];
  }

  lemma CoverAfterMatch(s: string)
    requires s != [] && !IsTerminator(s[0])
    requires Concat(Matches(s[MatchEnd(s)..])) == s[MatchEnd(s)..][LeadingTerminators(s[MatchEnd(s)..])..]
    ensures Concat(Matches(s)) == s[LeadingTerminators(s)..]
  {
    var m := MatchEnd(s);
    var ms := Matches(s);
    assert Concat(ms) == s[..m] + Concat(Matches(s[m..])) by {
      assert ms[0] == s[..m] && ms[1..] == Matches(s[m..]);
    }
    assert LeadingTerminators(s[m..]) == 0 by {
      if m < |s| {
        assert s[m..][0] == s[m];
      }
    }
    assert LeadingTerminators(s) == 0;
    SplitAt(s, m);
  }

  /** Trims every piece and keeps the non-empty ones (`map(s => s.trim()).filter(s => s.length > 0)`). */
  function TrimAndDropEmpty(pieces: seq<string>): (r: seq<string>)
    ensures |r| <= |pieces|
    ensures forall k :: 0 <= k < |r| ==> r[k] != [] && !IsSpace(r[k][0]) && !IsSpace(r[k][|r[k]| - 1])
  {
    if pieces == [] then []
    else
      var t := Trim(pieces[0]);
      (if t != [] then [t] else []) + TrimAndDropEmpty(pieces[1..])
  }

  /** `text.match(...) || [text]`: the matches, or the text itself when there are none. */
  function Pieces(text: string): seq<string>
  {
    var ms := Matches(text);
    if ms == [] then [text] else ms
  }

  function SplitIntoSentences(text: string): (r: seq<string>)
    ensures forall k :: 0 <= k < |r| ==> r[k] != [] && !IsSpace(r[k][0]) && !IsSpace(r[k][|r[k]| - 1])
  {
    TrimAndDropEmpty(Pieces(text))
  }

  /**
   * Every sentence is non-empty, neither starts nor ends with white space, and
   * once a terminator appears in it nothing but terminators follows.
   */
  lemma {:induction false} SentencesAreTrimmedAndEndWithTerminators(text: string)
    ensures forall k :: 0 <= k < |SplitIntoSentences(text)| ==>
              var s := SplitIntoSentences(text)[k];
              s != [] && !IsSpace(s[0]) && !IsSpace(s[|s| - 1]) && TerminatorsOnlyAtEnd(s)
  {
    var ps := Pieces(text);
    if Matches(text) == [] {
      NoMatchMeansAllTerminators(text);
    } else {
      MatchesShape(text);
    }
    assert forall k :: 0 <= k < |ps| ==> TerminatorsOnlyAtEnd(ps[k]);
    TrimKeepsTerminatorsAtEnd(ps);
  }

  /** With no match at all, the text holds nothing but terminators. */
  lemma {:induction false} NoMatchMeansAllTerminators(s: string)
    requires Matches(s) == []
    ensures forall i :: 0 <= i < |s| ==> IsTerminator(s[i])
    decreases |s|
  {
    if s != [] {
      assert IsTerminator(s[0]);
      NoMatchMeansAllTerminators(s[1..]);
      assert forall i :: 1 <= i < |s| ==> s[i] == s[1..][i - 1];
    }
  }

  /** A slice of a string whose terminators are all at its end has the same shape. */
  lemma {:induction false} SliceKeepsTerminatorsAtEnd(s: string, a: nat, b: nat)
    requires a <= b <= |s| && TerminatorsOnlyAtEnd(s)
    ensures TerminatorsOnlyAtEnd(s[a..b])
  {
    var t := s[a..b];
    forall i, j | 0 <= i <= j < |t| && IsTerminator(t[i]) ensures IsTerminator(t[j]) {
      assert t[i] == s[a + i] && t[j] == s[a + j];
    }
  }

  lemma {:induction false} TrimKeepsTerminatorsAtEnd(ps: seq<string>)
    requires forall k :: 0 <= k < |ps| ==> TerminatorsOnlyAtEnd(ps[k])
    ensures forall k :: 0 <= k < |TrimAndDropEmpty(ps)| ==> TerminatorsOnlyAtEnd(TrimAndDropEmpty(ps)[k])
  {
    if ps != [] {
      var p := ps[0];
      var t := Trim(p);
      TrimIsSlice(p);
      SliceKeepsTerminatorsAtEnd(p, TrimOffset(p), TrimOffset(p) + |t|);
      TrimKeepsTerminatorsAtEnd(ps[1..]);
    }
  }

  lemma {:induction false} SqueezeTrimStart(s: string)
    ensures Squeeze(TrimStart(s)) == Squeeze(s)
  {
    if s != [] && IsSpace(s[0]) {
      SqueezeTrimStart(s[1..]);
    }
  }

  lemma {:induction false} SqueezeTrimEnd(s: string)
    ensures Squeeze(TrimEnd(s)) == Squeeze(s)
  {
    if s != [] && IsSpace(s[|s| - 1]) {
      var init := s[..|s| - 1];
      SqueezeTrimEnd(init);
      assert s == init + [s[|s| - 1]];
      SqueezeAppend(init, [s[|s| - 1]]);
      assert Squeeze([s[|s| - 1]]) == [] + Squeeze([]);
    }
  }

  lemma {:induction false} SqueezeTrim(s: string)
    ensures Squeeze(Trim(s)) == Squeeze(s)
  {
    SqueezeTrimStart(s);
    SqueezeTrimEnd(TrimStart(s));
  }

  lemma {:induction false} TrimAndDropEmptyKeepsText(ps: seq<string>)
    ensures Squeeze(Concat(TrimAndDropEmpty(ps))) == Squeeze(Concat(ps))
  {
    if ps != [] {
      var t := Trim(ps[0]);
      var head: seq<string> := if t != [] then [t] else [];
      var rest := TrimAndDropEmpty(ps[1..]);
      assert TrimAndDropEmpty(ps) == head + rest;
      ConcatAppend(head, rest);
      assert Concat(head) == t by {
        if t != [] {
          assert Concat([t]) == t + Concat([]);
        }
      }
      SqueezeAppend(t, Concat(rest));
      SqueezeTrim(ps[0]);
      TrimAndDropEmptyKeepsText(ps[1..]);
      SqueezeAppend(ps[0], Concat(ps[1..]));
    }
  }

  /**
   * Splitting loses nothing but white space and the terminators in front of the
   * first sentence: the non-space characters of the sentences, in order, are
   * those of the text after its leading terminators (or of the whole text when
   * it holds no match).
   */
  lemma {:induction false} SentencesKeepText(text: string)
    ensures Matches(text) != [] ==>
              Squeeze(Concat(SplitIntoSentences(text))) == Squeeze(text[LeadingTerminators(text)..])
    ensures Matches(text) == [] ==>
              Squeeze(Concat(SplitIntoSentences(text))) == Squeeze(text)
  {
    var ps := Pieces(text);
    assert SplitIntoSentences(text) == TrimAndDropEmpty(ps);
    TrimAndDropEmptyKeepsText(ps);
    if Matches(text) == [] {
      assert ps == [text];
      assert Concat(ps) == text by {
        assert Concat([text]) == text + Concat([]);
      }
    } else {
      assert ps == Matches(text);
      MatchesCoverText(text);
    }
  }

  lemma {:induction false} SqueezeNonEmpty(s: string)
    requires s != [] && !IsSpace(s[|s| - 1])
    ensures Squeeze(s) != []
  {
    if |s| == 1 {
      assert Squeeze(s) == [s[0]] + Squeeze(s[1..]);
    } else {
      SqueezeAppend([s[0]], s[1..]);
      assert [s[0]] + s[1..] == s;
      SqueezeNonEmpty(s[1..]);
    }
  }

  /** When there is a match, the leading terminators do not use up the text. */
  lemma {:induction false} LeadBeforeEnd(s: string)
    requires Matches(s) != []
    ensures LeadingTerminators(s) < |s|
    decreases |s|
  {
    if IsTerminator(s[0]) {
      LeadBeforeEnd(s[1..]);
      assert LeadingTerminators(s) == 1 + LeadingTerminators(s[1..]);
    }
  }

  /**
   * A trimmed, non-empty text (what `processText` passes in) always yields at
   * least one sentence.
   */
  lemma {:induction false} TrimmedTextHasSentence(text: string)
    requires text != [] && !IsSpace(text[0]) && !IsSpace(text[|text| - 1])
    ensures |SplitIntoSentences(text)| >= 1
  {
    SentencesKeepText(text);
    if Matches(text) == [] {
      SqueezeNonEmpty(text);
    } else {
      LeadBeforeEnd(text);
      var tail := text[LeadingTerminators(text)..];
      assert tail[|tail| - 1] == text[|text| - 1];
      SqueezeNonEmpty(tail);
    }
    assert Squeeze(Concat(SplitIntoSentences(text))) != [];
  }
}
