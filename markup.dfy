/**
 * `wrapWordsInSpans` (assets/shadowReader.js:450-461), which puts every
 * non-white-space run of a sentence in a `<span class="word">` and passes the
 * white space through, and the word count of `updateStats`
 * (assets/shadowReader.js:751-755).
 */
module Markup {
  import opened Strings

  const Open: string := "<span class=\"word\">"
  const Close: string := "</span>"

  /**
   * `s.split(/(\s+)/)`: the pieces between maximal white-space runs, with the
   * runs themselves kept (the pattern captures them) at the odd positions.
   */
  function SplitKeepingSpaces(s: string): seq<string>
    decreases |s|
  {
    var n := Run(s, NotSpace);
    if n == |s| then [s]
    else
      assert s[n..][0] == s[n];
      var m := n + Run(s[n..], IsSpace);
      [s[..n], s[n..m]] + SplitKeepingSpaces(s[m..])
  }

  /** `s.split(/\s+/)`: the same pieces without the white-space runs. */
  function Segments(s: string): seq<string>
    decreases |s|
  {
    var n := Run(s, NotSpace);
    if n == |s| then [s]
    else
      assert s[n..][0] == s[n];
      [s[..n]] + Segments(s[n + Run(s[n..], IsSpace)..])
  }

  /** The white-space runs that separate the pieces of `Segments`, in order. */
  function Gaps(s: string): seq<string>
    decreases |s|
  {
    var n := Run(s, NotSpace);
    if n == |s| then []
    else
      assert s[n..][0] == s[n];
      var m := n + Run(s[n..], IsSpace);
      [s[n..m]] + Gaps(s[m..])
  }

  /**
   * How both splits take a string apart when it holds white space: a piece
   * without white space, a non-empty white-space run, and a rest that does not
   * start with white space.
   */
  lemma Decompose(s: string) returns (seg: string, sep: string, rest: string)
    requires Run(s, NotSpace) < |s|
    ensures s == seg + sep + rest && s == seg + (sep + rest)
    ensures NoSpace(seg) && sep != [] && AllSpace(sep) && |rest| < |s|
    ensures rest == [] || !IsSpace(rest[0])
    ensures SplitKeepingSpaces(s) == [seg, sep] + SplitKeepingSpaces(rest)
    ensures Segments(s) == [seg] + Segments(rest)
    ensures Gaps(s) == [sep] + Gaps(rest)
    ensures |seg| == Run(s, NotSpace)
  {
    var n := Run(s, NotSpace);
    assert s[n..][0] == s[n];
    var m := n + Run(s[n..], IsSpace);
    seg, sep, rest := s[..n], s[n..m], s[m..];
    SliceThree(s, n, m);
    SpaceRun(s, n);
  }

  lemma SliceThree(s: string, n: nat, m: nat)
    requires n <= m <= |s|
    ensures s == s[..n] + s[n..m] + s[m..] && s == s[..n] + (s[n..m] + s[m..])
  {
    assert s == s[..n] + s[n..m] + s[m..];
  }

  /** The white-space run at `n` is all white space and is followed by a non-space character or the end. */
  lemma SpaceRun(s: string, n: nat)
    requires n < |s| && IsSpace(s[n])
    ensures var m := n + Run(s[n..], IsSpace);
      && n < m <= |s| && AllSpace(s[n..m]) && (m == |s| || !IsSpace(s[m]))
  {
    var t := s[n..];
    assert t[0] == s[n];
    var m := n + Run(t, IsSpace);
    forall i | 0 <= i < m - n ensures IsSpace(s[n..m][i]) {
      assert s[n..m][i] == t[i];
    }
    if m < |s| {
      assert t[m - n] == s[m];
    }
  }

  /** `parts.filter(p => p.trim())`. */
  function NonBlank(parts: seq<string>): seq<string>
  {
    if parts == [] then []
    else (if Trim(parts[0]) != [] then [parts[0]] else []) + NonBlank(parts[1..])
  }

  /** The words `updateStats` counts in one sentence. */
  function Words(s: string): seq<string>
  {
    NonBlank(Segments(s))
  }

  /** A part with something besides white space is wrapped; a white-space run or an empty part is kept as it is. */
  function WrapPart(p: string): string
  {
    if Trim(p) != [] then Open + p + Close else p
  }

  function WrapAll(parts: seq<string>): string
  {
    if parts == [] then [] else WrapPart(parts[0]) + WrapAll(parts[1..])
  }

  function WrapWordsInSpans(sentence: string): string
  {
    WrapAll(SplitKeepingSpaces(sentence))
  }

  /** The plain text of some markup, and the texts of its word spans in order. */
  datatype Unwrapped = Unwrapped(text: string, words: seq<string>)

  /**
   * Reads markup back: each `<span class="word">` opens a word that runs up to
   * the next white space or the end, and the `</span>` at the end of that run
   * is dropped; any other character is plain text.
   */
  function Unwrap(h: string): Unwrapped
    decreases |h|
  {
    if h == [] then Unwrapped([], [])
    else if Open <= h then
      var body := h[|Open|..];
      var n := Run(body, NotSpace);
      var w := if |Close| <= n && body[n - |Close|..n] == Close then body[..n - |Close|] else body[..n];
      var rest := Unwrap(body[n..]);
      Unwrapped(w + rest.text, [w] + rest.words)
    else
      var rest := Unwrap(h[1..]);
      Unwrapped([h[0]] + rest.text, rest.words)
  }

  /**
   * The pieces at even positions hold no white space, those at odd positions
   * are non-empty white-space runs, and only the first and the last piece may
   * be empty.
   */
  ghost predicate Alternates(parts: seq<string>) {
    && |parts| % 2 == 1
    && (forall k :: 0 <= k < |parts| && k % 2 == 0 ==> NoSpace(parts[k]))
    && (forall k :: 0 <= k < |parts| && k % 2 == 1 ==> parts[k] != [] && AllSpace(parts[k]))
    && (forall k :: 0 < k < |parts| - 1 && k % 2 == 0 ==> parts[k] != [])
  }

  /** `split(/(\s+)/)` alternates non-space pieces and white-space runs, and loses nothing. */
  lemma {:induction false} SplitKeepingSpacesShape(s: string)
    ensures Alternates(SplitKeepingSpaces(s))
    ensures Concat(SplitKeepingSpaces(s)) == s
    decreases |s|
  {
    if Run(s, NotSpace) < |s| {
      var seg, sep, rest := Decompose(s);
      SplitKeepingSpacesShape(rest);
      SplitFirst(rest);
      AlternatesStep(seg, sep, SplitKeepingSpaces(rest));
      ConcatTwo(seg, sep, SplitKeepingSpaces(rest));
    } else {
      SplitNoSpace(s);
      assert Concat([s]) == s + Concat([]);
      assert [s][0] == s;
    }
  }

  /** The first piece of a string that does not start with white space is not empty. */
  lemma SplitFirst(s: string)
    ensures s != [] && !IsSpace(s[0]) ==> SplitKeepingSpaces(s)[0] != []
  {
    if s != [] && !IsSpace(s[0]) {
      var n := Run(s, NotSpace);
      assert n >= 1;
      assert SplitKeepingSpaces(s)[0] == s[..n];
    }
  }

  lemma AlternatesStep(seg: string, sep: string, tail: seq<string>)
    requires NoSpace(seg) && sep != [] && AllSpace(sep)
    requires Alternates(tail) && (|tail| > 1 ==> tail[0] != [])
    ensures Alternates([seg, sep] + tail)
  {
    var parts := [seg, sep] + tail;
    forall k | 2 <= k < |parts| ensures parts[k] == tail[k - 2] { }
  }

  lemma ConcatTwo(a: string, b: string, tail: seq<string>)
    ensures Concat([a, b] + tail) == a + (b + Concat(tail))
  {
    var parts := [a, b] + tail;
    assert parts[1..] == [b] + tail && parts[1..][1..] == tail;
  }

  /** Markup that starts with white space starts with plain text. */
  lemma {:induction false} UnwrapSpaces(sp: string, x: string)
    requires AllSpace(sp)
    ensures Unwrap(sp + x) == Unwrapped(sp + Unwrap(x).text, Unwrap(x).words)
  {
    if sp != [] {
      HeadTail(sp, x);
      UnwrapPlain(sp[0], sp[1..] + x);
      UnwrapSpaces(sp[1..], x);
      HeadTail(sp, Unwrap(x).text);
    } else {
      assert sp + x == x;
    }
  }

  /** A character that cannot open a span is plain text. */
  lemma UnwrapPlain(c: char, y: string)
    requires c != Open[0]
    ensures Unwrap([c] + y) == Unwrapped([c] + Unwrap(y).text, Unwrap(y).words)
  {
    var h := [c] + y;
    assert !(Open <= h) && h[1..] == y;
  }

  /** A wrapped word followed by white space or nothing reads back as that word, both as text and as a span. */
  lemma UnwrapWord(w: string, x: string)
    requires w != [] && NoSpace(w)
    requires x == [] || IsSpace(x[0])
    ensures Unwrap(Open + w + Close + x) == Unwrapped(w + Unwrap(x).text, [w] + Unwrap(x).words)
  {
    var h := Open + w + Close + x;
    assert Open <= h && h[|Open|..] == w + (Close + x);
    RunOverWord(w, x);
    PiecesOfWord(w, x);
  }

  /** The non-space run of a word followed by the closing tag and white space covers exactly both. */
  lemma RunOverWord(w: string, x: string)
    requires NoSpace(w)
    requires x == [] || IsSpace(x[0])
    ensures Run(w + (Close + x), NotSpace) == |w| + |Close|
  {
    assert forall i :: 0 <= i < |Close| ==> NotSpace(Close[i]);
    RunAppend(w, Close + x, NotSpace);
    RunAppend(Close, x, NotSpace);
    assert Run(x, NotSpace) == 0;
  }

  lemma PiecesOfWord(w: string, x: string)
    ensures var body, n := w + (Close + x), |w| + |Close|;
      && body[n - |Close|..n] == Close && body[..n - |Close|] == w && body[n..] == x
  {
  }

  /** Both splits of a string without white space give that string alone. */
  lemma SplitNoSpace(s: string)
    requires Run(s, NotSpace) == |s|
    ensures NoSpace(s)
    ensures SplitKeepingSpaces(s) == [s] && Segments(s) == [s]
  {
  }

  lemma WrapAllStep(p: string, parts: seq<string>)
    ensures WrapAll([p] + parts) == WrapPart(p) + WrapAll(parts)
  {
    assert ([p] + parts)[1..] == parts;
  }

  lemma WrapAllTwo(a: string, b: string, parts: seq<string>)
    ensures WrapAll([a, b] + parts) == WrapPart(a) + (WrapPart(b) + WrapAll(parts))
  {
    assert [a, b] + parts == [a] + ([b] + parts);
    WrapAllStep(a, [b] + parts);
    WrapAllStep(b, parts);
  }

  lemma NonBlankStep(p: string, parts: seq<string>)
    ensures NonBlank([p] + parts) == (if Trim(p) != [] then [p] else []) + NonBlank(parts)
  {
    assert ([p] + parts)[1..] == parts;
  }

  /** A word is wrapped in a span, a white-space run or an empty part is not. */
  lemma WrapPartCases(p: string)
    ensures NoSpace(p) ==> (Trim(p) != [] <==> p != [])
    ensures NoSpace(p) && p != [] ==> WrapPart(p) == Open + p + Close
    ensures AllSpace(p) ==> WrapPart(p) == p
  {
    if NoSpace(p) {
      TrimNoSpace(p);
    }
    if AllSpace(p) {
      TrimAllSpace(p);
    }
  }

  /** A span standing alone reads back as its word. */
  lemma UnwrapWordAlone(w: string)
    requires w != [] && NoSpace(w)
    ensures Unwrap(Open + w + Close) == Unwrapped(w, [w])
  {
    UnwrapWord(w, []);
    assert Open + w + Close + [] == Open + w + Close;
    assert Unwrap([]) == Unwrapped([], []);
    assert w + [] == w && [w] + [] == [w];
  }

  /** The words of a string without white space: the string itself, unless it is empty. */
  lemma WordsNoSpace(s: string)
    requires Run(s, NotSpace) == |s|
    ensures NoSpace(s)
    ensures Words(s) == if s == [] then [] else [s]
  {
    SplitNoSpace(s);
    NonBlankStep(s, []);
    assert [s] + [] == [s];
    WrapPartCases(s);
  }

  /** The markup of a string without white space: one span around it, unless it is empty. */
  lemma WrapNoSpaceMarkup(s: string)
    requires Run(s, NotSpace) == |s|
    ensures WrapWordsInSpans(s) == if s == [] then [] else Open + s + Close
  {
    SplitNoSpace(s);
    WrapAllStep(s, []);
    assert [s] + [] == [s];
    WrapPartCases(s);
  }

  /** The markup and the words of a string without white space. */
  lemma WrapNoSpace(s: string)
    requires Run(s, NotSpace) == |s|
    ensures Unwrap(WrapWordsInSpans(s)) == Unwrapped(s, Words(s))
  {
    if s == [] {
      WrapEmpty();
    } else {
      WrapSingleWord(s);
    }
  }

  lemma WrapEmpty()
    ensures Unwrap(WrapWordsInSpans([])) == Unwrapped([], Words([]))
  {
    WordsNoSpace([]);
    WrapNoSpaceMarkup([]);
    assert Unwrap([]) == Unwrapped([], []);
  }

  lemma WrapSingleWord(s: string)
    requires s != [] && Run(s, NotSpace) == |s|
    ensures Unwrap(WrapWordsInSpans(s)) == Unwrapped(s, Words(s))
  {
    WordsNoSpace(s);
    WrapNoSpaceMarkup(s);
    UnwrapWordAlone(s);
  }

  /** One step of `wrapWordsInSpans`: the markup of `seg + sep + rest` in terms of that of `rest`. */
  lemma WrapStep(seg: string, sep: string, rest: string)
    requires NoSpace(seg) && AllSpace(sep)
    requires SplitKeepingSpaces(seg + sep + rest) == [seg, sep] + SplitKeepingSpaces(rest)
    ensures WrapWordsInSpans(seg + sep + rest) == WrapPart(seg) + (sep + WrapWordsInSpans(rest))
  {
    WrapAllTwo(seg, sep, SplitKeepingSpaces(rest));
    WrapPartCases(sep);
  }

  /** One step of the word list: the words of `seg + sep + rest` in terms of those of `rest`. */
  lemma WordsStep(seg: string, sep: string, rest: string)
    requires NoSpace(seg)
    requires Segments(seg + sep + rest) == [seg] + Segments(rest)
    ensures Words(seg + sep + rest) == (if seg != [] then [seg] else []) + Words(rest)
  {
    WrapPartCases(seg);
    NonBlankStep(seg, Segments(rest));
    assert Words(seg + sep + rest) == NonBlank([seg] + Segments(rest));
  }

  lemma EmptyPrefix(x: string)
    ensures [] + x == x
  {
  }

  /** Reading back a wrapped piece, a white-space run and markup already read back. */
  lemma RoundTripStep(seg: string, sep: string, h: string, rest: string, ws: seq<string>)
    requires NoSpace(seg) && sep != [] && AllSpace(sep)
    requires Unwrap(h) == Unwrapped(rest, ws)
    ensures Unwrap(WrapPart(seg) + (sep + h)) ==
              Unwrapped(seg + (sep + rest), (if seg != [] then [seg] else []) + ws)
  {
    UnwrapSpaces(sep, h);
    WrapPartCases(seg);
    if seg != [] {
      assert (sep + h)[0] == sep[0];
      UnwrapWord(seg, sep + h);
    } else {
      assert WrapPart(seg) == [];
      EmptyPrefix(sep + h);
      EmptyPrefix(sep + rest);
    }
  }

  /**
   * The round trip: reading back the markup of a sentence gives the sentence
   * exactly, and its spans hold exactly the words `updateStats` counts, in order.
   */
  lemma {:induction false} WrapRoundTrip(s: string)
    ensures Unwrap(WrapWordsInSpans(s)) == Unwrapped(s, Words(s))
    decreases |s|
  {
    if Run(s, NotSpace) == |s| {
      WrapNoSpace(s);
    } else {
      var seg, sep, rest := Decompose(s);
      WrapStep(seg, sep, rest);
      WordsStep(seg, sep, rest);
      WrapRoundTrip(rest);
      RoundTripStep(seg, sep, WrapWordsInSpans(rest), rest, Words(rest));
    }
  }

  /** Each string of the list is a non-empty run without white space. */
  ghost predicate AreWords(ws: seq<string>) {
    forall k :: 0 <= k < |ws| ==> ws[k] != [] && NoSpace(ws[k])
  }

  /** Every counted word is a non-empty run without white space, and together they are exactly the non-space characters. */
  lemma {:induction false} WordsAreTheNonSpaceText(s: string)
    ensures AreWords(Words(s))
    ensures Concat(Words(s)) == Squeeze(s)
    decreases |s|
  {
    if Run(s, NotSpace) == |s| {
      WordsNoSpaceText(s);
    } else {
      var seg, sep, rest := Decompose(s);
      WordsStep(seg, sep, rest);
      WordsAreTheNonSpaceText(rest);
      WordsStepText(seg, sep, rest, Words(rest));
      WordsStepAreWords(seg, Words(rest));
    }
  }

  lemma WordsNoSpaceText(s: string)
    requires Run(s, NotSpace) == |s|
    ensures AreWords(Words(s)) && Concat(Words(s)) == Squeeze(s)
  {
    WordsNoSpace(s);
    SqueezeNoSpace(s);
    SingleWord(s);
  }

  lemma SingleWord(w: string)
    requires NoSpace(w)
    ensures var ws := if w == [] then [] else [w]; AreWords(ws) && Concat(ws) == w
  {
    if w != [] {
      assert Concat([w]) == w + Concat([]);
      assert [w][0] == w;
    }
  }

  lemma WordsStepAreWords(seg: string, ws: seq<string>)
    requires NoSpace(seg) && AreWords(ws)
    ensures AreWords((if seg != [] then [seg] else []) + ws)
  {
    var head: seq<string> := if seg != [] then [seg] else [];
    forall k | 0 <= k < |head + ws| ensures (head + ws)[k] != [] && NoSpace((head + ws)[k]) {
      if k < |head| {
        assert (head + ws)[k] == seg;
      } else {
        assert (head + ws)[k] == ws[k - |head|];
      }
    }
  }

  lemma WordsStepText(seg: string, sep: string, rest: string, ws: seq<string>)
    requires NoSpace(seg) && AllSpace(sep)
    requires Concat(ws) == Squeeze(rest)
    ensures Concat((if seg != [] then [seg] else []) + ws) == Squeeze(seg + sep + rest)
  {
    var head: seq<string> := if seg != [] then [seg] else [];
    ConcatAppend(head, ws);
    assert Concat(head) == seg by {
      if seg != [] { assert Concat([seg]) == seg + Concat([]); }
    }
    SqueezeAppend(seg + sep, rest);
    SqueezeAppend(seg, sep);
    SqueezeNoSpace(seg);
    SqueezeAllSpace(sep);
    assert seg + [] == seg;
  }

  /** The word total of `updateStats`: the sum over all sentences of their word counts. */
  function WordCount(sentences: seq<string>): nat
  {
    if sentences == [] then 0 else |Words(sentences[0])| + WordCount(sentences[1..])
  }

  /** The number of word spans rendered for all the sentence cards. */
  function SpanCount(sentences: seq<string>): nat
  {
    if sentences == [] then 0
    else |Unwrap(WrapWordsInSpans(sentences[0])).words| + SpanCount(sentences[1..])
  }

  /** The word total shown in the statistics panel equals the number of word spans on the cards. */
  lemma {:induction false} WordCountIsSpanCount(sentences: seq<string>)
    ensures WordCount(sentences) == SpanCount(sentences)
  {
    if sentences != [] {
      WrapRoundTrip(sentences[0]);
      WordCountIsSpanCount(sentences[1..]);
    }
  }
}
