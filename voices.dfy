/**
 * Voice selection: `findBestEnglishVoice` (assets/shadowReader.js:254-356),
 * `findBestArabicVoice` (assets/shadowReader.js:358-377) and the voice
 * fallback of `playSentence` (assets/shadowReader.js:474-490).  A voice list
 * is what the speech engine reports; an answer is an index into it, or `None`
 * for the source's `null`.
 */
module Voices {
  import opened Opt
  import opened Strings

  /** A `SpeechSynthesisVoice`: its name, its BCP 47 language tag, and whether it is the engine's default. */
  datatype Voice = Voice(name: string, lang: string, isDefault: bool)

  /** `lang.split('-')[0].toLowerCase()`. */
  function LangPrefix(lang: string): (r: string)
    ensures |r| <= |lang|
    ensures forall i :: 0 <= i < |r| ==> r[i] != '-'
  {
    ToLower(BeforeFirst(lang, '-'))
  }

  predicate IsEnglish(v: Voice) { LangPrefix(v.lang) == "en" }

  predicate IsArabicVoice(v: Voice) { LangPrefix(v.lang) == "ar" }

  /** An English voice whose name holds `(Natural)` (case-sensitive). */
  predicate IsNatural(v: Voice) { IsEnglish(v) && Contains(v.name, "(Natural)") }

  /** A natural English voice whose lower-cased name holds `andrew`. */
  predicate IsNaturalAndrew(v: Voice) { IsNatural(v) && Contains(ToLower(v.name), "andrew") }

  predicate IsDavid(v: Voice) { Contains(ToLower(v.name), "david") }

  /** An English voice other than a David voice. */
  predicate IsPlainEnglish(v: Voice) { IsEnglish(v) && !IsDavid(v) }

  /** A plain English voice whose lower-cased name holds one of the quality keywords. */
  predicate IsQualityEnglish(v: Voice) {
    var n := ToLower(v.name);
    IsPlainEnglish(v) &&
    (Contains(n, "microsoft") || Contains(n, "enhanced") || Contains(n, "premium") || Contains(n, "hd"))
  }

  /** An Arabic voice named Enhanced, Premium or Natural (case-sensitive), or the default voice. */
  predicate IsPremiumArabic(v: Voice) {
    IsArabicVoice(v) &&
    (Contains(v.name, "Enhanced") || Contains(v.name, "Premium") || Contains(v.name, "Natural") || v.isDefault)
  }

  /** The exact voice names preferred after the natural voices, best first. */
  const Preferred: seq<string> := [
    "Microsoft Zira - English (United States)",
    "Microsoft Mark - English (United States)",
    "Microsoft Hazel - English (Great Britain)",
    "Microsoft Susan - English (Great Britain)",
    "Samantha", "Alex", "Victoria", "Karen", "Daniel", "Moira", "Tessa",
    "Google US English", "Google UK English Female", "Google UK English Male"
  ]

  /** The first position of `name` in `names`, or -1. */
  function IndexIn(names: seq<string>, name: string): (p: int)
    ensures -1 <= p < |names|
    ensures p >= 0 ==> names[p] == name && forall q :: 0 <= q < p ==> names[q] != name
    ensures p == -1 ==> forall q :: 0 <= q < |names| ==> names[q] != name
  {
    if names == [] then -1
    else if names[0] == name then 0
    else
      var p := IndexIn(names[1..], name);
      if p == -1 then -1 else p + 1
  }

  /** The preference of an English voice whose name is on the preferred list (0 is best), or -1. */
  function Rank(v: Voice): int
  {
    if IsEnglish(v) then IndexIn(Preferred, v.name) else -1
  }

  /** Voice `i` is the first voice satisfying `p`. */
  ghost predicate IsFirst(voices: seq<Voice>, i: int, p: Voice -> bool) {
    0 <= i < |voices| && p(voices[i]) && forall j :: 0 <= j < i ==> !p(voices[j])
  }

  /** Voice `i` is the last voice satisfying `p`. */
  ghost predicate IsLast(voices: seq<Voice>, i: int, p: Voice -> bool) {
    0 <= i < |voices| && p(voices[i]) && forall j :: i < j < |voices| ==> !p(voices[j])
  }

  /** No voice before position `n` satisfies `p`. */
  ghost predicate NoneBefore(voices: seq<Voice>, n: int, p: Voice -> bool)
    requires 0 <= n <= |voices|
  {
    forall j :: 0 <= j < n ==> !p(voices[j])
  }

  lemma NoneBeforeStep(voices: seq<Voice>, n: nat, p: Voice -> bool)
    requires n < |voices| && NoneBefore(voices, n, p) && !p(voices[n])
    ensures NoneBefore(voices, n + 1, p)
  {
  }

  /**
   * After the first `n` voices, `best` is nothing exactly when none of them
   * satisfies `p`, and otherwise the first that does.
   */
  ghost predicate FirstSoFar(voices: seq<Voice>, n: nat, best: Option<nat>, p: Voice -> bool)
    requires n <= |voices|
  {
    && (best.None? <==> NoneBefore(voices, n, p))
    && (best.Some? ==> best.value < n && IsFirst(voices, best.value, p))
  }

  /** Keeping the first voice seen that satisfies `p` maintains `FirstSoFar`. */
  lemma FirstStep(voices: seq<Voice>, n: nat, p: Voice -> bool, before: Option<nat>, after: Option<nat>)
    requires n < |voices| && FirstSoFar(voices, n, before, p)
    requires p(voices[n]) && before.None? ==> after == Some(n)
    requires !(p(voices[n]) && before.None?) ==> after == before
    ensures FirstSoFar(voices, n + 1, after, p)
  {
  }

  /** No voice strictly between positions `a` and `b` satisfies `p`. */
  ghost predicate NoneBetween(voices: seq<Voice>, a: int, b: int, p: Voice -> bool)
    requires 0 <= a && b <= |voices|
  {
    forall j :: a < j < b ==> !p(voices[j])
  }

  lemma NoneBetweenEmpty(voices: seq<Voice>, a: nat, p: Voice -> bool)
    requires a < |voices|
    ensures NoneBetween(voices, a, a + 1, p)
  {
  }

  lemma NoneBetweenStep(voices: seq<Voice>, a: nat, b: nat, p: Voice -> bool)
    requires a < b < |voices| && NoneBetween(voices, a, b, p) && !p(voices[b])
    ensures NoneBetween(voices, a, b + 1, p)
  {
  }

  ghost predicate Any(voices: seq<Voice>, p: Voice -> bool) {
    exists i :: 0 <= i < |voices| && p(voices[i])
  }

  /**
   * Voice `i` has the best rank of all ranked voices, and no earlier voice has
   * that rank.
   */
  ghost predicate IsBestRanked(voices: seq<Voice>, i: int) {
    && 0 <= i < |voices| && Rank(voices[i]) >= 0
    && (forall j :: 0 <= j < |voices| && Rank(voices[j]) >= 0 ==> Rank(voices[i]) <= Rank(voices[j]))
    && (forall j :: 0 <= j < i ==> Rank(voices[j]) != Rank(voices[i]))
  }

  ghost predicate AnyRanked(voices: seq<Voice>) {
    exists i :: 0 <= i < |voices| && Rank(voices[i]) >= 0
  }

  /**
   * The first loop: the first natural Andrew voice, found by returning at once,
   * otherwise the first natural voice, otherwise nothing.
   */
  method NaturalPass(voices: seq<Voice>) returns (r: Option<nat>)
    ensures Any(voices, IsNaturalAndrew) ==> r.Some? && IsFirst(voices, r.value, IsNaturalAndrew)
    ensures !Any(voices, IsNaturalAndrew) ==> (r.None? <==> !Any(voices, IsNatural))
    ensures !Any(voices, IsNaturalAndrew) && r.Some? ==> IsFirst(voices, r.value, IsNatural)
  {
    var bestIndex: Option<nat> := None;
    for i := 0 to |voices|
      invariant NoneBefore(voices, i, IsNaturalAndrew)
      invariant FirstSoFar(voices, i, bestIndex, IsNatural)
    {
      var voice := voices[i];
      var voiceLang := LangPrefix(voice.lang);
      ghost var best0 := bestIndex;
      if voiceLang == "en" && Contains(voice.name, "(Natural)") {
        assert IsNatural(voice);
        if Contains(ToLower(voice.name), "andrew") {
          return Some(i);
        }
        assert !IsNaturalAndrew(voice);
        if bestIndex.None? {
          bestIndex := Some(i);
        }
      } else {
        assert !IsNatural(voice);
      }
      NoneBeforeStep(voices, i, IsNaturalAndrew);
      FirstStep(voices, i, IsNatural, best0, bestIndex);
    }
    return bestIndex;
  }

  /**
   * The second loop, with its inner loop over the preferred names: the
   * English voice whose name comes earliest on the list, the first such voice
   * on ties, otherwise nothing.
   */
  method PreferredPass(voices: seq<Voice>) returns (r: Option<nat>)
    ensures r.None? <==> !AnyRanked(voices)
    ensures r.Some? ==> IsBestRanked(voices, r.value)
  {
    var fallbackIndex: Option<nat> := None;
    var fallbackPriority := -1;
    for i := 0 to |voices|
      invariant BestRankedBefore(Ranks(voices), i, fallbackIndex, fallbackPriority)
    {
      var voice := voices[i];
      var voiceLang := LangPrefix(voice.lang);
      ghost var rank := Rank(voice);
      ghost var index0, priority0 := fallbackIndex, fallbackPriority;
      if voiceLang == "en" {
        assert rank == IndexIn(Preferred, voice.name);
        for j := 0 to |Preferred|
          invariant if 0 <= rank < j && (priority0 == -1 || rank < priority0)
                    then fallbackIndex == Some(i) && fallbackPriority == rank
                    else fallbackIndex == index0 && fallbackPriority == priority0
        {
          if voice.name == Preferred[j] {
            assert 0 <= rank <= j;
            if fallbackPriority == -1 || j < fallbackPriority {
              fallbackIndex := Some(i);
              fallbackPriority := j;
            }
          } else {
            assert rank != j;
          }
        }
      } else {
        assert rank == -1;
      }
      BestRankedStep(Ranks(voices), i, index0, priority0, fallbackIndex, fallbackPriority);
    }
    BestRankedAll(voices, fallbackIndex, fallbackPriority);
    return fallbackIndex;
  }

  /** The rank of every voice. */
  function Ranks(voices: seq<Voice>): (rs: seq<int>)
    ensures |rs| == |voices| && forall k :: 0 <= k < |voices| ==> rs[k] == Rank(voices[k])
  {
    seq(|voices|, k requires 0 <= k < |voices| => Rank(voices[k]))
  }

  /**
   * The state of the second loop after the first `n` ranks: no answer and
   * priority -1 while nothing is ranked, otherwise the position of the best
   * rank so far (the first on ties) and that rank.
   */
  ghost predicate BestRankedBefore(rs: seq<int>, n: int, index: Option<nat>, priority: int)
    requires 0 <= n <= |rs|
  {
    && (index.None? <==> priority == -1)
    && (index.None? <==> forall k :: 0 <= k < n ==> rs[k] == -1)
    && (index.Some? ==>
          && index.value < n
          && priority == rs[index.value] >= 0
          && (forall k :: 0 <= k < n && rs[k] >= 0 ==> priority <= rs[k])
          && (forall k :: 0 <= k < index.value ==> rs[k] != priority))
  }

  /** Position `n` replaces the answer exactly when it is ranked strictly better. */
  lemma BestRankedStep(rs: seq<int>, n: nat, index0: Option<nat>, priority0: int,
                       index1: Option<nat>, priority1: int)
    requires n < |rs| && rs[n] >= -1 && BestRankedBefore(rs, n, index0, priority0)
    requires 0 <= rs[n] && (priority0 == -1 || rs[n] < priority0) ==>
               index1 == Some(n) && priority1 == rs[n]
    requires !(0 <= rs[n] && (priority0 == -1 || rs[n] < priority0)) ==>
               index1 == index0 && priority1 == priority0
    ensures BestRankedBefore(rs, n + 1, index1, priority1)
  {
  }

  lemma BestRankedAll(voices: seq<Voice>, index: Option<nat>, priority: int)
    requires BestRankedBefore(Ranks(voices), |voices|, index, priority)
    ensures index.None? <==> !AnyRanked(voices)
    ensures index.Some? ==> IsBestRanked(voices, index.value)
  {
  }

  /**
   * The third loop: skipping David voices, the first English voice with a
   * quality keyword (the loop breaks there), otherwise the first English voice.
   */
  method QualityPass(voices: seq<Voice>) returns (r: Option<nat>)
    ensures Any(voices, IsQualityEnglish) ==> r.Some? && IsFirst(voices, r.value, IsQualityEnglish)
    ensures r.None? <==> !Any(voices, IsPlainEnglish)
    ensures !Any(voices, IsQualityEnglish) && r.Some? ==> IsFirst(voices, r.value, IsPlainEnglish)
  {
    var fallbackIndex: Option<nat> := None;
    var i := 0;
    while i < |voices|
      invariant 0 <= i <= |voices|
      invariant NoneBefore(voices, i, IsQualityEnglish)
      invariant FirstSoFar(voices, i, fallbackIndex, IsPlainEnglish)
    {
      var voice := voices[i];
      var voiceLang := LangPrefix(voice.lang);
      ghost var index0 := fallbackIndex;
      if voiceLang == "en" {
        var voiceName := ToLower(voice.name);
        if !Contains(voiceName, "david") {
          assert IsPlainEnglish(voice);
          if Contains(voiceName, "microsoft") || Contains(voiceName, "enhanced") ||
             Contains(voiceName, "premium") || Contains(voiceName, "hd")
          {
            assert IsQualityEnglish(voice);
            fallbackIndex := Some(i);
            break;
          }
          if fallbackIndex.None? {
            fallbackIndex := Some(i);
          }
        } else {
          assert !IsPlainEnglish(voice);
        }
      } else {
        assert !IsPlainEnglish(voice);
      }
      assert !IsQualityEnglish(voice);
      NoneBeforeStep(voices, i, IsQualityEnglish);
      FirstStep(voices, i, IsPlainEnglish, index0, fallbackIndex);
      i := i + 1;
    }
    return fallbackIndex;
  }

  /**
   * What `findBestEnglishVoice` returns: an English voice or nothing, chosen
   * by the first rule that applies: the first natural Andrew voice; the first
   * natural voice; the best-ranked preferred name; the first non-David voice
   * with a quality keyword; the first non-David English voice.  Nothing
   * exactly when no rule applies.
   */
  ghost predicate BestEnglish(voices: seq<Voice>, r: Option<nat>)
  {
    && (r.Some? ==> r.value < |voices| && IsEnglish(voices[r.value]))
    && (Any(voices, IsNaturalAndrew) ==> r.Some? && IsFirst(voices, r.value, IsNaturalAndrew))
    && (!Any(voices, IsNaturalAndrew) && Any(voices, IsNatural) ==>
          r.Some? && IsFirst(voices, r.value, IsNatural))
    && (!Any(voices, IsNatural) && AnyRanked(voices) ==> r.Some? && IsBestRanked(voices, r.value))
    && (!Any(voices, IsNatural) && !AnyRanked(voices) && Any(voices, IsQualityEnglish) ==>
          r.Some? && IsFirst(voices, r.value, IsQualityEnglish))
    && (!Any(voices, IsNatural) && !AnyRanked(voices) && !Any(voices, IsQualityEnglish) ==>
          (r.None? <==> !Any(voices, IsPlainEnglish)) &&
          (r.Some? ==> IsFirst(voices, r.value, IsPlainEnglish)))
  }

  /** `findBestEnglishVoice`: the natural pass, then the preferred-name pass, then the quality pass. */
  method FindBestEnglishVoice(voices: seq<Voice>) returns (r: Option<nat>)
    ensures BestEnglish(voices, r)
  {
    r := NaturalPass(voices);
    if r.Some? {
      return;
    }
    assert !Any(voices, IsNaturalAndrew);
    r := PreferredPass(voices);
    if r.Some? {
      return;
    }
    r := QualityPass(voices);
  }

  /**
   * What `findBestArabicVoice` returns: nothing exactly when there is no
   * Arabic voice; otherwise the first premium or default Arabic voice, or
   * else the last Arabic voice.
   */
  ghost predicate BestArabic(voices: seq<Voice>, r: Option<nat>)
  {
    && (r.None? <==> !Any(voices, IsArabicVoice))
    && (Any(voices, IsPremiumArabic) ==> r.Some? && IsFirst(voices, r.value, IsPremiumArabic))
    && (!Any(voices, IsPremiumArabic) && r.Some? ==> IsLast(voices, r.value, IsArabicVoice))
  }

  /** `findBestArabicVoice`: one pass that remembers the last Arabic voice and breaks at a premium or default one. */
  method FindBestArabicVoice(voices: seq<Voice>) returns (r: Option<nat>)
    ensures BestArabic(voices, r)
  {
    var bestIndex: Option<nat> := None;
    var i := 0;
    while i < |voices|
      invariant 0 <= i <= |voices|
      invariant NoneBefore(voices, i, IsPremiumArabic)
      invariant bestIndex.None? <==> NoneBefore(voices, i, IsArabicVoice)
      invariant bestIndex.Some? ==>
                  bestIndex.value < i && IsArabicVoice(voices[bestIndex.value]) &&
                  NoneBetween(voices, bestIndex.value, i, IsArabicVoice)
    {
      var voice := voices[i];
      var voiceLang := LangPrefix(voice.lang);
      ghost var index0 := bestIndex;
      if voiceLang == "ar" {
        assert IsArabicVoice(voice);
        bestIndex := Some(i);
        if Contains(voice.name, "Enhanced") || Contains(voice.name, "Premium") ||
           Contains(voice.name, "Natural") || voice.isDefault
        {
          assert IsPremiumArabic(voice);
          break;
        }
        NoneBetweenEmpty(voices, i, IsArabicVoice);
      } else {
        assert !IsArabicVoice(voice);
        if index0.None? {
          NoneBeforeStep(voices, i, IsArabicVoice);
        } else {
          NoneBetweenStep(voices, index0.value, i, IsArabicVoice);
        }
      }
      assert !IsPremiumArabic(voice);
      NoneBeforeStep(voices, i, IsPremiumArabic);
      i := i + 1;
    }
    return bestIndex;
  }

  /**
   * The voice `playSentence` uses, and what it leaves as the stored voice index
   * and as the voice selector's value.
   */
  datatype VoiceChoice = VoiceChoice(stored: int, select: Option<int>, voice: Option<nat>)

  /**
   * The index `playSentence` asks for: the stored index, or when none is stored
   * the selector's value parsed as an integer (`None` when it does not parse),
   * with `|| 0` turning a failed parse into 0.
   */
  function Requested(stored: Option<int>, select: Option<int>): int
  {
    if stored.Some? then stored.value else if select.Some? then select.value else 0
  }

  /**
   * The requested voice when it exists; otherwise the first voice, which also
   * becomes the stored index and the selector's value; otherwise (no voices at
   * all) no voice, and the engine speaks with its own default.
   */
  function ResolveVoice(stored: Option<int>, select: Option<int>, count: nat): (c: VoiceChoice)
    ensures c.voice.Some? <==> count > 0
    ensures c.voice.Some? ==> c.voice.value < count && c.stored == c.voice.value
    ensures 0 <= Requested(stored, select) < count ==>
              c == VoiceChoice(Requested(stored, select), select, Some(Requested(stored, select)))
    ensures count > 0 && !(0 <= Requested(stored, select) < count) ==> c == VoiceChoice(0, Some(0), Some(0))
    ensures count == 0 ==> c.stored == Requested(stored, select) && c.select == select
  {
    var voiceIndex := Requested(stored, select);
    if 0 <= voiceIndex < count then VoiceChoice(voiceIndex, select, Some(voiceIndex))
    else if count > 0 then VoiceChoice(0, Some(0), Some(0))
    else VoiceChoice(voiceIndex, select, None)
  }
}
