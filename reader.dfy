/**
 * The state of `ShadowReader` (assets/shadowReader.js): the voice list and
 * the voice selector, processing text into sentences, playing one sentence,
 * play-all with pause and resume, next/previous, stop and clear.  Speech
 * synthesis is reduced to the utterances the reader hands to the engine and
 * to the start, end and error events the engine reports back; the 500 ms
 * advance timer of the end handler is a queue of scheduled callbacks that
 * fire later, oldest first.
 */
module Reader {
  import opened Opt
  import opened Strings
  import opened Sentences
  import opened Language
  import opened Voices
  import opened VoiceSelect

  /**
   * An utterance as `playSentence` sets it up: which utterance it is (the
   * object identity the source compares with `===`), the sentence index its
   * handlers capture, the text and the voice.
   */
  datatype Utterance = Utterance(id: nat, index: nat, text: string, voice: Option<nat>)

  /** Every sentence is non-empty and neither starts nor ends with white space. */
  ghost predicate AllTrimmed(ss: seq<string>) {
    forall k :: 0 <= k < |ss| ==> ss[k] != [] && !IsSpace(ss[k][0]) && !IsSpace(ss[k][|ss[k]| - 1])
  }

  /** Input with something besides white space yields trimmed, non-empty sentences, at least one. */
  lemma ProcessedSentences(input: string)
    requires Trim(input) != []
    ensures |SplitIntoSentences(Trim(input))| >= 1 && AllTrimmed(SplitIntoSentences(Trim(input)))
  {
    TrimmedTextHasSentence(Trim(input));
  }

  /** The language `autoSelectVoice` picks a voice for: "ar" exactly when Arabic characters are more than 30% of the non-space ones. */
  function TargetLanguage(text: string): string
  {
    if 10 * ArabicCount(text) > 3 * NonSpaceCount(text) then "ar" else "en"
  }

  /** `langInfo.isArabic ? 'ar' : 'en'` in `autoSelectVoice`. */
  method DetectTarget(text: string) returns (lang: string)
    ensures lang == TargetLanguage(text)
  {
    lang := if DetectLanguage(text).isArabic then "ar" else "en";
  }

  /**
   * One `priorityLangs` pass of `populateVoiceSelect` over the voices of group
   * `key` in list order: the option restoring `current` is marked, and so is,
   * while no option is marked yet, a default voice.  Returns the last option
   * marked and whether any option is marked now.
   */
  method GroupPass(voices: seq<Voice>, key: string, current: Option<int>, picked: bool)
    returns (mark: Option<nat>, pickedAfter: bool)
    ensures mark == GroupPick(voices, key, current, picked)
    ensures pickedAfter == (picked || mark.Some?)
  {
    mark, pickedAfter := None, picked;
    var i := 0;
    while i < |voices|
      invariant 0 <= i <= |voices|
      invariant mark == GroupPick(voices[..i], key, current, picked)
      invariant pickedAfter == (picked || mark.Some?)
    {
      GroupPickStep(voices, i, key, current, picked);
      if GroupKey(voices[i]) == key {
        if current == Some(i) {
          mark, pickedAfter := Some(i), true;
        } else if !pickedAfter && voices[i].isDefault {
          mark, pickedAfter := Some(i), true;
        }
      }
      i := i + 1;
    }
    assert voices[..i] == voices;
  }

  /**
   * The pass of `populateVoiceSelect` over the remaining groups: only the
   * option restoring `current` is marked.  The source visits these groups in
   * sorted key order; at most one option restores `current`, so visiting the
   * voices in list order marks the same option.
   */
  method OtherPass(voices: seq<Voice>, current: Option<int>) returns (mark: Option<nat>)
    ensures mark == OtherPick(voices, current)
  {
    mark := None;
    var i := 0;
    while i < |voices|
      invariant 0 <= i <= |voices|
      invariant mark == OtherPick(voices[..i], current)
    {
      assert voices[..i + 1][i] == voices[i];
      var key := GroupKey(voices[i]);
      if key != "ar" && key != "en" && current == Some(i) {
        mark := Some(i);
      }
      i := i + 1;
    }
    assert voices[..i] == voices;
  }

  /** The voice `autoSelectVoice` looks up for `lang`: the best English voice for "en", the best Arabic voice otherwise. */
  ghost predicate BestFor(voices: seq<Voice>, lang: string, best: Option<nat>)
  {
    (lang == "en" ==> BestEnglish(voices, best)) && (lang != "en" ==> BestArabic(voices, best))
  }

  /** The lookup `autoSelectVoice` makes: `findBestEnglishVoice` for "en", `findBestArabicVoice` otherwise. */
  method FindBestVoice(voices: seq<Voice>, lang: string) returns (best: Option<nat>)
    ensures BestFor(voices, lang, best)
  {
    if lang == "en" {
      best := FindBestEnglishVoice(voices);
    } else {
      best := FindBestArabicVoice(voices);
    }
  }

  class ShadowReader {
    var voices: seq<Voice>
    var sentences: seq<string>
    var currentUtterance: Option<Utterance>
    var currentSentenceIndex: int
    var isPlaying: bool
    var isPaused: bool
    var playAllMode: bool
    var isProcessed: bool
    var selectedVoiceIndex: Option<int>
    /** The voice selector's value parsed as an integer, `None` when it is empty. */
    var selectValue: Option<int>
    var lastDetectedLanguage: Option<string>
    /** Utterances created so far; the next one is given this number. */
    var utterancesMade: nat
    /** The utterances whose end scheduled a 500 ms advance that has not fired yet, oldest first. */
    var pendingAdvances: seq<nat>

    /**
     * What holds in every reachable state: the sentences are trimmed and
     * non-empty, text counts as processed exactly when there are sentences,
     * play-all and pause never hold together, and either of them implies a
     * sentence index of at least 0.
     */
    ghost predicate Wellformed()
      reads this`sentences, this`isProcessed, this`playAllMode, this`isPaused, this`currentSentenceIndex
    {
      && AllTrimmed(sentences)
      && (isProcessed <==> |sentences| > 0)
      && !(playAllMode && isPaused)
      && currentSentenceIndex >= -1
      && ((playAllMode || isPaused) ==> currentSentenceIndex >= 0)
    }

    /** In addition, the sentence index is -1 (none yet) or the index of a sentence. */
    ghost predicate Valid()
      reads this`sentences, this`isProcessed, this`playAllMode, this`isPaused, this`currentSentenceIndex
    {
      Wellformed() && currentSentenceIndex < |sentences|
    }

    /** Sentence `i` is the one handed to the speech engine. */
    ghost predicate Speaking(i: int)
      reads this`sentences, this`currentUtterance
    {
      && 0 <= i < |sentences|
      && currentUtterance.Some?
      && currentUtterance.value.index == i
      && currentUtterance.value.text == sentences[i]
    }

    /**
     * `playSentence(i)` has just run: sentence `i` is current and handed to the
     * engine as a new utterance, numbered `made`, with the voice `ResolveVoice`
     * picks from the stored index and the selector's value it found, which also
     * become the new stored index and selector value.
     */
    ghost predicate Played(i: int, made: nat, stored: Option<int>, select: Option<int>)
      reads this`sentences, this`currentUtterance, this`currentSentenceIndex, this`utterancesMade,
            this`voices, this`selectedVoiceIndex, this`selectValue
    {
      var choice := ResolveVoice(stored, select, |voices|);
      && currentSentenceIndex == i && Speaking(i)
      && currentUtterance.value.id == made && utterancesMade == made + 1
      && currentUtterance.value.voice == choice.voice
      && selectedVoiceIndex == Some(choice.stored) && selectValue == choice.select
    }

    /**
     * The constructor: the fields start empty and off, then `loadVoices` takes
     * the voice list the engine reports and rebuilds the selector, whose value
     * before that is the page's `pageSelect`.
     */
    constructor(voices: seq<Voice>, pageSelect: Option<int>)
      ensures Valid()
      ensures this.voices == voices && sentences == [] && currentUtterance.None?
      ensures currentSentenceIndex == -1 && !isPlaying && !isPaused && !playAllMode && !isProcessed
      ensures selectedVoiceIndex == StoredAfter(voices, pageSelect, None)
      ensures selectValue == ShownAfter(voices, pageSelect)
      ensures lastDetectedLanguage.None? && utterancesMade == 0 && pendingAdvances == []
    {
      this.voices := voices;
      sentences := [];
      currentUtterance := None;
      currentSentenceIndex := -1;
      isPlaying := false;
      isPaused := false;
      playAllMode := false;
      isProcessed := false;
      selectedVoiceIndex := None;
      selectValue := pageSelect;
      lastDetectedLanguage := None;
      utterancesMade := 0;
      pendingAdvances := [];
      new;
      PopulateVoiceSelect();
    }

    /**
     * `populateVoiceSelect`: the "ar" pass, the "en" pass and the pass over the
     * other groups each store the index of every option they mark; then a
     * stored index that is null or 0 becomes 0 and the first listed option is
     * selected.  The selector shows the last option marked, or the first listed
     * one.
     */
    method PopulateVoiceSelect()
      modifies this
      ensures selectedVoiceIndex == StoredAfter(voices, old(selectValue), old(selectedVoiceIndex))
      ensures selectValue == ShownAfter(voices, old(selectValue))
      ensures unchanged(this`voices, this`sentences, this`currentUtterance, this`currentSentenceIndex, this`isPlaying)
      ensures unchanged(this`isPaused, this`playAllMode, this`isProcessed, this`lastDetectedLanguage)
      ensures unchanged(this`utterancesMade, this`pendingAdvances)
    {
      var mark := MarkOptions();
      if (selectedVoiceIndex.None? || selectedVoiceIndex == Some(0)) && |voices| > 0 {
        selectedVoiceIndex := Some(0);
        selectValue := FirstListed(voices);
      } else if mark.Some? {
        selectValue := mark;
      } else {
        selectValue := FirstListed(voices);
      }
    }

    /**
     * The three passes of `populateVoiceSelect`: each stores the index of every
     * option it marks, so the stored index ends as the last option marked,
     * which is the one `Chosen` names.
     */
    method MarkOptions() returns (mark: Option<nat>)
      modifies this`selectedVoiceIndex
      ensures mark == Chosen(voices, selectValue)
      ensures selectedVoiceIndex == if mark.Some? then mark else old(selectedVoiceIndex)
    {
      var current := selectValue;
      var ar, pickedAr := GroupPass(voices, "ar", current, false);
      if ar.Some? {
        selectedVoiceIndex := ar;
      }
      var en, pickedEn := GroupPass(voices, "en", current, pickedAr);
      if en.Some? {
        selectedVoiceIndex := en;
      }
      var other := OtherPass(voices, current);
      if other.Some? {
        selectedVoiceIndex := other;
      }
      mark := if other.Some? then other else if en.Some? then en else ar;
      PassesChoose(voices, current);
    }

    /** `loadVoices`, also the `onvoiceschanged` handler: takes the engine's voice list and rebuilds the selector. */
    method LoadVoices(newVoices: seq<Voice>)
      modifies this
      ensures voices == newVoices
      ensures selectedVoiceIndex == StoredAfter(newVoices, old(selectValue), old(selectedVoiceIndex))
      ensures selectValue == ShownAfter(newVoices, old(selectValue))
      ensures unchanged(this`sentences, this`currentUtterance, this`currentSentenceIndex, this`isPlaying)
      ensures unchanged(this`isPaused, this`playAllMode, this`isProcessed, this`lastDetectedLanguage)
      ensures unchanged(this`utterancesMade, this`pendingAdvances)
    {
      voices := newVoices;
      PopulateVoiceSelect();
    }

    /** The change listener of the voice selector: the chosen option becomes the selector's value and the stored voice. */
    method SelectVoice(value: int)
      modifies this
      ensures selectValue == Some(value) && selectedVoiceIndex == Some(value)
      ensures unchanged(this`voices, this`sentences, this`currentUtterance, this`currentSentenceIndex, this`isPlaying)
      ensures unchanged(this`isPaused, this`playAllMode, this`isProcessed, this`lastDetectedLanguage)
      ensures unchanged(this`utterancesMade, this`pendingAdvances)
    {
      selectValue := Some(value);
      selectedVoiceIndex := Some(value);
    }

    /**
     * `autoSelectVoice`: nothing changes when the text's language is the one
     * detected last time.  Otherwise that language is remembered and the best
     * voice for it is looked up (returned as `best`); when there is one and the
     * selector does not already show it, it becomes the selector's value and
     * the stored voice.
     */
    method AutoSelectVoice(text: string) returns (best: Option<nat>)
      modifies this
      ensures old(lastDetectedLanguage) == Some(TargetLanguage(text)) ==> unchanged(this) && best.None?
      ensures old(lastDetectedLanguage) != Some(TargetLanguage(text)) ==>
                lastDetectedLanguage == Some(TargetLanguage(text)) && BestFor(voices, TargetLanguage(text), best)
      ensures old(lastDetectedLanguage) != Some(TargetLanguage(text)) && best.Some? && old(selectValue) != Some(best.value) ==>
                selectValue == Some(best.value) && selectedVoiceIndex == Some(best.value)
      ensures best.None? || old(selectValue) == Some(best.value) ==>
                unchanged(this`selectValue, this`selectedVoiceIndex)
      ensures unchanged(this`voices, this`sentences, this`currentUtterance, this`currentSentenceIndex, this`isPlaying)
      ensures unchanged(this`isPaused, this`playAllMode, this`isProcessed)
      ensures unchanged(this`utterancesMade, this`pendingAdvances)
    {
      var targetLang := DetectTarget(text);
      if lastDetectedLanguage == Some(targetLang) {
        return None;
      }
      lastDetectedLanguage := Some(targetLang);
      best := SelectBestVoice(targetLang);
    }

    /**
     * The second half of `autoSelectVoice`: the best voice for `lang`, when
     * there is one and the selector does not already show it, becomes the
     * selector's value and the stored voice.
     */
    method SelectBestVoice(lang: string) returns (best: Option<nat>)
      modifies this`selectValue, this`selectedVoiceIndex
      ensures BestFor(voices, lang, best)
      ensures best.Some? && old(selectValue) != Some(best.value) ==>
                selectValue == Some(best.value) && selectedVoiceIndex == Some(best.value)
      ensures best.None? || old(selectValue) == Some(best.value) ==>
                unchanged(this`selectValue, this`selectedVoiceIndex)
    {
      best := FindBestVoice(voices, lang);
      if best.Some? && selectValue != Some(best.value) {
        selectValue := Some(best.value);
        selectedVoiceIndex := Some(best.value);
      }
    }

    /**
     * `processText`: nothing happens for white-space-only input; otherwise the
     * trimmed input is split into sentences (at least one), no sentence is
     * current, and play-all and pause are off.  The utterance being spoken is
     * not stopped.
     */
    method ProcessText(input: string)
      requires Wellformed()
      modifies this
      ensures Trim(input) == [] ==> unchanged(this)
      ensures Trim(input) != [] ==>
                && Valid()
                && sentences == SplitIntoSentences(Trim(input)) && |sentences| >= 1
                && currentSentenceIndex == -1 && isProcessed && !playAllMode && !isPaused
      ensures unchanged(this`voices, this`currentUtterance, this`isPlaying, this`selectedVoiceIndex, this`selectValue)
      ensures unchanged(this`lastDetectedLanguage, this`utterancesMade, this`pendingAdvances)
    {
      var inputText := Trim(input);
      if inputText == [] {
        return;
      }
      ProcessedSentences(input);
      LoadSentences(SplitIntoSentences(inputText));
    }

    /** The state change of `processText` once the sentences are known. */
    method LoadSentences(ss: seq<string>)
      requires AllTrimmed(ss) && |ss| >= 1
      modifies this
      ensures Valid() && sentences == ss
      ensures currentSentenceIndex == -1 && isProcessed && !playAllMode && !isPaused
      ensures unchanged(this`voices, this`currentUtterance, this`isPlaying, this`selectedVoiceIndex, this`selectValue)
      ensures unchanged(this`lastDetectedLanguage, this`utterancesMade, this`pendingAdvances)
    {
      sentences := ss;
      currentSentenceIndex := -1;
      isProcessed := true;
      playAllMode := false;
      isPaused := false;
    }

    /** `stopCurrentUtterance`: cancels speech when an utterance is current. */
    method StopCurrentUtterance()
      modifies this
      ensures currentUtterance.None?
      ensures isPlaying == (old(isPlaying) && old(currentUtterance).None?)
      ensures unchanged(this`voices, this`sentences, this`currentSentenceIndex, this`isPaused, this`playAllMode)
      ensures unchanged(this`isProcessed, this`selectedVoiceIndex, this`selectValue, this`lastDetectedLanguage)
      ensures unchanged(this`utterancesMade, this`pendingAdvances)
    {
      if currentUtterance.Some? {
        isPlaying := false;
        currentUtterance := None;
      }
    }

    /**
     * `playSentence`: stops what is playing, makes `index` the current
     * sentence and hands it to the engine as a new utterance with the voice
     * `ResolveVoice` picks, which also updates the stored voice index and the
     * selector.
     */
    method PlaySentence(index: nat)
      requires Wellformed() && index < |sentences|
      modifies this
      ensures Valid()
      ensures Played(index, old(utterancesMade), old(selectedVoiceIndex), old(selectValue))
      ensures isPlaying == (old(isPlaying) && old(currentUtterance).None?)
      ensures unchanged(this`voices, this`sentences, this`isPaused, this`playAllMode, this`isProcessed)
      ensures unchanged(this`lastDetectedLanguage, this`pendingAdvances)
    {
      StopCurrentUtterance();
      currentSentenceIndex := index;
      var choice := ResolveVoice(selectedVoiceIndex, selectValue, |voices|);
      selectedVoiceIndex := Some(choice.stored);
      selectValue := choice.select;
      currentUtterance := Some(Utterance(utterancesMade, index, sentences[index], choice.voice));
      utterancesMade := utterancesMade + 1;
    }

    /** `playNextSentence`: plays the current sentence when the index is in range, otherwise does nothing. */
    method PlayNextSentence()
      requires Wellformed() && currentSentenceIndex >= 0
      modifies this
      ensures Wellformed() && currentSentenceIndex == old(currentSentenceIndex)
      ensures currentSentenceIndex < |sentences| ==>
                && Played(currentSentenceIndex, old(utterancesMade), old(selectedVoiceIndex), old(selectValue))
                && isPlaying == (old(isPlaying) && old(currentUtterance).None?)
      ensures currentSentenceIndex >= |sentences| ==> unchanged(this)
      ensures unchanged(this`voices, this`sentences, this`isPaused, this`playAllMode, this`isProcessed)
      ensures unchanged(this`lastDetectedLanguage, this`pendingAdvances)
    {
      if currentSentenceIndex < |sentences| {
        PlaySentence(currentSentenceIndex);
      }
    }

    /**
     * `togglePlayAll`: with no sentences nothing changes.  In play-all mode it
     * pauses, keeping the index; when paused it resumes by replaying the
     * current sentence; otherwise it starts play-all from the current sentence,
     * or from sentence 0 when none has been played.  An index past the last
     * sentence is kept and nothing is spoken.
     */
    method TogglePlayAll()
      requires Wellformed()
      modifies this
      ensures Wellformed() && (old(Valid()) ==> Valid())
      ensures |old(sentences)| == 0 ==> unchanged(this)
      ensures |old(sentences)| > 0 && old(playAllMode) ==>
                && !playAllMode && isPaused && currentSentenceIndex == old(currentSentenceIndex)
                && currentUtterance.None? && isPlaying == (old(isPlaying) && old(currentUtterance).None?)
                && unchanged(this`utterancesMade, this`selectedVoiceIndex, this`selectValue)
      ensures |old(sentences)| > 0 && !old(playAllMode) ==>
                && playAllMode && !isPaused
                && currentSentenceIndex ==
                   (if !old(isPaused) && old(currentSentenceIndex) == -1 then 0 else old(currentSentenceIndex))
      ensures |old(sentences)| > 0 && !old(playAllMode) && currentSentenceIndex < |sentences| ==>
                && Played(currentSentenceIndex, old(utterancesMade), old(selectedVoiceIndex), old(selectValue))
                && isPlaying == (old(isPlaying) && old(currentUtterance).None?)
      ensures |old(sentences)| > 0 && !old(playAllMode) && currentSentenceIndex >= |sentences| ==>
                unchanged(this`currentUtterance, this`isPlaying, this`utterancesMade, this`selectedVoiceIndex, this`selectValue)
      ensures unchanged(this`voices, this`sentences, this`isProcessed, this`lastDetectedLanguage, this`pendingAdvances)
    {
      if |sentences| == 0 {
        return;
      }
      if playAllMode {
        playAllMode := false;
        isPaused := true;
        StopCurrentUtterance();
      } else if isPaused {
        playAllMode := true;
        isPaused := false;
        PlayNextSentence();
      } else {
        playAllMode := true;
        isPaused := false;
        if currentSentenceIndex == -1 {
          currentSentenceIndex := 0;
        }
        PlayNextSentence();
      }
    }

    /** `nextSentence`: once text is processed, plays the sentence after the current one if there is one. */
    method NextSentence()
      requires Wellformed()
      modifies this
      ensures Wellformed() && (old(Valid()) ==> Valid())
      ensures !old(isProcessed) || old(currentSentenceIndex) >= |old(sentences)| - 1 ==> unchanged(this)
      ensures old(isProcessed) && old(currentSentenceIndex) < |old(sentences)| - 1 ==>
                && Played(old(currentSentenceIndex) + 1, old(utterancesMade), old(selectedVoiceIndex), old(selectValue))
                && isPlaying == (old(isPlaying) && old(currentUtterance).None?)
      ensures unchanged(this`voices, this`sentences, this`isPaused, this`playAllMode, this`isProcessed)
      ensures unchanged(this`lastDetectedLanguage, this`pendingAdvances)
    {
      if !isProcessed {
        return;
      }
      if currentSentenceIndex < |sentences| - 1 {
        var nextIndex := currentSentenceIndex + 1;
        PlaySentence(nextIndex);
      }
    }

    /**
     * `previousSentence`: once text is processed, plays the sentence before the
     * current one if there is one.  When the index is past the last sentence
     * by more than one, there is no card for the previous index either:
     * `playSentence` stops speech and sets the index, then fails on the
     * missing card, and nothing is spoken.
     */
    method PreviousSentence()
      requires Wellformed()
      modifies this
      ensures Wellformed() && (old(Valid()) ==> Valid())
      ensures !old(isProcessed) || old(currentSentenceIndex) <= 0 ==> unchanged(this)
      ensures old(isProcessed) && 0 < old(currentSentenceIndex) <= |old(sentences)| ==>
                && Played(old(currentSentenceIndex) - 1, old(utterancesMade), old(selectedVoiceIndex), old(selectValue))
                && isPlaying == (old(isPlaying) && old(currentUtterance).None?)
      ensures old(isProcessed) && old(currentSentenceIndex) > |old(sentences)| ==>
                && currentSentenceIndex == old(currentSentenceIndex) - 1 && currentUtterance.None?
                && isPlaying == (old(isPlaying) && old(currentUtterance).None?)
                && unchanged(this`utterancesMade, this`selectedVoiceIndex, this`selectValue)
      ensures unchanged(this`voices, this`sentences, this`isPaused, this`playAllMode, this`isProcessed)
      ensures unchanged(this`lastDetectedLanguage, this`pendingAdvances)
    {
      if !isProcessed {
        return;
      }
      if currentSentenceIndex > 0 {
        var prevIndex := currentSentenceIndex - 1;
        if prevIndex < |sentences| {
          PlaySentence(prevIndex);
        } else {
          StopCurrentUtterance();
          currentSentenceIndex := prevIndex;
        }
      }
    }

    /** `stopAll`: stops speech, turns play-all and pause off and resets the index to -1 for the next play. */
    method StopAll()
      requires Wellformed()
      modifies this
      ensures Valid()
      ensures !playAllMode && !isPaused && currentSentenceIndex == -1 && currentUtterance.None?
      ensures isPlaying == (old(isPlaying) && old(currentUtterance).None?)
      ensures unchanged(this`voices, this`sentences, this`isProcessed, this`selectedVoiceIndex, this`selectValue)
      ensures unchanged(this`lastDetectedLanguage, this`utterancesMade, this`pendingAdvances)
    {
      StopCurrentUtterance();
      playAllMode := false;
      isPaused := false;
      currentSentenceIndex := -1;
    }

    /** `clearText`: stops everything and forgets the sentences. */
    method ClearText()
      requires Wellformed()
      modifies this
      ensures Valid()
      ensures sentences == [] && !isProcessed && currentSentenceIndex == -1
      ensures !playAllMode && !isPaused && currentUtterance.None?
      ensures isPlaying == (old(isPlaying) && old(currentUtterance).None?)
      ensures unchanged(this`voices, this`selectedVoiceIndex, this`selectValue)
      ensures unchanged(this`lastDetectedLanguage, this`utterancesMade, this`pendingAdvances)
    {
      StopAll();
      sentences := [];
      currentSentenceIndex := -1;
      isProcessed := false;
    }

    /** The utterance's `onstart` handler. */
    method OnStart()
      modifies this
      ensures isPlaying
      ensures unchanged(this`voices, this`sentences, this`currentUtterance, this`currentSentenceIndex)
      ensures unchanged(this`isPaused, this`playAllMode, this`isProcessed, this`selectedVoiceIndex, this`selectValue)
      ensures unchanged(this`lastDetectedLanguage, this`utterancesMade, this`pendingAdvances)
    {
      isPlaying := true;
    }

    /**
     * The `onend` handler of utterance `u`: in play-all mode it schedules the
     * advance when a sentence follows `u`'s and otherwise ends play-all;
     * outside play-all it changes nothing but `isPlaying`.
     */
    method OnEnd(u: Utterance)
      requires Wellformed()
      modifies this
      ensures !isPlaying
      ensures old(playAllMode) && u.index < |sentences| - 1 ==>
                playAllMode && pendingAdvances == old(pendingAdvances) + [u.id]
      ensures old(playAllMode) && u.index >= |sentences| - 1 ==> !playAllMode && pendingAdvances == old(pendingAdvances)
      ensures !old(playAllMode) ==> !playAllMode && pendingAdvances == old(pendingAdvances)
      ensures Wellformed() && (old(Valid()) ==> Valid())
      ensures unchanged(this`voices, this`sentences, this`currentUtterance, this`currentSentenceIndex)
      ensures unchanged(this`isPaused, this`isProcessed, this`selectedVoiceIndex, this`selectValue)
      ensures unchanged(this`lastDetectedLanguage, this`utterancesMade)
    {
      isPlaying := false;
      if playAllMode && u.index < |sentences| - 1 {
        pendingAdvances := pendingAdvances + [u.id];
      } else if playAllMode {
        playAllMode := false;
      }
    }

    /** The utterance's `onerror` handler. */
    method OnError()
      modifies this
      ensures !isPlaying
      ensures unchanged(this`voices, this`sentences, this`currentUtterance, this`currentSentenceIndex)
      ensures unchanged(this`isPaused, this`playAllMode, this`isProcessed, this`selectedVoiceIndex, this`selectValue)
      ensures unchanged(this`lastDetectedLanguage, this`utterancesMade, this`pendingAdvances)
    {
      isPlaying := false;
    }

    /**
     * The oldest scheduled advance fires, as the source's callback does it:
     * the index goes up by one and `playNextSentence` runs, whatever happened
     * in the meantime.  The index can leave the range of the sentences.
     */
    method FireAdvanceAsWritten()
      requires Wellformed() && pendingAdvances != []
      modifies this
      ensures Wellformed()
      ensures pendingAdvances == old(pendingAdvances)[1..]
      ensures currentSentenceIndex == old(currentSentenceIndex) + 1
      ensures currentSentenceIndex < |sentences| ==>
                && Played(currentSentenceIndex, old(utterancesMade), old(selectedVoiceIndex), old(selectValue))
                && isPlaying == (old(isPlaying) && old(currentUtterance).None?)
      ensures currentSentenceIndex >= |sentences| ==>
                unchanged(this`currentUtterance, this`isPlaying, this`utterancesMade, this`selectedVoiceIndex, this`selectValue)
      ensures unchanged(this`voices, this`sentences, this`isPaused, this`playAllMode, this`isProcessed)
      ensures unchanged(this`lastDetectedLanguage)
    {
      pendingAdvances := pendingAdvances[1..];
      currentSentenceIndex := currentSentenceIndex + 1;
      PlayNextSentence();
    }

    /**
     * The oldest scheduled advance belongs to the utterance still current,
     * play-all is still on and a next sentence exists.
     */
    predicate AdvanceIsLive()
      reads this`pendingAdvances, this`playAllMode, this`currentUtterance, this`currentSentenceIndex, this`sentences
    {
      && pendingAdvances != []
      && playAllMode
      && currentUtterance.Some? && currentUtterance.value.id == pendingAdvances[0]
      && currentSentenceIndex < |sentences| - 1
    }

    /**
     * The oldest scheduled advance fires, corrected: it moves to the next
     * sentence and plays it only while it is live, so a stop, a pause, a
     * restart or a manual step in the meantime is respected and the index
     * stays in range.
     */
    method FireAdvance()
      requires Wellformed() && pendingAdvances != []
      modifies this
      ensures Wellformed() && (old(Valid()) ==> Valid())
      ensures pendingAdvances == old(pendingAdvances)[1..]
      ensures old(AdvanceIsLive()) ==>
                && Played(old(currentSentenceIndex) + 1, old(utterancesMade), old(selectedVoiceIndex), old(selectValue))
                && isPlaying == (old(isPlaying) && old(currentUtterance).None?)
      ensures !old(AdvanceIsLive()) ==>
                && unchanged(this`currentUtterance, this`isPlaying, this`utterancesMade, this`selectedVoiceIndex)
                && unchanged(this`selectValue, this`currentSentenceIndex)
      ensures unchanged(this`voices, this`sentences, this`isPaused, this`playAllMode, this`isProcessed)
      ensures unchanged(this`lastDetectedLanguage)
    {
      var live := AdvanceIsLive();
      pendingAdvances := pendingAdvances[1..];
      if live {
        currentSentenceIndex := currentSentenceIndex + 1;
        PlayNextSentence();
      }
    }
  }
}
