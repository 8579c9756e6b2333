/**
 * Event sequences of `ShadowReader` (assets/shadowReader.js) that show what
 * the 500 ms advance of the end handler does when the user acts before it
 * fires, as written and corrected, and which voice the first sentence is
 * spoken with after the selector is built.
 */
module Scenarios {
  import opened Opt
  import opened Strings
  import opened Sentences
  import opened Voices
  import opened VoiceSelect
  import opened Reader

  /** Text that splits into sentences is not all white space. */
  lemma SentencesNeedText(text: string)
    requires |SplitIntoSentences(Trim(text))| >= 1
    ensures Trim(text) != []
  {
    assert SplitIntoSentences([]) == [];
  }

  /** A reader with the sentences of `text` and play-all started on sentence 0. */
  method StartPlayAll(voices: seq<Voice>, text: string) returns (r: ShadowReader)
    requires |SplitIntoSentences(Trim(text))| >= 2
    ensures r.Valid() && r.sentences == SplitIntoSentences(Trim(text))
    ensures r.playAllMode && r.currentSentenceIndex == 0 && r.Speaking(0)
    ensures r.currentUtterance.value.id == 0 && r.utterancesMade == 1
    ensures r.pendingAdvances == [] && fresh(r)
  {
    SentencesNeedText(text);
    r := new ShadowReader(voices, None);
    r.ProcessText(text);
    r.TogglePlayAll();
  }

  /**
   * Play-all, sentence 0 ends, Stop is pressed within the 500 ms, then the
   * advance fires as written: sentence 0 is spoken again with play-all off.
   */
  method StopThenLateAdvance(voices: seq<Voice>, text: string) returns (r: ShadowReader)
    requires |SplitIntoSentences(Trim(text))| >= 2
    ensures !r.playAllMode && r.currentSentenceIndex == 0 && r.Speaking(0)
  {
    r := StartPlayAll(voices, text);
    r.OnEnd(r.currentUtterance.value);
    r.StopAll();
    r.FireAdvanceAsWritten();
  }

  /** The same events with the corrected advance: nothing is spoken after Stop and the index stays -1. */
  method StopThenAdvance(voices: seq<Voice>, text: string) returns (r: ShadowReader)
    requires |SplitIntoSentences(Trim(text))| >= 2
    ensures !r.playAllMode && r.currentSentenceIndex == -1 && r.currentUtterance.None?
    ensures r.Valid() && r.pendingAdvances == []
  {
    r := StartPlayAll(voices, text);
    r.OnEnd(r.currentUtterance.value);
    r.StopAll();
    r.FireAdvance();
  }

  /**
   * Play-all, sentence 0 ends, Pause is pressed within the 500 ms, then the
   * advance fires as written: sentence 1 is spoken while the reader is paused.
   */
  method PauseThenLateAdvance(voices: seq<Voice>, text: string) returns (r: ShadowReader)
    requires |SplitIntoSentences(Trim(text))| >= 2
    ensures r.isPaused && !r.playAllMode && r.currentSentenceIndex == 1 && r.Speaking(1)
  {
    r := StartPlayAll(voices, text);
    r.OnEnd(r.currentUtterance.value);
    r.TogglePlayAll();
    r.FireAdvanceAsWritten();
  }

  /** The same events with the corrected advance: nothing is spoken while paused and the index stays 0. */
  method PauseThenAdvance(voices: seq<Voice>, text: string) returns (r: ShadowReader)
    requires |SplitIntoSentences(Trim(text))| >= 2
    ensures r.isPaused && !r.playAllMode && r.currentSentenceIndex == 0 && r.currentUtterance.None?
    ensures r.Valid() && r.pendingAdvances == []
  {
    r := StartPlayAll(voices, text);
    r.OnEnd(r.currentUtterance.value);
    r.TogglePlayAll();
    r.FireAdvance();
  }

  /**
   * Play-all, sentence 0 ends, Clear is pressed within the 500 ms, then the
   * advance fires as written: the index is 0 although there are no sentences.
   */
  method ClearThenLateAdvance(voices: seq<Voice>, text: string) returns (r: ShadowReader)
    requires |SplitIntoSentences(Trim(text))| >= 2
    ensures r.sentences == [] && r.currentSentenceIndex == 0 && !r.Valid()
    ensures r.currentUtterance.None?
  {
    r := StartPlayAll(voices, text);
    r.OnEnd(r.currentUtterance.value);
    r.ClearText();
    r.FireAdvanceAsWritten();
  }

  /** The same events with the corrected advance: the index stays -1 and the reader stays valid. */
  method ClearThenAdvance(voices: seq<Voice>, text: string) returns (r: ShadowReader)
    requires |SplitIntoSentences(Trim(text))| >= 2
    ensures r.sentences == [] && r.currentSentenceIndex == -1 && r.currentUtterance.None?
    ensures r.Valid() && r.pendingAdvances == []
  {
    r := StartPlayAll(voices, text);
    r.OnEnd(r.currentUtterance.value);
    r.ClearText();
    r.FireAdvance();
  }

  /**
   * Play-all, sentence 0 ends, Stop, Play All again, then the first advance
   * fires as written: the restarted sentence 0 is cut off and sentence 1 is
   * spoken.
   */
  method StopRestartThenLateAdvance(voices: seq<Voice>, text: string) returns (r: ShadowReader)
    requires |SplitIntoSentences(Trim(text))| >= 2
    ensures r.playAllMode && r.currentSentenceIndex == 1 && r.Speaking(1)
    ensures r.utterancesMade == 3
  {
    r := StartPlayAll(voices, text);
    r.OnEnd(r.currentUtterance.value);
    r.StopAll();
    r.TogglePlayAll();
    r.FireAdvanceAsWritten();
  }

  /** The same events with the corrected advance: the stale advance is dropped and sentence 0 keeps playing. */
  method StopRestartThenAdvance(voices: seq<Voice>, text: string) returns (r: ShadowReader)
    requires |SplitIntoSentences(Trim(text))| >= 2
    ensures r.playAllMode && r.currentSentenceIndex == 0 && r.Speaking(0)
    ensures r.utterancesMade == 2 && r.pendingAdvances == [] && r.Valid()
  {
    r := StartPlayAll(voices, text);
    r.OnEnd(r.currentUtterance.value);
    r.StopAll();
    r.TogglePlayAll();
    r.FireAdvance();
  }

  /**
   * Two sentences, play-all, sentence 0 ends, Next is pressed within the
   * 500 ms, then the advance fires as written: the index runs past the last
   * sentence.  The end of sentence 1 then ends play-all, and Play All turns
   * it on again with nothing spoken.
   */
  method NextThenLateAdvance(voices: seq<Voice>, text: string) returns (r: ShadowReader)
    requires |SplitIntoSentences(Trim(text))| == 2
    ensures r.currentSentenceIndex == |r.sentences| == 2 && !r.Valid()
    ensures r.playAllMode && r.utterancesMade == 2
  {
    r := StartPlayAll(voices, text);
    r.OnEnd(r.currentUtterance.value);
    r.NextSentence();
    r.FireAdvanceAsWritten();
    r.OnEnd(r.currentUtterance.value);
    r.TogglePlayAll();
  }

  /** The same first events with the corrected advance: sentence 1, chosen by Next, keeps playing. */
  method NextThenAdvance(voices: seq<Voice>, text: string) returns (r: ShadowReader)
    requires |SplitIntoSentences(Trim(text))| == 2
    ensures r.currentSentenceIndex == 1 && r.Speaking(1) && r.Valid()
    ensures r.utterancesMade == 2 && r.pendingAdvances == []
  {
    r := StartPlayAll(voices, text);
    r.OnEnd(r.currentUtterance.value);
    r.NextSentence();
    r.FireAdvance();
  }

  /**
   * The engine's default voice is listed second among the English voices:
   * the selector is built with it selected, and Play All speaks the first
   * sentence with it.
   */
  method DefaultVoiceSpeaks(text: string) returns (r: ShadowReader)
    requires |SplitIntoSentences(Trim(text))| >= 1
    ensures r.Speaking(0) && r.currentUtterance.value.voice == Some(1)
    ensures r.selectedVoiceIndex == Some(1) && r.selectValue == Some(1)
  {
    SentencesNeedText(text);
    DefaultVoiceChosen();
    r := new ShadowReader([Voice("A", "en-US", false), Voice("B", "en-GB", true)], None);
    r.ProcessText(text);
    r.TogglePlayAll();
  }
}
