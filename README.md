# ShadowReader, modelled in Dafny

ShadowReader is a browser tool for shadowing practice, a language-learning
technique where the learner repeats text after hearing it spoken. The user
pastes a text and the reader splits it into sentences. The sentences are
spoken with the browser's speech synthesis, either one at a time or in a
play-all sequence. That sequence can be paused, resumed, stepped forward or
back, stopped and cleared. While a sentence is spoken, the word the engine
reports reaching is highlighted. The reader also decides whether a text is
Arabic, which sets its direction, and it picks the best English or Arabic
voice the engine offers.

This project models the `ShadowReader` class of `assets/shadowReader.js`,
one module per concern:

- `Opt` (`option.dfy`): the `Option` datatype, which stands for the source's
  `null`.
- `Strings` (`strings.dfy`): the JavaScript string operations the class
  relies on.
  - The `\s` character class, which is also the set `trim` removes.
  - `trim`, `indexOf` with its clamped start, `includes`, `split('-')[0]`,
    ASCII lower-casing, and the removal of all white space.
- `Sentences` (`sentences.dfy`): `splitIntoSentences`.
  - The global matches of "non-terminators, then terminators", with a
    fallback to the whole text, then trimming and dropping empty pieces.
- `Language` (`language.dfy`): `detectLanguage`, the share of Arabic-block
  characters among the non-space characters.
- `Markup` (`markup.dfy`): `wrapWordsInSpans` and the word count of
  `updateStats`, with a reader for the generated markup.
- `Highlight` (`highlight.dfy`): `highlightCurrentWord`.
  - How a character offset reported by the engine becomes the index of a
    word span.
  - First an exact pass over estimated word ranges, then a nearest-position
    fallback.
- `Voices` (`voices.dfy`): `findBestEnglishVoice`, `findBestArabicVoice`, and
  the voice fallback of `playSentence`.
- `VoiceSelect` (`selector.dfy`): what `populateVoiceSelect` leaves behind,
  which is the stored voice index and the option the selector shows.
- `Reader` (`reader.dfy`): the class itself, as a Dafny `class` with the
  source's fields.
  - Every method that updates them: process, play, play-all/pause/resume,
    next, previous, stop and clear.
  - The speech engine's start, end and error events.
  - Building the voice selector, and choosing a voice for the language of
    the text typed in.
  - The 500 ms advance timer. It is a queue of scheduled callbacks, and each
    one fires later by a separate call.
- `Scenarios` (`scenarios.dfy`): event sequences in which the user acts
  before a scheduled advance fires, and the voice the first sentence is
  spoken with.

The class keeps an invariant, `Wellformed`, through every operation:

- The sentences are trimmed and non-empty.
- Text counts as processed exactly when there are sentences.
- Play-all and pause are never on together.
- Either of them implies a current sentence.

`Valid` adds that the current index is -1 or names a sentence. The source's
advance timer can break `Valid`; see Findings.

Three behaviours of the code that the model keeps as they are:

- Resume replays the current sentence: `playNextSentence` runs without an
  increment (assets/shadowReader.js:640-644).
- Play All after a finished run keeps the index at the last sentence and
  plays it again; only an index of -1 starts from sentence 0
  (assets/shadowReader.js:646-659).
- `processText` never stops the utterance being spoken
  (assets/shadowReader.js:385-410).

## Model

| member | source | states |
|---|---|---|
| Strings.Trim | assets/shadowReader.js:386 | The result neither starts nor ends with white space, and it is empty exactly when the input is all white space |
| Strings.TrimIsSlice | assets/shadowReader.js:386 | Trimming keeps one contiguous piece of the input, and everything it cuts off on either side is white space |
| Strings.IndexOf | assets/shadowReader.js:587 | `indexOf` returns an occurrence at or after the clamped start and none earlier, or -1 exactly when no occurrence exists from that start |
| Strings.SpaceRunAt | assets/shadowReader.js:572-573 | The length of the white-space run that `match(/^\s+/)` takes at a position: every character it covers is white space, the character after it is not, it stays inside the string, and it is 0 past the end |
| Strings.Contains | assets/shadowReader.js:264 | `includes` is true exactly when the text occurs somewhere in the string |
| Strings.ToLower | assets/shadowReader.js:262 | Lower-casing keeps the length, maps A-Z to a-z and leaves every other character alone |
| Strings.BeforeFirst | assets/shadowReader.js:262 | `split('-')[0]` is the prefix before the first `-`, it contains no `-`, and a `-` follows it unless it is the whole string |
| Strings.LexLessIrreflexive | assets/shadowReader.js:79 | No string sorts before itself in the code-unit order of `sort()` |
| Strings.LexLessTransitive | assets/shadowReader.js:79 | The code-unit order of `sort()` is transitive |
| Strings.LexLessTotal | assets/shadowReader.js:79 | Of two different strings, one sorts before the other |
| Language.ArabicWithinNonSpace | assets/shadowReader.js:141-144 | The Arabic-block count never exceeds the count of non-space characters |
| Language.Percentage | assets/shadowReader.js:145 | The percentage times the non-space count is the Arabic count. It is 0 with no non-space character, lies in 0..1, and exceeds 0.3 exactly when Arabic characters are more than 3/10 of the non-space ones |
| Language.DetectLanguage | assets/shadowReader.js:140-152 | The direction is RTL exactly when the text is Arabic. The text is Arabic exactly when Arabic characters are more than 30% of its non-space characters. The percentage is that exact ratio, in 0..1. All-space text is LTR with percentage 0 |
| Sentences.MatchEnd | assets/shadowReader.js:381 | A match starting at a non-terminator is non-empty, and what follows it, if anything, is not a terminator (the match is maximal) |
| Sentences.FirstMatchShape | assets/shadowReader.js:381 | In a single match, every character after the first terminator is a terminator |
| Sentences.MatchesShape | assets/shadowReader.js:381 | Every global match is non-empty, starts with a non-terminator and has its terminators only at its end |
| Sentences.MatchesCoverText | assets/shadowReader.js:381 | Put back together, the matches are the text minus its leading terminators: no other character is skipped |
| Sentences.NoMatchMeansAllTerminators | assets/shadowReader.js:381 | With no match, the text consists of terminators only, so the whole-text fallback has its terminators at its end |
| Sentences.SplitIntoSentences | assets/shadowReader.js:380-383 | Every sentence is non-empty and neither starts nor ends with white space |
| Sentences.TrimAndDropEmpty | assets/shadowReader.js:382 | What trim-and-filter keeps is non-empty and neither starts nor ends with white space, and there are no more pieces than before |
| Sentences.TrimAndDropEmptyKeepsText | assets/shadowReader.js:382 | Trimming and dropping empty pieces loses no non-space character and keeps their order |
| Sentences.SentencesAreTrimmedAndEndWithTerminators | assets/shadowReader.js:380-383 | Every sentence is non-empty and trimmed, and once a terminator appears in it only terminators follow |
| Sentences.SentencesKeepText | assets/shadowReader.js:380-383 | The non-space characters of the sentences, in order, are those of the text after its leading terminators, or of the whole text when nothing matches |
| Sentences.TrimmedTextHasSentence | assets/shadowReader.js:380-383 | A non-empty trimmed text always yields at least one sentence |
| Markup.SplitKeepingSpacesShape | assets/shadowReader.js:452 | `split(/(\s+)/)` alternates pieces without white space with non-empty white-space runs, only the first and last piece may be empty, and the pieces concatenate back to the sentence |
| Markup.WrapRoundTrip | assets/shadowReader.js:450-461 | Reading back the markup of a sentence gives the sentence exactly, and its word spans hold exactly the words `updateStats` counts, in order |
| Markup.WordsAreTheNonSpaceText | assets/shadowReader.js:751-755 | Every counted word is a non-empty run without white space, and together the words are exactly the non-space characters of the sentence. Where one word ends and the next begins is fixed by `Highlight.TrimmedLayout` |
| Markup.WordCountIsSpanCount | assets/shadowReader.js:751-755 | The word total shown in the statistics equals the number of word spans rendered on the cards |
| Highlight.Abs | assets/shadowReader.js:590 | `Math.abs` is the argument or its negation, and never negative |
| Highlight.TrimmedLayout | assets/shadowReader.js:450-461 | A sentence that neither starts nor ends with white space, as every sentence does, is exactly its counted words separated by non-empty white-space runs, one run fewer than words, so consecutive words are always split by white space |
| Highlight.ScanMatchesLayout | assets/shadowReader.js:551-579 | On words separated by white-space runs, the running offset of the exact pass puts every word exactly where it starts in the sentence |
| Highlight.ScanEndMatchesLayout | assets/shadowReader.js:559-560 | On such a layout, the estimated range of a word ends exactly where the word ends |
| Highlight.PositionFound | assets/shadowReader.js:586-587 | The position the fallback records for word k is -1 exactly when its trimmed text does not occur at or after the clamped search start, and otherwise the first occurrence there |
| Highlight.FallbackCanPlaceWordInsideEarlierOne | assets/shadowReader.js:586-587 | In "xyz y z", word 2 ("z", which starts at 6) is found at 2, inside "xyz": the search starts after the first occurrence of the previous word's text, which is the "y" inside "xyz" |
| Highlight.ExactPass | assets/shadowReader.js:549-579 | The exact pass answers the first word whose estimated range (both ends inclusive) holds the offset, or -1 exactly when no range holds it |
| Highlight.ExactPassFindsSpokenWord | assets/shadowReader.js:549-579 | On a trimmed, non-empty sentence, word i lies at its layout start. Any offset from its first character to just past its last falls in its estimated range and in no earlier word's range, so the exact pass highlights that word |
| Highlight.FindWord | assets/shadowReader.js:586-587 | The fallback finds word k at an occurrence of its trimmed text at or after the clamped search start, or at -1, and that is the position `Positions` records for it |
| Highlight.NearestStep | assets/shadowReader.js:589-595 | One step of the fallback keeps its answer the nearest found word so far, the first of equally near ones |
| Highlight.NearestPass | assets/shadowReader.js:582-597 | The fallback answers the found word nearest the offset (the first of equals), or -1 exactly when no word is found in the sentence |
| Highlight.WordIndexAt | assets/shadowReader.js:542-601 | With no words the answer is -1. Otherwise it is the exact pass's word when some estimated range holds the offset, and else the nearest found word, or -1 when none is found |
| Voices.LangPrefix | assets/shadowReader.js:262 | The language prefix is no longer than the tag and contains no `-` |
| Voices.IndexIn | assets/shadowReader.js:315-316 | The first position of a name in the preferred list, or -1 exactly when the name is not on it |
| Voices.NaturalPass | assets/shadowReader.js:258-279 | The first natural Andrew voice if there is one. Otherwise the first natural English voice, or nothing exactly when there is none |
| Voices.BestRankedStep | assets/shadowReader.js:315-320 | A voice replaces the answer of the preferred-name loop exactly when its rank is strictly better, which keeps the best rank so far, first on ties |
| Voices.BestRankedAll | assets/shadowReader.js:309-324 | At the end of the loop, the answer is nothing exactly when no English voice has a preferred name, and otherwise the best-ranked such voice, the first on ties |
| Voices.PreferredPass | assets/shadowReader.js:283-324 | The English voice whose exact name comes earliest on the preferred list, the first such voice on ties, or nothing exactly when no English voice has a listed name |
| Voices.QualityPass | assets/shadowReader.js:326-353 | The first non-David English voice with a quality keyword. Otherwise the first non-David English voice, or nothing exactly when there is none |
| Voices.FindBestEnglishVoice | assets/shadowReader.js:254-356 | `BestEnglish`: an English voice or nothing, by the first rule that applies: natural Andrew, natural, best preferred name, non-David with a quality keyword, any non-David English. Nothing exactly when no rule applies |
| Voices.FindBestArabicVoice | assets/shadowReader.js:358-377 | `BestArabic`: nothing exactly when there is no Arabic voice. Otherwise the first Arabic voice that is Enhanced, Premium, Natural or the default, or else the last Arabic voice |
| Voices.ResolveVoice | assets/shadowReader.js:474-490 | The requested voice when it exists. Otherwise the first voice, which also becomes the stored index and the selector value. With no voices, no voice, and the stored index and selector are left as requested |
| VoiceSelect.FirstFit | assets/shadowReader.js:41-45 | The first voice, in list order, of a group (and a default voice, when asked); none exactly when no voice fits |
| VoiceSelect.FirstFitStep | assets/shadowReader.js:55-69 | One more voice keeps the first fit found so far, or becomes the first fit when it fits |
| VoiceSelect.GroupPickStep | assets/shadowReader.js:55-69 | One more voice of the pass is marked when it is in the group and restores the previous selection, or is a default voice while none is marked; otherwise the mark stays |
| VoiceSelect.PassesChoose | assets/shadowReader.js:50-99 | The last option the three passes mark, which is what they leave stored, is the previous selection when it still names a voice, else the first default "ar" voice, else the first default "en" voice, else none |
| VoiceSelect.MinKeyIndex | assets/shadowReader.js:79 | The index of a voice (within range) whose group key comes first |
| VoiceSelect.MinKeyIndexIsFirstOfFirstGroup | assets/shadowReader.js:79-99 | That voice is the first voice of the group whose key sorts first in code-unit order: no key sorts before it, every other key sorts after it, and no earlier voice has that key |
| VoiceSelect.FirstListed | assets/shadowReader.js:50-99 | The first option of the rebuilt selector names a voice, and there is one exactly when there are voices |
| VoiceSelect.ShownNamesVoice | assets/shadowReader.js:101-105 | After the rebuild the selector shows a voice exactly when there are voices |
| VoiceSelect.StoredNamesVoice | assets/shadowReader.js:101-105 | With voices present and nothing out of range stored before, the stored index names a voice |
| VoiceSelect.SelectionSurvives | assets/shadowReader.js:61-63 | A previous selection of a voice other than voice 0 is stored and shown again after the rebuild |
| VoiceSelect.ShownIsStored | assets/shadowReader.js:61-105 | When the passes choose a voice other than voice 0, the selector shows the stored voice |
| VoiceSelect.KeyOf | assets/shadowReader.js:42 | The group key of a tag "key-rest" is "key" |
| VoiceSelect.DefaultVoiceChosen | assets/shadowReader.js:65-68 | With nothing selected, an "en-US" voice followed by the default "en-GB" voice: the default voice is stored and shown |
| VoiceSelect.StoredAndShownCanDiffer | assets/shadowReader.js:101-105 | With voice 0 ("en-US") selected and an "ar-SA" voice listed first, the rebuild stores voice 0 but shows voice 1 |
| Reader.ProcessedSentences | assets/shadowReader.js:386-397 | Input that is not all white space yields at least one sentence, all of them trimmed and non-empty |
| Reader.DetectTarget | assets/shadowReader.js:220-223 | The language `autoSelectVoice` targets is "ar" exactly when Arabic characters are more than 30% of the non-space ones, else "en" |
| Reader.GroupPass | assets/shadowReader.js:50-77 | One priority pass marks, last, the option `GroupPick` names, and reports whether an option is marked now |
| Reader.OtherPass | assets/shadowReader.js:79-99 | The pass over the other groups marks only the option restoring the previous selection |
| Reader.FindBestVoice | assets/shadowReader.js:234-242 | The voice looked up is the best English voice for "en" and the best Arabic voice otherwise |
| Reader.ShadowReader.constructor | assets/shadowReader.js:6-33 | The initial state is valid: the engine's voices, no sentences, no utterance, index -1, every flag off, no advance pending; the selector is built as `PopulateVoiceSelect` states from the page's selector value |
| Reader.ShadowReader.PopulateVoiceSelect | assets/shadowReader.js:35-106 | The stored index becomes `StoredAfter` and the selector's value `ShownAfter` of the old value and stored index; nothing else changes |
| Reader.ShadowReader.MarkOptions | assets/shadowReader.js:47-99 | The three passes leave the stored index at the option `Chosen` names, or unchanged when they mark none |
| Reader.ShadowReader.LoadVoices | assets/shadowReader.js:30-33 | The new voice list replaces the old one and the selector is rebuilt from it |
| Reader.ShadowReader.SelectVoice | assets/shadowReader.js:134-136 | The chosen voice becomes the stored voice index, and nothing else changes |
| Reader.ShadowReader.AutoSelectVoice | assets/shadowReader.js:219-252 | Nothing changes when the target language is the one detected last. Otherwise it is remembered, the best voice for it is looked up, and when there is one the selector does not show yet it becomes the selector's value and the stored voice |
| Reader.ShadowReader.SelectBestVoice | assets/shadowReader.js:232-248 | The best voice for the language, when there is one and the selector does not show it yet, becomes the selector's value and the stored voice; otherwise both stay |
| Reader.ShadowReader.ProcessText | assets/shadowReader.js:385-401 | White-space-only input changes nothing. Otherwise the sentences of the trimmed input (at least one) replace the old ones, the index is -1, text counts as processed, play-all and pause are off, and the reader stays valid |
| Reader.ShadowReader.LoadSentences | assets/shadowReader.js:397-401 | The state update of processing: new sentences, index -1, processed, play-all and pause off, everything else unchanged |
| Reader.ShadowReader.StopCurrentUtterance | assets/shadowReader.js:725-731 | No utterance afterwards. `isPlaying` is cleared only when there was one, and nothing else changes |
| Reader.ShadowReader.PlaySentence | assets/shadowReader.js:463-540 | The given sentence becomes current and is handed to the engine with the voice `ResolveVoice` picks, which also updates the stored voice and the selector. The play-all and pause flags are kept |
| Reader.ShadowReader.PlayNextSentence | assets/shadowReader.js:682-689 | Plays the current sentence when the index is in range, and otherwise changes nothing |
| Reader.ShadowReader.TogglePlayAll | assets/shadowReader.js:627-663 | With no sentences nothing changes. Play-all pauses and stops speech, keeping the index. Paused resumes by replaying the current sentence. Otherwise play-all starts from the current sentence, or from sentence 0 when none was played. An index past the last sentence is kept and nothing is spoken. Validity is kept |
| Reader.ShadowReader.NextSentence | assets/shadowReader.js:691-700 | Once text is processed, plays the next sentence when there is one; otherwise, also with the index at or past the last sentence, nothing changes |
| Reader.ShadowReader.PreviousSentence | assets/shadowReader.js:702-711 | Once text is processed, plays the previous sentence when there is one, which from one past the end is the last sentence; from further out it stops speech and moves the index back with nothing spoken; otherwise nothing changes |
| Reader.ShadowReader.StopAll | assets/shadowReader.js:713-723 | Speech stops, play-all and pause are off, the index is reset to -1, and sentences and voice choice are kept |
| Reader.ShadowReader.ClearText | assets/shadowReader.js:733-749 | Everything stops, the sentences are forgotten, the index is -1 and text no longer counts as processed |
| Reader.ShadowReader.OnStart | assets/shadowReader.js:506-510 | The start event sets `isPlaying` and changes nothing else |
| Reader.ShadowReader.OnEnd | assets/shadowReader.js:512-529 | The end event clears `isPlaying`. In play-all with a later sentence it schedules one advance. In play-all on the last sentence it ends play-all. Outside play-all it changes nothing else |
| Reader.ShadowReader.OnError | assets/shadowReader.js:531-536 | The error event clears `isPlaying` and changes nothing else |
| Reader.ShadowReader.FireAdvanceAsWritten | assets/shadowReader.js:518-521 | A scheduled advance, as written, always increments the index and plays that sentence if it exists, whatever the play-all and pause flags say and whichever utterance is current; the index may leave the sentences, and the reader stays well-formed |
| Reader.ShadowReader.FireAdvance | assets/shadowReader.js:518-521 | The corrected advance moves on and plays only while it is live: play-all is on, the utterance that scheduled it is still the current one, and a next sentence exists. Otherwise it leaves index and utterance alone. Validity is kept |
| Scenarios.StartPlayAll | assets/shadowReader.js:627-663 | Processing a text of two or more sentences and pressing Play All speaks sentence 0 as the first utterance, with play-all on |
| Scenarios.StopThenLateAdvance | assets/shadowReader.js:512-521 | Sentence 0 ends, Stop is pressed, then the advance fires as written: sentence 0 is spoken again with play-all off |
| Scenarios.StopThenAdvance | assets/shadowReader.js:512-521 | The same events with the corrected advance: nothing is spoken after Stop and the index stays -1 |
| Scenarios.PauseThenLateAdvance | assets/shadowReader.js:512-521 | Sentence 0 ends, Pause is pressed, then the advance fires as written: sentence 1 is spoken while the reader stays paused with play-all off |
| Scenarios.PauseThenAdvance | assets/shadowReader.js:512-521 | The same events with the corrected advance: nothing is spoken while paused and the index stays 0 |
| Scenarios.ClearThenLateAdvance | assets/shadowReader.js:512-521 | Sentence 0 ends, Clear is pressed, then the advance fires as written: the index becomes 0 with no sentences, so the reader is no longer valid |
| Scenarios.ClearThenAdvance | assets/shadowReader.js:512-521 | The same events with the corrected advance: the index stays -1 and the reader stays valid |
| Scenarios.StopRestartThenLateAdvance | assets/shadowReader.js:512-521 | Sentence 0 ends, Stop, Play All again, then the old advance fires as written: the restarted sentence 0 is cut off and sentence 1 is spoken |
| Scenarios.StopRestartThenAdvance | assets/shadowReader.js:512-521 | The same events with the corrected advance: the stale advance is dropped and sentence 0 keeps playing |
| Scenarios.NextThenLateAdvance | assets/shadowReader.js:512-521 | Two sentences, sentence 0 ends, Next is pressed, then the advance fires as written: the index becomes 2, past the last sentence; after sentence 1 ends, Play All turns play-all on and speaks nothing |
| Scenarios.NextThenAdvance | assets/shadowReader.js:512-521 | The same first events with the corrected advance: sentence 1 keeps playing and the index stays 1 |
| Scenarios.DefaultVoiceSpeaks | assets/shadowReader.js:35-106 | With an "en-US" voice listed before the default "en-GB" voice, the selector is built with voice 1 and Play All speaks sentence 0 with voice 1 |

## Left out

- Everything in the DOM is outside the model: rendering of sentence cards, buttons, status messages, alerts, the language warning, and the highlight CSS classes. `highlightCurrentWord` is modelled as the function from offset to span index, and the span texts are the words of the sentence (`Markup.WrapRoundTrip`).
- The speech engine is outside the model. `speechSynthesis.speak` and `cancel` become the `currentUtterance` field. The engine's events are the methods `OnStart`, `OnEnd` and `OnError`, which a caller invokes in any order the engine would.
- Timing is outside the model. The 500 ms `setTimeout` is a queue of pending callbacks, each remembering the utterance that scheduled it, so any interleaving of a late callback with user actions can be expressed. The practice timer and its clock are left out.
- Speech rate and pitch are floating-point values read from the page and passed to the engine untouched, so they are left out.
- `Language.Percentage`: the percentage is the exact rational ratio, not an IEEE double. The 0.3 threshold is compared exactly, so a ratio within rounding error of 3/10 may be classified differently from the browser.
- Strings are sequences of Unicode scalar values. JavaScript counts UTF-16 code units, so character offsets and lengths differ for characters outside the Basic Multilingual Plane.
- `Strings.ToLower`: only A-Z are lower-cased. Every name and keyword compared against is ASCII, but a non-ASCII capital in a voice name is not folded as JavaScript would fold it.
- Sentences are inserted into the markup without HTML escaping, as the source does. `Markup.Unwrap` reads the markup as text, so the model takes markup-like text inside a sentence at face value.
- `Highlight.ExactPassFindsSpokenWord` is stated for offsets from a word's first character to just past its last, as the sentence lays the words out. For an offset further inside a white-space gap, the model states only the general contracts of `ExactPass` and `NearestPass`, not which neighbouring word ends up highlighted.
- The selector's option elements are not modelled. `VoiceSelect` keeps what the rebuild decides: the stored index (`StoredAfter`), the value the selector shows (`ShownAfter`), and the first listed option (`FirstListed`). The group labels and the order of options after the first are not part of the model.
- The groups other than "ar" and "en" are visited in list order rather than in sorted key order. At most one option restores the previous selection, so the option marked is the same. A group key that names an `Object.prototype` member (such as "constructor") is not treated specially.
- `checkLanguageMismatch`, `updateInputDirection`, `showLanguageWarning` and `hideLanguageWarning` only show, hide or style page elements, so they are left out. Where `autoSelectVoice` calls `checkLanguageMismatch`, the model changes nothing.
- The input listener (lines 123-131) is not a separate member. `autoDetectLanguage` is always true, so on non-blank input the listener calls `autoSelectVoice`, which is `Reader.ShadowReader.AutoSelectVoice`.
- The page's selector value before the first rebuild is the constructor parameter `pageSelect`, since the page markup is not part of this model. The engine's voice list at start is the parameter `voices`; a later `voiceschanged` event is a call of `LoadVoices`.
- The selector's value is kept as an already-parsed integer, and `None` stands for the empty value. In the source, the change listener stores the selector's string in `selectedVoiceIndex`, and JavaScript converts it when indexing `voices`. A stored "0" string is truthy where the number 0 is not, but both lead `populateVoiceSelect` to the same stored index and the same shown option.
- `Reader.ShadowReader.ProcessText` takes the input text as a parameter instead of reading it from the page. Its call of `checkLanguageMismatch` (line 396, before the sentences are set) is left out, as above.

## Findings

| source | as written | input that shows it | evidently intended | confidence | as-written member | corrected member |
|---|---|---|---|---|---|---|
| assets/shadowReader.js:518-521 | The 500 ms advance callback scheduled by the end handler increments `currentSentenceIndex` and calls `playNextSentence` without checking that play-all is still on, that the utterance that scheduled it is still the current one, or that a next sentence exists | A text of two or more sentences; Play All; sentence 0 ends; then, within 500 ms: Stop, and the callback speaks sentence 0 again with play-all off; or Pause, and it speaks sentence 1 with pause still set; or Clear, and it leaves the index at 0 with no sentences; or Stop then Play All, and it cuts off the restarted sentence 0 and speaks sentence 1; or, with exactly two sentences, Next, and it moves the index to 2, past the last sentence, after which Play All turns play-all on and speaks nothing | A pending advance does nothing once play-all is off, once the utterance that scheduled it is no longer the current one, or when no next sentence exists, so the index never leaves the sentences | not executed | Scenarios.StopThenLateAdvance, Scenarios.PauseThenLateAdvance, Scenarios.ClearThenLateAdvance, Scenarios.StopRestartThenLateAdvance, Scenarios.NextThenLateAdvance, Reader.ShadowReader.FireAdvanceAsWritten | Scenarios.StopThenAdvance, Scenarios.PauseThenAdvance, Scenarios.ClearThenAdvance, Scenarios.StopRestartThenAdvance, Scenarios.NextThenAdvance, Reader.ShadowReader.FireAdvance |
