/**
 * What `populateVoiceSelect` (assets/shadowReader.js) leaves behind when it
 * rebuilds the voice selector: the stored voice index and the option the
 * selector shows.  Voices are listed in groups keyed by the language tag up
 * to the first '-': the "ar" group, then the "en" group, then the other
 * groups in code-unit order of their keys, each group in list order.  Only
 * the first option of that listing matters here, because it is what the
 * selector shows when no option is marked as selected.
 */
module VoiceSelect {
  import opened Opt
  import opened Strings
  import opened Voices

  /** `voice.lang.split('-')[0]`: the group a voice is listed under, case kept. */
  function GroupKey(v: Voice): string
  {
    BeforeFirst(v.lang, '-')
  }

  /** The voice is listed under `key` and, when `onlyDefault` holds, is the engine's default. */
  predicate Fits(v: Voice, key: string, onlyDefault: bool)
  {
    GroupKey(v) == key && (onlyDefault ==> v.isDefault)
  }

  /** The first voice in list order that fits `key`. */
  function FirstFit(voices: seq<Voice>, key: string, onlyDefault: bool): (r: Option<nat>)
    ensures r.Some? ==> r.value < |voices| && Fits(voices[r.value], key, onlyDefault)
    ensures r.Some? ==> forall j :: 0 <= j < r.value ==> !Fits(voices[j], key, onlyDefault)
    ensures r.None? ==> forall j :: 0 <= j < |voices| ==> !Fits(voices[j], key, onlyDefault)
    decreases |voices|
  {
    if voices == [] then None
    else
      var r := FirstFit(voices[..|voices| - 1], key, onlyDefault);
      if r.Some? then r
      else if Fits(voices[|voices| - 1], key, onlyDefault) then Some(|voices| - 1)
      else None
  }

  /** The previous selector value names an option of the new list: some option's value equals it. */
  predicate Restorable(voices: seq<Voice>, current: Option<int>)
  {
    current.Some? && 0 <= current.value < |voices|
  }

  /**
   * The option a pass over the group `key` marks: the option restoring the
   * previous selection when it is in this group, otherwise, unless an earlier
   * group already marked one, the group's first default voice.
   */
  function GroupPick(voices: seq<Voice>, key: string, current: Option<int>, picked: bool): Option<nat>
  {
    if Restorable(voices, current) && GroupKey(voices[current.value]) == key then Some(current.value as nat)
    else if !picked then FirstFit(voices, key, true)
    else None
  }

  /** Extending the list by one voice: the first fit so far stays, or else the new voice is the first fit when it fits. */
  lemma FirstFitStep(voices: seq<Voice>, i: nat, key: string, onlyDefault: bool)
    requires i < |voices|
    ensures FirstFit(voices[..i + 1], key, onlyDefault) ==
              if FirstFit(voices[..i], key, onlyDefault).Some? then FirstFit(voices[..i], key, onlyDefault)
              else if Fits(voices[i], key, onlyDefault) then Some(i)
              else None
  {
    assert voices[..i + 1][..i] == voices[..i];
  }

  /**
   * A pass over group `key` that has seen one more voice: that voice is marked
   * when it is in the group and restores the previous selection, or is a
   * default voice while nothing is marked; otherwise the mark stays.
   */
  lemma GroupPickStep(voices: seq<Voice>, i: nat, key: string, current: Option<int>, picked: bool)
    requires i < |voices|
    ensures GroupPick(voices[..i + 1], key, current, picked) ==
              if GroupKey(voices[i]) == key && (current == Some(i) ||
                   (!picked && GroupPick(voices[..i], key, current, picked).None? && voices[i].isDefault))
              then Some(i)
              else GroupPick(voices[..i], key, current, picked)
  {
    FirstFitStep(voices, i, key, true);
    if current.Some? && 0 <= current.value < i {
      assert voices[..i + 1][current.value] == voices[..i][current.value];
    }
  }

  /** The option the pass over the remaining groups marks: only the one restoring the previous selection. */
  function OtherPick(voices: seq<Voice>, current: Option<int>): Option<nat>
  {
    if Restorable(voices, current) && GroupKey(voices[current.value]) != "ar" && GroupKey(voices[current.value]) != "en"
    then Some(current.value as nat)
    else None
  }

  /**
   * The voice the three passes settle on: the previous selection when it
   * still names a voice, otherwise the first default voice of the "ar" group,
   * otherwise the first default voice of the "en" group.
   */
  function Chosen(voices: seq<Voice>, current: Option<int>): Option<nat>
  {
    if Restorable(voices, current) then Some(current.value as nat)
    else if FirstFit(voices, "ar", true).Some? then FirstFit(voices, "ar", true)
    else FirstFit(voices, "en", true)
  }

  /** The last option the three passes mark: each pass stores the index of every option it marks. */
  function LastMark(voices: seq<Voice>, current: Option<int>): Option<nat>
  {
    var ar := GroupPick(voices, "ar", current, false);
    var en := GroupPick(voices, "en", current, ar.Some?);
    var other := OtherPick(voices, current);
    if other.Some? then other else if en.Some? then en else ar
  }

  /** The last option the passes mark is exactly the one `Chosen` names, and none when `Chosen` names none. */
  lemma PassesChoose(voices: seq<Voice>, current: Option<int>)
    ensures LastMark(voices, current) == Chosen(voices, current)
  {
    if Restorable(voices, current) {
      var k := GroupKey(voices[current.value]);
      if k == "ar" {
        assert GroupPick(voices, "ar", current, false) == Some(current.value as nat);
      } else if k == "en" {
        assert GroupPick(voices, "en", current, GroupPick(voices, "ar", current, false).Some?) == Some(current.value as nat);
      }
    }
  }

  /**
   * The stored index after the rebuild: what the passes leave, reset to 0
   * when that is null or 0 (`!this.selectedVoiceIndex`) and there are voices.
   */
  function StoredAfter(voices: seq<Voice>, current: Option<int>, stored: Option<int>): Option<int>
  {
    var s := if Chosen(voices, current).Some? then Chosen(voices, current) else stored;
    if (s.None? || s == Some(0)) && |voices| > 0 then Some(0) else s
  }

  /** The position of the first voice whose group key comes first in code-unit order. */
  function MinKeyIndex(voices: seq<Voice>): (r: nat)
    requires voices != []
    ensures r < |voices|
    decreases |voices|
  {
    if |voices| == 1 then 0
    else
      var m := MinKeyIndex(voices[..|voices| - 1]);
      if LexLess(GroupKey(voices[|voices| - 1]), GroupKey(voices[m])) then |voices| - 1 else m
  }

  /**
   * Voice `r` belongs to the group whose key sorts first (no key sorts before
   * its key, every other key sorts after it) and is the first voice of that
   * group.
   */
  ghost predicate FirstOfFirstGroup(voices: seq<Voice>, r: nat)
    requires r < |voices|
  {
    && (forall j :: 0 <= j < |voices| ==> !LexLess(GroupKey(voices[j]), GroupKey(voices[r])))
    && (forall j :: 0 <= j < |voices| && GroupKey(voices[j]) != GroupKey(voices[r]) ==>
          LexLess(GroupKey(voices[r]), GroupKey(voices[j])))
    && (forall j :: 0 <= j < r ==> GroupKey(voices[j]) != GroupKey(voices[r]))
  }

  /** `MinKeyIndex` is the first voice of the first group in sorted order. */
  lemma {:induction false} MinKeyIndexIsFirstOfFirstGroup(voices: seq<Voice>)
    requires voices != []
    ensures FirstOfFirstGroup(voices, MinKeyIndex(voices))
    decreases |voices|
  {
    if |voices| == 1 {
      LexLessIrreflexive(GroupKey(voices[0]));
    } else {
      var init := voices[..|voices| - 1];
      MinKeyIndexIsFirstOfFirstGroup(init);
      var m := MinKeyIndex(init);
      if LexLess(GroupKey(voices[|voices| - 1]), GroupKey(voices[m])) {
        LastKeySortsFirst(voices, m);
      } else {
        EarlierKeyStays(voices, m);
      }
    }
  }

  lemma LastKeySortsFirst(voices: seq<Voice>, m: nat)
    requires 1 < |voices| && m < |voices| - 1
    requires FirstOfFirstGroup(voices[..|voices| - 1], m)
    requires LexLess(GroupKey(voices[|voices| - 1]), GroupKey(voices[m]))
    ensures FirstOfFirstGroup(voices, |voices| - 1)
  {
    var init, last := voices[..|voices| - 1], |voices| - 1;
    var km, kl := GroupKey(voices[m]), GroupKey(voices[last]);
    forall j | 0 <= j < |voices|
      ensures !LexLess(GroupKey(voices[j]), kl)
      ensures GroupKey(voices[j]) != kl ==> LexLess(kl, GroupKey(voices[j]))
      ensures j < last ==> GroupKey(voices[j]) != kl
    {
      var kj := GroupKey(voices[j]);
      if j < last {
        assert init[j] == voices[j] && init[m] == voices[m];
        if LexLess(kj, kl) {
          LexLessTransitive(kj, kl, km);
        }
        LexLessTotal(kj, kl);
      } else {
        LexLessIrreflexive(kl);
      }
    }
  }

  lemma EarlierKeyStays(voices: seq<Voice>, m: nat)
    requires 1 < |voices| && m < |voices| - 1
    requires FirstOfFirstGroup(voices[..|voices| - 1], m)
    requires !LexLess(GroupKey(voices[|voices| - 1]), GroupKey(voices[m]))
    ensures FirstOfFirstGroup(voices, m)
  {
    var init, last := voices[..|voices| - 1], |voices| - 1;
    var km, kl := GroupKey(voices[m]), GroupKey(voices[last]);
    assert init[m] == voices[m];
    forall j | 0 <= j < |voices|
      ensures !LexLess(GroupKey(voices[j]), km)
      ensures GroupKey(voices[j]) != km ==> LexLess(km, GroupKey(voices[j]))
    {
      if j < last {
        assert init[j] == voices[j];
      } else if kl != km {
        LexLessTotal(kl, km);
      }
    }
    forall j | 0 <= j < m
      ensures GroupKey(voices[j]) != km
    {
      assert init[j] == voices[j];
    }
  }

  /**
   * The first option of the rebuilt selector: the first "ar" voice, otherwise
   * the first "en" voice, otherwise the first voice of the group whose key
   * sorts first; none when there are no voices.
   */
  function FirstListed(voices: seq<Voice>): (r: Option<nat>)
    ensures r.None? <==> voices == []
    ensures r.Some? ==> r.value < |voices|
  {
    if FirstFit(voices, "ar", false).Some? then FirstFit(voices, "ar", false)
    else if FirstFit(voices, "en", false).Some? then FirstFit(voices, "en", false)
    else if voices == [] then None
    else Some(MinKeyIndex(voices))
  }

  /**
   * The selector's value after the rebuild: the chosen option when it is not
   * voice 0; otherwise the first listed option, because either no option is
   * marked or `selectedIndex = 0` selects the first one in document order.
   */
  function ShownAfter(voices: seq<Voice>, current: Option<int>): Option<int>
  {
    var c := Chosen(voices, current);
    if c.Some? && c.value != 0 then c else FirstListed(voices)
  }

  /** With voices present, the selector shows one of them; with none, it has no value. */
  lemma ShownNamesVoice(voices: seq<Voice>, current: Option<int>)
    ensures ShownAfter(voices, current).Some? <==> voices != []
    ensures ShownAfter(voices, current).Some? ==> 0 <= ShownAfter(voices, current).value < |voices|
  {
  }

  /**
   * With voices present, the stored index names one of them unless an index
   * that is now out of range was stored before and nothing was chosen; in
   * particular it does when nothing was stored.
   */
  lemma StoredNamesVoice(voices: seq<Voice>, current: Option<int>, stored: Option<int>)
    requires voices != []
    requires stored.None? || 0 <= stored.value < |voices|
    ensures StoredAfter(voices, current, stored).Some?
    ensures 0 <= StoredAfter(voices, current, stored).value < |voices|
  {
  }

  /** A selection of a voice other than voice 0 survives the rebuild, stored and shown. */
  lemma SelectionSurvives(voices: seq<Voice>, k: int, stored: Option<int>)
    requires 0 < k < |voices|
    ensures StoredAfter(voices, Some(k), stored) == Some(k)
    ensures ShownAfter(voices, Some(k)) == Some(k)
  {
  }

  /** When the rebuild chooses a voice other than voice 0, the selector shows the stored voice. */
  lemma ShownIsStored(voices: seq<Voice>, current: Option<int>, stored: Option<int>)
    requires Chosen(voices, current).Some? && Chosen(voices, current).value != 0
    ensures ShownAfter(voices, current) == StoredAfter(voices, current, stored)
  {
  }

  lemma KeyOf(lang: string, key: string, rest: string)
    requires '-' !in key
    requires lang == key + "-" + rest
    ensures BeforeFirst(lang, '-') == key
  {
    var r := BeforeFirst(lang, '-');
    assert forall i :: 0 <= i < |key| ==> lang[i] == key[i];
    assert lang[|key|] == '-';
    assert |r| == |key|;
  }

  /**
   * Nothing selected yet, and the engine's default voice is listed second in
   * the "en" group: the rebuild stores the default voice and shows it.
   */
  lemma DefaultVoiceChosen()
    ensures var voices := [Voice("A", "en-US", false), Voice("B", "en-GB", true)];
      && StoredAfter(voices, None, None) == Some(1)
      && ShownAfter(voices, None) == Some(1)
  {
    var voices := [Voice("A", "en-US", false), Voice("B", "en-GB", true)];
    KeyOf("en-US", "en", "US");
    KeyOf("en-GB", "en", "GB");
    assert !Fits(voices[0], "ar", true) && !Fits(voices[1], "ar", true);
    assert !Fits(voices[0], "en", true) && Fits(voices[1], "en", true);
    assert voices[..1] == [voices[0]];
  }

  /**
   * Voice 0 is listed in the "en" group after an "ar" voice and was the
   * selection: the rebuild stores voice 0 but shows voice 1, so the selector
   * no longer shows the voice `playSentence` will use.
   */
  lemma StoredAndShownCanDiffer()
    ensures var voices := [Voice("A", "en-US", false), Voice("B", "ar-SA", false)];
      && StoredAfter(voices, Some(0), None) == Some(0)
      && ShownAfter(voices, Some(0)) == Some(1)
  {
    var voices := [Voice("A", "en-US", false), Voice("B", "ar-SA", false)];
    KeyOf("en-US", "en", "US");
    KeyOf("ar-SA", "ar", "SA");
    assert !Fits(voices[0], "ar", false);
    assert FirstFit(voices[..1], "ar", false).None?;
    assert voices[..1] == [voices[0]];
  }
}
