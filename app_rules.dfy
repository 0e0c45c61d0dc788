// The pure rules of App.tsx: clip-text truncation, duration display, the
// gender-to-voice mapping, reference-voice precedence, the selection toggle,
// and the ids and storage keys the handlers mint.
module AppRules {
  import opened Types
  import opened Constants
  import opened JsString

  const DEFAULT_USER_ID: string := "local_user"

  /** How many characters of the input a history entry keeps before the ellipsis. */
  const CLIP_TEXT_LIMIT: nat := 50

  /** The text shown for a generated clip: `text.slice(0, 50)` plus "..." when it was cut. */
  function ClipText(text: string): (r: string)
    ensures |r| <= CLIP_TEXT_LIMIT + 3
    ensures |text| <= CLIP_TEXT_LIMIT ==> r == text
    ensures |text| > CLIP_TEXT_LIMIT ==>
      |r| == CLIP_TEXT_LIMIT + 3 && r[..CLIP_TEXT_LIMIT] == text[..CLIP_TEXT_LIMIT]
      && r[CLIP_TEXT_LIMIT..] == "..."
  {
    var kept := if |text| < CLIP_TEXT_LIMIT then |text| else CLIP_TEXT_LIMIT;
    text[..kept] + (if |text| > CLIP_TEXT_LIMIT then "..." else "")
  }

  /** Truncating a clip text a second time changes nothing. */
  lemma ClipTextIdempotent(text: string)
    ensures ClipText(ClipText(text)) == ClipText(text)
  {
    if |text| > CLIP_TEXT_LIMIT {
      var r := ClipText(text);
      assert r[..CLIP_TEXT_LIMIT] == text[..CLIP_TEXT_LIMIT];
    }
  }

  /**
   * The input survives truncation exactly when it is at most 50 long, or is
   * itself 50 characters followed by "...".
   */
  lemma ClipTextKeepsExactly(text: string)
    ensures ClipText(text) == text <==>
      |text| <= CLIP_TEXT_LIMIT || (|text| == CLIP_TEXT_LIMIT + 3 && text[CLIP_TEXT_LIMIT..] == "...")
  {
    if |text| == CLIP_TEXT_LIMIT + 3 && text[CLIP_TEXT_LIMIT..] == "..." {
      assert text == text[..CLIP_TEXT_LIMIT] + text[CLIP_TEXT_LIMIT..];
    }
  }

  /**
   * `formatDuration`: `m:ss` where `ss` is two digits below 60, `m` has no
   * leading zero, and `m * 60 + ss` is the number of seconds.
   */
  function FormatDuration(seconds: nat): (r: string)
    ensures |r| >= 4 && r[|r| - 3] == ':'
    ensures AllDigits(r[..|r| - 3]) && AllDigits(r[|r| - 2..])
    ensures r[0] == '0' ==> seconds < 60 && |r| == 4
    ensures ParseDigits(r[|r| - 2..]) < 60
    ensures ParseDigits(r[..|r| - 3]) * 60 + ParseDigits(r[|r| - 2..]) == seconds
  {
    var mins := NatToString(seconds / 60);
    var secs := NatToString(seconds % 60);
    var padded := PadStart2(secs);
    assert |secs| <= 2 by {
      if |secs| > 2 {
        assert secs[..|secs| - 1][..|secs| - 2] == secs[..|secs| - 2];
        ParseDigitsAtLeast(secs);
      }
    }
    assert AllDigits(padded) && ParseDigits(padded) == seconds % 60 by {
      if |secs| == 1 {
        ParseDigitsLeadingZero(secs);
      }
    }
    var r := mins + ":" + padded;
    assert r[0] == '0' ==> |mins| == 1 by {
      if r[0] == '0' {
        assert mins[0] == '0';
      }
    }
    assert r[..|r| - 3] == mins;
    assert r[|r| - 2..] == padded;
    r
  }

  /** A digit string of three or more digits not starting with 0 is worth at least 100. */
  lemma {:induction false} ParseDigitsAtLeast(s: string)
    requires AllDigits(s) && |s| >= 3 && s[0] != '0'
    ensures ParseDigits(s) >= 100
  {
    var p := s[..|s| - 1];
    assert AllDigits(p) && p[0] == s[0];
    if |s| == 3 {
      assert p[..|p| - 1] == [s[0]];
      assert ParseDigits([s[0]]) >= 1 by {
        assert [s[0]][..0] == [];
      }
    } else {
      ParseDigitsAtLeast(p);
    }
  }

  /**
   * `getMatchingBaseVoice`: Male gives Fenrir, Female gives Kore and anything
   * else Zephyr; each is the voice of a preset of that gender.
   */
  function GetMatchingBaseVoice(gender: Gender): (v: VoiceName)
    ensures gender == Male ==> v == Fenrir
    ensures gender == Female ==> v == Kore
    ensures gender == Neutral ==> v == Zephyr
    ensures exists p :: p in VOICE_PRESETS && p.voiceValue == v && p.gender == gender
  {
    match gender
    case Male =>
      assert VOICE_PRESETS[4].voiceValue == Fenrir && VOICE_PRESETS[4].gender == Male;
      Fenrir
    case Female =>
      assert VOICE_PRESETS[3].voiceValue == Kore && VOICE_PRESETS[3].gender == Female;
      Kore
    case Neutral =>
      assert VOICE_PRESETS[0].voiceValue == Zephyr && VOICE_PRESETS[0].gender == Neutral;
      Zephyr
  }

  /** Different genders are mapped to different base voices. */
  lemma MatchingBaseVoiceInjective(g: Gender, h: Gender)
    requires GetMatchingBaseVoice(g) == GetMatchingBaseVoice(h)
    ensures g == h
  {
  }

  /** What a generation request asks the backend for. */
  datatype VoiceRequest = VoiceRequest(voice: VoiceName, style: Option<string>)

  /** `selectedRefVoice.gender || 'Neutral'`. */
  function GenderOrNeutral(g: Option<Gender>): Gender {
    if g.Some? then g.value else Neutral
  }

  /**
   * The voice and style of a generation. A preset carries no style prompt
   * (VoicePreset has no `stylePrompt` field), so a preset alone asks for its
   * own voice and no style; a selected reference voice overrides both, with
   * the base voice matching its gender (Neutral when unknown) and its
   * description as the style.
   */
  function ResolveVoice(preset: VoicePreset, reference: Option<Entry>): (q: VoiceRequest)
    requires reference.Some? ==> reference.value.record.Voice?
    ensures reference.None? ==> q == VoiceRequest(preset.voiceValue, None)
    ensures reference.Some? ==>
      q.style == reference.value.record.description
      && q.voice == GetMatchingBaseVoice(GenderOrNeutral(reference.value.record.gender))
      && (exists p :: p in VOICE_PRESETS && p.voiceValue == q.voice
                      && p.gender == GenderOrNeutral(reference.value.record.gender))
  {
    if reference.Some? then
      VoiceRequest(GetMatchingBaseVoice(GenderOrNeutral(reference.value.record.gender)),
                   reference.value.record.description)
    else
      VoiceRequest(preset.voiceValue, None)
  }

  /** With a reference voice selected, which preset is selected makes no difference. */
  lemma ReferenceOverridesPreset(p1: VoicePreset, p2: VoicePreset, reference: Option<Entry>)
    requires reference.Some? && reference.value.record.Voice?
    ensures ResolveVoice(p1, reference) == ResolveVoice(p2, reference)
  {
  }

  /** The name a `VoiceName` value has at run time. */
  function VoiceNameString(v: VoiceName): string {
    match v
    case Zephyr => "Zephyr"
    case Puck => "Puck"
    case Charon => "Charon"
    case Kore => "Kore"
    case Fenrir => "Fenrir"
  }

  /** The parameters `generateSpeech(text, voice, referenceDescription)` binds (services/geminiService.ts). */
  datatype SpeechCall = SpeechCall(text: string, voice: string, referenceDescription: Option<string>)

  /**
   * How `generateSpeech` binds App.tsx's call `(keyToUse, text, baseVoice,
   * stylePrompt)`: each argument lands one parameter early, so the key is
   * the text, the text is the voice, the base voice is the description,
   * and the style falls off the end.
   */
  function SpeechCallAsWritten(key: string, text: string, q: VoiceRequest): SpeechCall {
    SpeechCall(key, text, Some(VoiceNameString(q.voice)))
  }

  /** The binding the call evidently intends: the text, then the voice and style of the request. */
  function SpeechCallFor(text: string, q: VoiceRequest): SpeechCall {
    SpeechCall(text, VoiceNameString(q.voice), q.style)
  }

  /**
   * As written, the backend is asked to speak the key whatever the text,
   * and two requests with the same voice reach it the same way whatever
   * their styles.
   */
  lemma SpeechCallAsWrittenLosesTextAndStyle(key: string, t1: string, t2: string, q1: VoiceRequest, q2: VoiceRequest)
    requires q1.voice == q2.voice
    ensures SpeechCallAsWritten(key, t1, q1).text == key
    ensures SpeechCallAsWritten(key, t1, q1).referenceDescription == SpeechCallAsWritten(key, t2, q2).referenceDescription
  {
  }

  /** A concrete case: a reference voice described as "calm" reaches the backend as the description "Kore", with "TEST_MODE" as the text. */
  lemma SpeechCallAsWrittenExample()
    ensures SpeechCallAsWritten("TEST_MODE", "Hello", VoiceRequest(Kore, Some("calm")))
         == SpeechCall("TEST_MODE", "Hello", Some("Kore"))
    ensures SpeechCallFor("Hello", VoiceRequest(Kore, Some("calm")))
         == SpeechCall("Hello", "Kore", Some("calm"))
  {
  }

  /** The intended binding loses nothing: different texts or requests give different calls. */
  lemma SpeechCallForInjective(t1: string, t2: string, q1: VoiceRequest, q2: VoiceRequest)
    ensures SpeechCallFor(t1, q1) == SpeechCallFor(t2, q2) <==> t1 == t2 && q1 == q2
  {
    if SpeechCallFor(t1, q1) == SpeechCallFor(t2, q2) {
      VoiceNameStringInjective(q1.voice, q2.voice);
    }
  }

  lemma VoiceNameStringInjective(v: VoiceName, w: VoiceName)
    requires VoiceNameString(v) == VoiceNameString(w)
    ensures v == w
  {
    assert VoiceNameString(v)[0] == VoiceNameString(w)[0];
  }

  /** The voice label of a new clip: the personal-voice label with the reference name, else the preset name. */
  function VoiceLabel(preset: VoicePreset, reference: Option<Entry>, personalLabel: string): (s: string)
    requires reference.Some? ==> reference.value.record.Voice?
    ensures reference.None? ==> s == preset.name
    ensures reference.Some? ==> s == personalLabel + " (" + reference.value.record.name + ")"
  {
    if reference.Some? then personalLabel + " (" + reference.value.record.name + ")" else preset.name
  }

  /** With a reference voice selected, the label names that voice whatever preset is selected. */
  lemma VoiceLabelIgnoresPreset(p1: VoicePreset, p2: VoicePreset, reference: Option<Entry>, personalLabel: string)
    requires reference.Some? && reference.value.record.Voice?
    ensures VoiceLabel(p1, reference, personalLabel) == VoiceLabel(p2, reference, personalLabel)
  {
  }

  /** Without a reference voice, clips made with different presets carry different labels. */
  lemma PresetLabelsDistinct(i: nat, j: nat, personalLabel: string)
    requires i < |VOICE_PRESETS| && j < |VOICE_PRESETS| && i != j
    ensures VoiceLabel(VOICE_PRESETS[i], None, personalLabel) != VoiceLabel(VOICE_PRESETS[j], None, personalLabel)
  {
  }

  /** Clicking a reference voice: deselect it when it is the selected one, else select it. */
  function NextSelection(current: Option<Entry>, clicked: Entry): (r: Option<Entry>)
    ensures r.Some? <==> current.None? || current.value.record.id != clicked.record.id
    ensures r.Some? ==> r.value == clicked
  {
    if current.Some? && current.value.record.id == clicked.record.id then None else Some(clicked)
  }

  /** Clicking the same voice twice from any selection ends with it or with nothing, depending on the start. */
  lemma ToggleTwice(current: Option<Entry>, clicked: Entry)
    ensures NextSelection(NextSelection(current, clicked), clicked) ==
      (if current.Some? && current.value.record.id == clicked.record.id then Some(clicked) else None)
  {
  }

  /** The id of a generated clip: `Date.now().toString()`. */
  function ClipId(now: nat): (id: string)
    ensures |id| >= 1 && AllDigits(id)
    ensures ParseDigits(id) == now
  {
    NatToString(now)
  }

  /** The id of a reference voice: `voice-` followed by `Date.now()`. */
  function VoiceId(now: nat): (id: string)
    ensures |id| > 6 && id[..6] == "voice-" && AllDigits(id[6..])
    ensures ParseDigits(id[6..]) == now
  {
    var id := "voice-" + NatToString(now);
    assert id[6..] == NatToString(now);
    id
  }

  /** A clip key never equals a voice key, so the shared blob store never mixes them. */
  lemma ClipIdNeverVoiceId(a: nat, b: nat)
    ensures ClipId(a) != VoiceId(b)
  {
    assert IsDigit(ClipId(a)[0]);
  }

  /** Two clips get the same id exactly when they are minted in the same millisecond. */
  lemma ClipIdInjective(a: nat, b: nat)
    ensures ClipId(a) == ClipId(b) <==> a == b
  {
    if ClipId(a) == ClipId(b) {
      NatToStringInjective(a, b);
    }
  }

  /** Two voices get the same id exactly when they are minted in the same millisecond. */
  lemma VoiceIdInjective(a: nat, b: nat)
    ensures VoiceId(a) == VoiceId(b) <==> a == b
  {
    if VoiceId(a) == VoiceId(b) {
      assert VoiceId(a)[6..] == NatToString(a);
      assert VoiceId(b)[6..] == NatToString(b);
      NatToStringInjective(a, b);
    }
  }

  /** The ledger key of a user's clip history. */
  function HistoryKey(userId: string): string {
    "vox_history_" + userId
  }

  /** The ledger key of a user's reference voices. */
  function VoicesKey(userId: string): string {
    "vox_custom_voices_" + userId
  }

  /** The two snapshots never share a ledger key, whoever the users are. */
  lemma LedgerKeysDistinct(u: string, w: string)
    ensures HistoryKey(u) != VoicesKey(w)
  {
    assert HistoryKey(u)[4] == 'h' && VoicesKey(w)[4] == 'c';
  }

  /** One user's snapshots never sit under another user's key. */
  lemma LedgerKeysInjective(u: string, w: string)
    ensures HistoryKey(u) == HistoryKey(w) <==> u == w
    ensures VoicesKey(u) == VoicesKey(w) <==> u == w
  {
    if HistoryKey(u) == HistoryKey(w) {
      assert HistoryKey(u)[12..] == u && HistoryKey(w)[12..] == w;
    }
    if VoicesKey(u) == VoicesKey(w) {
      assert VoicesKey(u)[18..] == u && VoicesKey(w)[18..] == w;
    }
  }
}
