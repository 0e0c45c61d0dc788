# VoxGemini audio library, modelled in Dafny

This project models the audio-library bookkeeping of the VoxGemini web app
(`App.tsx`). The app keeps two ordered lists: the generated speech clips
(`history`) and the user's reference voices (`customVoices`). Each list is
mirrored three ways:

- a snapshot per user key in localStorage (`vox_history_<user>`,
  `vox_custom_voices_<user>`), stored without the `blobUrl` handle;
- a blob store keyed by record id (`saveAudioBlob` / `getAudioBlob` /
  `deleteAudioBlob`);
- object-URL handles made by `URL.createObjectURL` and released by
  `URL.revokeObjectURL`.

Modules:

- `Types` (`types.dfy`): the voice names, genders and presets, and one
  `Record` type for both kinds of stored item. `Speech` is a
  `GeneratedSpeech` and `Voice` a `CustomVoice`, each without its handle.
  `Entry` is a record together with the handle shown for it.
- `Constants` (`constants.dfy`): `VOICE_PRESETS`.
- `JsString` (`js_string.dfy`): the JavaScript string primitives the
  handlers use: `trim`, `Number.prototype.toString` on non-negative
  integers, and `padStart(2, '0')`.
- `AppRules` (`app_rules.dfy`): the pure rules. These are clip-text
  truncation, `formatDuration`, `getMatchingBaseVoice`, the precedence of a
  reference voice over the preset, the selection toggle, and the ids and
  storage keys the handlers mint.
- `Ledger` (`ledger.dfy`): the list transforms inside the handlers. These
  are hydration, dehydration (`({ blobUrl, ...rest }) => rest`), `find`,
  `filter` by id and `map`-replace by id.
- `LibraryInvariant` (`library_invariant.dfy`): the invariant the state
  keeps about its handles, with one lemma per kind of update showing that
  the update keeps it.
- `App` (`app.dfy`): the component state as the class `App.Library`, with
  one method per handler. Its fields are the two lists, the selections and
  the edit dialog's copy. Three more fields stand for the environment:
  `ledger` for localStorage, `blobs` for the blob store, and `live` for the
  handles not yet revoked, each with the bytes it plays. The ghost field
  `writes` records the durable writes in the order they are issued.

The environment is passed in as parameters: `Date.now()` readings, backend
replies, whether a blob save succeeds, and the handles `createObjectURL`
returns. `Promise.all` over the parsed snapshot is a loop in list order;
`Promise.all` keeps result order, so the hydrated list is the same.

`handleDeleteHistory` (App.tsx:228-235) revokes the clip's handle, deletes
its blob and rewrites the history snapshot. The inline voice delete at
App.tsx:453 only deletes the blob and filters the list. The model follows
the code as written (`App.Library.DeleteVoice`) and records the difference
under "## Findings", together with the corrected delete
(`App.Library.DeleteVoicePersisted`).

Each handler is one atomic step of the model. In the source, `handleGenerate`
and `handleDeleteHistory` read the `history` of the render that started them
after an `await`, so two overlapping handlers can undo each other's work.
The recording callback does the same with `customVoices`. The lemmas
`App.StaleGenerateRevivesDeletedClip`, `App.StaleDeleteRevivesDeletedClip`
and `App.StaleRecordingDropsUpload` show what the code as written does
then, and "## Findings" records it.

## Model

| member | source | states |
|---|---|---|
| JsString.Trim | App.tsx:174 | the trimmed text is empty exactly when every character is JavaScript white space; otherwise it starts and ends with a non-space |
| JsString.NatToString | App.tsx:195 | `n.toString()` is a non-empty digit string whose decimal value is `n`, with no leading zero unless `n` is 0 |
| JsString.PadStart2 | App.tsx:164 | a string of two or more characters is kept; a shorter one is left-padded with `'0'` to length 2 and ends with the original |
| JsString.NatToStringInjective | App.tsx:195 | different timestamps give different digit strings |
| AppRules.ClipText | App.tsx:203 | the stored clip text is at most 53 long; input of at most 50 is kept whole; longer input keeps its first 50 characters followed by `...` |
| AppRules.ClipTextIdempotent | App.tsx:203 | truncating an already truncated text changes nothing |
| AppRules.ClipTextKeepsExactly | App.tsx:203 | truncation leaves the text unchanged if and only if it is at most 50 long, or is 50 characters followed by `...` |
| AppRules.FormatDuration | App.tsx:161-165 | the result is `m:ss`, with `m` a digit string without a leading zero and `ss` two digits below 60, and `m * 60 + ss` equals the seconds; it is exactly four characters long with a leading `0` when the seconds are below 60 |
| AppRules.GetMatchingBaseVoice | App.tsx:167-171 | Male gives Fenrir, Female gives Kore and Neutral gives Zephyr; each is the voice of a preset whose own gender is the one asked for |
| AppRules.MatchingBaseVoiceInjective | App.tsx:167-171 | different genders map to different base voices |
| AppRules.ResolveVoice | App.tsx:179-186 | without a reference voice the request is the preset's voice with no style; with one, the style is its description and the voice is `GetMatchingBaseVoice` of its gender, Neutral when none is known |
| AppRules.ReferenceOverridesPreset | App.tsx:179-186 | with a reference voice selected, the selected preset makes no difference to the request |
| AppRules.VoiceLabel | App.tsx:204 | a new clip's voice label is the personal-voice label with the reference name in parentheses when a reference is selected, else the preset's name |
| AppRules.VoiceLabelIgnoresPreset | App.tsx:204 | with a reference voice selected, the clip's label is the same whichever preset is selected |
| AppRules.PresetLabelsDistinct | App.tsx:204 | without a reference voice, clips made with two different presets carry different labels |
| AppRules.SpeechCallAsWritten | App.tsx:188-193 | definition: how `generateSpeech(text, voice, referenceDescription)` binds App.tsx's four arguments: the key as the text, the user's text as the voice, the base voice's name as the description, and the style dropped |
| AppRules.SpeechCallFor | App.tsx:188-193 | definition: the intended binding, with the user's text as the text, the request's voice and its style as the description |
| AppRules.SpeechCallAsWrittenLosesTextAndStyle | App.tsx:188-193 | as `generateSpeech` binds the call, the text it speaks is the key whatever the user typed, and two requests with the same voice pass the same description whatever their styles |
| AppRules.SpeechCallAsWrittenExample | App.tsx:188-193 | the reference voice described as "calm" reaches the backend with "TEST_MODE" as the text and "Kore" as the description; the intended binding passes "Hello", "Kore" and "calm" |
| AppRules.SpeechCallForInjective | App.tsx:188-193 | the intended binding of text, voice and style loses nothing: two calls are equal exactly when the texts and the requests are equal |
| AppRules.NextSelection | App.tsx:440 | clicking a voice selects it exactly when nothing or a voice with another id was selected, and deselects otherwise |
| AppRules.ToggleTwice | App.tsx:440 | clicking the same voice twice restores a selection of it, and otherwise ends with nothing selected |
| AppRules.ClipId | App.tsx:195 | a clip id is a non-empty digit string whose decimal value is the time it was minted |
| AppRules.VoiceId | App.tsx:94 | a voice id is `voice-` followed by a non-empty digit string whose decimal value is the time it was minted |
| AppRules.ClipIdNeverVoiceId | App.tsx:195 | no clip id minted here equals any voice id minted at App.tsx:94, so the shared blob store never mixes the two kinds |
| AppRules.ClipIdInjective | App.tsx:195 | two clip ids are equal if and only if they were minted at the same millisecond |
| AppRules.VoiceIdInjective | App.tsx:94 | two voice ids are equal if and only if they were minted at the same millisecond |
| AppRules.HistoryKey | App.tsx:62 | definition: `vox_history_` followed by the user id, the key read at App.tsx:62 and written at App.tsx:211 and 234 |
| AppRules.VoicesKey | App.tsx:74 | definition: `vox_custom_voices_` followed by the user id, the key read at App.tsx:74 and written at App.tsx:107 and 241 |
| AppRules.LedgerKeysDistinct | App.tsx:62-74 | the history key of any user differs from the voices key of any user |
| AppRules.LedgerKeysInjective | App.tsx:62-74 | each kind of key determines its user |
| Ledger.Dehydrate | App.tsx:211 | dehydration keeps the length and, position by position, exactly the record without its handle |
| Ledger.DehydrateConcat | App.tsx:209-211 | dehydrating a concatenation dehydrates each part in place |
| Ledger.Hydrate | App.tsx:66-69 | hydration keeps the length, order and every record; entry `i` carries handle `hs[i]` when a blob is stored under its id and the empty handle otherwise |
| Ledger.DehydrateHydrate | App.tsx:62-69 | dehydrating a hydrated snapshot gives back the saved records |
| Ledger.HydratedPlayableIff | App.tsx:66-69 | with non-empty handles, a hydrated entry shows a handle if and only if its blob exists |
| Ledger.HydrateAllOrphans | App.tsx:78-81 | when no record's blob is stored, every hydrated entry is an orphan with the empty handle |
| App.Readable | App.tsx:62-83 | a missing key or a document that does not parse reads as nothing; a read list is exactly the stored snapshot and holds records of the wanted kind; every such snapshot is read |
| Ledger.FindById | App.tsx:229 | finds nothing exactly when no entry has the id; otherwise finds the first entry with the id |
| Ledger.RemoveById | App.tsx:232 | keeps exactly the entries whose id differs and never grows the list |
| Ledger.RemoveByIdConcat | App.tsx:232 | removal filters each part of a concatenation in place, so the other entries keep their relative order |
| Ledger.DehydrateRemoveById | App.tsx:232-234 | the snapshot written after a removal holds no record with the removed id |
| Ledger.RemoveByIdAbsent | App.tsx:232 | removing an id no entry has changes nothing |
| Ledger.RemoveByIdIdempotent | App.tsx:232 | removing the same id twice equals removing it once |
| Ledger.RemoveByIdLength | App.tsx:232 | removal drops exactly as many entries as carry the id |
| Ledger.ReplaceById | App.tsx:239 | keeps the length; each entry with the edited id becomes the edited copy and every other entry stays in its place |
| Ledger.ReplaceByIdKeepsIds | App.tsx:239 | replacement keeps the id at every position |
| Ledger.ReplaceByIdIdempotent | App.tsx:239 | saving the same edit twice equals saving it once |
| Ledger.ReplaceByIdAbsent | App.tsx:239 | an edit whose id no entry has changes nothing |
| LibraryInvariant.FreshSplit | App.tsx:66-81 | both parts of a run of fresh handles are fresh |
| LibraryInvariant.FreshAfterMint | App.tsx:66-81 | the voice handles stay fresh after the clip handles are minted |
| LibraryInvariant.RevokeFoundDropsOnlyFound | App.tsx:229-230 | `RevokeFound`: a found entry with a handle loses exactly that handle, the other handles keep their bytes, and an entry not found or without a handle revokes nothing |
| LibraryInvariant.HydratedHandles | App.tsx:66-69 | a hydrated entry shows a handle only if the handle was given for it and its blob exists |
| LibraryInvariant.HydratedOneIdPerHandle | App.tsx:66-69 | with pairwise different handles, a hydrated handle belongs to one id |
| LibraryInvariant.MintKeepsInv | App.tsx:188-198 | creating a handle that nothing shows keeps the invariant |
| LibraryInvariant.PrependClipKeepsInv | App.tsx:209-210 | a speech clip with a fresh handle at the head of the history keeps the invariant |
| LibraryInvariant.AppendVoiceKeepsInv | App.tsx:100-106 | a voice with a fresh handle at the tail of the list keeps the invariant |
| LibraryInvariant.RemoveClipKeepsInv | App.tsx:229-233 | revoking the first match's handle and removing the id from the history keeps the invariant |
| LibraryInvariant.RemoveVoiceKeepsInv | App.tsx:453 | removing an id from the voices without revoking anything keeps the invariant |
| LibraryInvariant.RemoveVoiceRevokeKeepsInv | App.tsx:453 | with no edit open, revoking the first match's handle and removing the id from the voices keeps the invariant |
| LibraryInvariant.OpenEditKeepsInv | App.tsx:452 | opening the dialog on a copy of a listed voice keeps the invariant |
| LibraryInvariant.ChangeEditKeepsInv | App.tsx:504-508 | changing the copy's fields keeps the invariant, provided the id and handle stay the same |
| LibraryInvariant.CloseEditKeepsInv | App.tsx:519 | closing the dialog keeps the invariant |
| LibraryInvariant.SaveEditKeepsInv | App.tsx:237-242 | writing the copy back over every voice with its id and closing the dialog keeps the invariant |
| LibraryInvariant.HydrateHistoryKeepsInv | App.tsx:61-72 | replacing the history by a hydration with fresh handles that are all live keeps the invariant |
| LibraryInvariant.HydrateVoicesKeepsInv | App.tsx:74-84 | replacing the voices by a hydration with fresh handles that are all live keeps the invariant |
| App.LiveAfterHydration | App.tsx:66-69 | after hydration every shown handle is live and plays the blob stored under its record's id |
| App.DeletedVoiceReappears | App.tsx:453 | after the voice delete as written, hydrating the snapshot that was left behind still yields the deleted id, as an orphan |
| App.DeletedVoiceReappearsExample | App.tsx:453 | one saved voice, deleted, comes back after a reload with the empty handle |
| App.PersistedDeleteStaysDeleted | App.tsx:228-235 | after a delete that rewrites the snapshot, a reload never shows the deleted id |
| App.StaleGenerateRevivesDeletedClip | App.tsx:188-211 | when a clip with a handle is deleted while `handleGenerate` awaits, prepending to the history it read first shows a revoked handle and writes a snapshot that still holds the deleted id |
| App.StaleDeleteRevivesDeletedClip | App.tsx:228-235 | when two deletes of different clips overlap, the second one's list shows the first clip with its revoked handle and its snapshot still holds the first id |
| App.StaleRecordingDropsUpload | App.tsx:105-107 | when a voice is uploaded while a recording runs, appending the recording to the list of the render where it started drops the upload from the list and the snapshot, and no entry shows its handle |
| App.DehydratedVoices | App.tsx:241 | the snapshot of a list of voices holds only voice records |
| App.DeleteThenReload | App.tsx:74-84 | deleting a saved voice as written at App.tsx:453 and then reloading lists that voice again at its old position, with the empty handle |
| App.DeletePersistedThenReload | App.tsx:228-235 | deleting a voice the corrected way and then reloading lists no voice with that id |
| App.Library.constructor | App.tsx:28-43 | a new component has empty lists, the first preset selected, no reference voice, no open edit and no live handles, over the stored ledger and blobs |
| App.Library.HydrateRecords | App.tsx:66-69 | the loop yields exactly `Hydrate` of the snapshot; existing handles are kept; each found blob gets its given handle playing its bytes; every new handle is the one given for a record whose blob was found |
| App.Library.LoadUserData | App.tsx:61-85 | each list becomes the hydration of its snapshot when that is present and readable, and stays as it was otherwise; existing handles are kept, every new handle is the one given for a record of a readable snapshot whose blob was found, and the invariant holds |
| App.Library.LoadHistory | App.tsx:62-72 | as LoadUserData for the clip snapshot: a new handle is only created for a record whose blob was found; also every newly shown handle plays its record's blob |
| App.Library.LoadVoices | App.tsx:74-84 | as LoadUserData for the voice snapshot: a new handle is only created for a record whose blob was found; also every newly shown handle plays its record's blob |
| App.Library.Generate | App.tsx:173-218 | blank text does nothing; otherwise the request App.tsx computes follows ResolveVoice; a failed reply changes nothing; a reply whose save fails leaves only the new handle; a saved reply puts the blob first, then the clip at index 0 of the history, then the dehydrated history in the ledger |
| App.Library.StoreClip | App.tsx:198-211 | the blob is stored under the clip id, the clip heads the history, and the snapshot is the clip followed by the old dehydrated history, written after the blob |
| App.Library.AddReferenceVoice | App.tsx:87-114 | a failed analysis or save changes nothing; otherwise the blob is saved under `voice-<time>`, the voice goes at the tail with its new handle, and the dehydrated list is written after the blob |
| App.Library.StoreVoice | App.tsx:95-107 | the blob is stored under the voice id, the voice is appended, and the snapshot is the old dehydrated list followed by the voice |
| App.Library.DeleteHistory | App.tsx:228-235 | revokes the first match's handle when it has one, drops the blob, removes every clip with the id, and writes a snapshot holding no record with the id, blob delete first |
| App.Library.BeginEdit | App.tsx:452 | the dialog holds the clicked voice |
| App.Library.EditName | App.tsx:504 | only the copy's name changes |
| App.Library.EditDescription | App.tsx:508 | only the copy's description changes |
| App.Library.CancelEdit | App.tsx:519 | the dialog closes and nothing else changes |
| App.Library.SaveVoiceEdit | App.tsx:237-243 | with no dialog open nothing changes; otherwise every voice with the edited id is replaced, the dehydrated list is written, and the dialog closes |
| App.Library.CommitEdit | App.tsx:239-242 | with the dialog open on a copy, every voice with its id becomes the copy, the dehydrated list is written, the dialog closes and the invariant holds |
| App.Library.DeleteVoice | App.tsx:453 | as written: drops the blob and removes every voice with the id; ledger and handles are left untouched |
| App.Library.DeleteVoicePersisted | App.tsx:228-235 | the corrected voice delete: revokes the first match's handle, drops the blob, removes the id, and writes the dehydrated list |
| App.Library.ToggleRefVoice | App.tsx:440 | the selection becomes NextSelection of the old one and the clicked voice |
| App.Library.ClearRefVoice | App.tsx:318 | no reference voice is selected |
| App.Library.SelectPreset | App.tsx:338 | the clicked preset is selected |

Every method of `App.Library` also keeps `Valid()`. Under `Valid()`:

- clips hold speech records and voices hold voice records;
- every handle shown, in either list or in the edit dialog, is live;
- within each side, entries that share a handle share an id;
- no clip handle is also a voice handle.

## Left out

- Rendering is not modelled: JSX, CSS and the icon components have no state to verify.
- Microphone capture is not modelled (`getUserMedia`, `MediaRecorder`, the recording timer). A recording reaches the model as the bytes passed to `AddReferenceVoice`.
- The Gemini backend (`services/geminiService.ts`) is a parameter: `Generate` receives its reply or `None`, and `AddReferenceVoice` receives the analysis or `None`. A `fileToBase64` failure is the `None` analysis. A failure of `fetch(result.blobUrl)` (App.tsx:196-197) comes after `generateSpeech` has already created the handle, so it is a save failure (`saved = false`) and that handle stays live. The analysis is parsed from the reply with `JSON.parse(response.text || '{}')` and no check, so each of its fields is an `Option` and may be missing.
- PCM decoding and WAV encoding (`utils/audioUtils`) are not part of this model.
- The IndexedDB internals of `utils/db` are not part of this model. The blob store is a map from id to bytes. A blob save that fails is the `saved` parameter; failures of `getAudioBlob` and `deleteAudioBlob` are not modelled.
- localStorage with `JSON.stringify`/`JSON.parse` is a map from key to document. A document that does not parse is `Garbled`. A parsed list holding records of the other kind is treated as unparseable; JavaScript would accept it and show the wrong-kind objects.
- Quota errors thrown by `localStorage.setItem` are not modelled; every snapshot write succeeds.
- The two `loadUserData` snapshots are loaded for the user id passed in. All other handlers use `local_user`, as the source does.
- JsString.NatToString: gives the plain digit string, while JavaScript's `toString` switches to exponent notation from 1e21 upward. `Date.now()` is at most 8.64e15, so the digit-string model covers every reading the handlers can make.
- `Date.now()` is read twice in `handleGenerate` and `processAudioForReference`, once for the id and once for `createdAt`. Both readings are parameters (`idTime`, `createdAt`), and the id reading is taken as non-negative.
- App.Library.Generate: the handle the backend made for a reply whose blob save fails stays live and is never revoked, as in the source.
- App.Library.LoadUserData: states that newly shown handles play their record's blob only through `LoadHistory` and `LoadVoices`, which it calls in order.
- AppRules.ClipText: counts Dafny characters where JavaScript counts UTF-16 code units, so text with characters outside the Basic Multilingual Plane is cut at a different place.
- AppRules.FormatDuration: defined on non-negative whole seconds only. Its one caller passes the recording counter, which starts at 0 and goes up by 1.
- AppRules.ResolveVoice: a preset has no `stylePrompt` field in `types.ts`, so the source reads `undefined` there and the model uses no style.
- `MAX_TEXT_LENGTH` only limits the text area in the view and is not modelled.
- The `isGenerating`, `isUploading` and `isRecording` flags, the language toggle, translations and the API-key field are presentation only.
- The selected reference voice is a copy. Editing or deleting the listed voice does not update it, as in the source. The model keeps the copy and states nothing about it beyond its kind.
- Handles are not revoked when the page unloads; the source has no such step.
- App.Library.Generate: its `request` is the voice and style App.tsx computes at App.tsx:179-186, not what the `generateSpeech` of services/geminiService.ts receives. That method takes `(text, voice, referenceDescription)`, and App.tsx:188-193 passes `(keyToUse, text, baseVoice, stylePrompt)`. So every argument lands one parameter early and the style is dropped; `AppRules.SpeechCallAsWritten` models that binding and "## Findings" records it.
- App.Library.AddReferenceVoice: `analyzeVoice(keyToUse, base64, blob.type)` at App.tsx:93 is shifted the same way against `analyzeVoice(base64Audio, mimeType)`. The analysis stays a parameter, so the model does not depend on what the backend would do with the shifted arguments.
- Interleaving of handlers is not modelled: each `App.Library` method runs as one atomic step on the current state. The source reads the `history` of its own render after an `await` (App.tsx:209 after 188-198, App.tsx:232 after 231), so two handlers that overlap act on an old list. The same holds for `customVoices` in the recording callback: `mediaRecorder.onstop` (App.tsx:130-134) calls the `processAudioForReference` of the render where recording started, which appends to that render's list (App.tsx:105) and writes it (App.tsx:107). So an upload during a recording is dropped, with its blob kept and its handle live; a voice edit saved during it is reverted; and a voice deleted during it comes back. The lemmas `App.StaleGenerateRevivesDeletedClip`, `App.StaleDeleteRevivesDeletedClip` and `App.StaleRecordingDropsUpload` state the outcome of three of these cases on values.
- `dbConfig.ts` holds a constant that the handlers never use.

## Findings

| source | as written | input that shows it | evidently intended | confidence | as-written member | corrected member |
|---|---|---|---|---|---|---|
| App.tsx:453 | the voice delete drops the blob and filters the in-memory list, but rewrites no `vox_custom_voices_` snapshot and revokes no handle | save voice `voice-1`, delete it, reload: the snapshot still lists `voice-1`, so hydration shows it again with the empty handle | delete the voice from the snapshot and revoke its handle, as `handleDeleteHistory` does for clips (App.tsx:228-235) | high, not executed | App.DeletedVoiceReappears | App.PersistedDeleteStaysDeleted |
| App.tsx:209 | `handleGenerate` prepends the new clip to the `history` of the render that started it, read after the awaits at App.tsx:188-198 | start generating, delete a clip that has a handle while the reply is awaited: the new list shows the deleted clip again with its revoked handle, and the snapshot written at App.tsx:211 lists it again | prepend to the history current when the reply arrives (a functional `setHistory` update) | medium, not executed | App.StaleGenerateRevivesDeletedClip | App.Library.StoreClip |
| App.tsx:232 | `handleDeleteHistory` filters the `history` of the render that started it, after the `await` at App.tsx:231 | delete clip `a`, then clip `b` before the first blob delete finishes: the second filter keeps `a` with its revoked handle and the snapshot lists `a` again | filter the history current when the blob delete finishes | medium, not executed | App.StaleDeleteRevivesDeletedClip | App.Library.DeleteHistory |
| App.tsx:105 | the recording's `onstop` callback (App.tsx:130-134) appends to the `customVoices` of the render where recording started | start recording with voices V0, upload file F with the + button (App.tsx:410), stop: the list and the snapshot become V0 plus the recording, F is gone, its blob `voice-<t>` stays stored and its handle stays live | append to the voice list current when the analysis returns | medium, not executed | App.StaleRecordingDropsUpload | App.Library.StoreVoice |
| App.tsx:188-193 | `generateSpeech(keyToUse, text, baseVoice, stylePrompt)` against the declared `generateSpeech(text, voice, referenceDescription)`: the key is the text, the user's text is the voice, the base voice is the description, and the style is dropped | no API key, the text "Hello" and a female reference voice described as "calm": the backend is asked to speak "TEST_MODE", with the voice "Hello" and the description "Kore" | pass `(text, baseVoice, stylePrompt)` | medium, not executed; the `services/geminiService.ts` in the repository may differ from the deployed build | AppRules.SpeechCallAsWrittenLosesTextAndStyle | AppRules.SpeechCallForInjective |
