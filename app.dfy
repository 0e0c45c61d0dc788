// The audio-library state of the App component (App.tsx) and its handlers:
// hydration on load, adding a generated clip or a reference voice, deleting
// a clip, editing, deleting and selecting a reference voice.
//
// The component's state is a class. `ledger` stands for localStorage (one
// snapshot document per key), `blobs` for the blob store of utils/db keyed by
// record id, and `live` for the object URLs created and not yet revoked, each
// with the bytes it plays. Clock readings, backend replies, whether a blob
// save succeeds and the URLs `URL.createObjectURL` returns are parameters.
module App {
  import opened Types
  import opened Constants
  import opened JsString
  import opened AppRules
  import opened Ledger
  import opened LibraryInvariant

  /** A durable write, in the order the handlers issue them. */
  datatype Write = PutBlob(key: string) | DropBlob(key: string) | SaveSnapshot(key: string)

  /**
   * What the voice-analysis backend reports about a reference recording. The
   * reply is parsed from JSON without checking its fields, so either may be
   * missing.
   */
  datatype Analysis = Analysis(description: Option<string>, gender: Option<Gender>)

  predicate OfKind(rs: seq<Record>, speech: bool) {
    forall r :: r in rs ==> if speech then r.Speech? else r.Voice?
  }

  /**
   * The records stored under `key`, when there is a document there that
   * parses as a list of records of the wanted kind; none when the key is
   * missing or the document is unparseable.
   */
  function Readable(ledger: map<string, Doc>, key: string, speech: bool): (r: Option<seq<Record>>)
    ensures key !in ledger ==> r.None?
    ensures key in ledger && ledger[key].Garbled? ==> r.None?
    ensures r.Some? ==> key in ledger && ledger[key] == Snapshot(r.value) && OfKind(r.value, speech)
    ensures key in ledger && ledger[key].Snapshot? && OfKind(ledger[key].records, speech) ==> r.Some?
  {
    if key in ledger && ledger[key].Snapshot? && OfKind(ledger[key].records, speech)
    then Some(ledger[key].records) else None
  }

  /** `h` is the handle given for one of the first `n` records, and that record's blob is stored. */
  ghost predicate MintedFor(h: Handle, rs: seq<Record>, blobs: map<string, Bytes>, hs: seq<Handle>, n: nat)
    requires n <= |rs| <= |hs|
  {
    exists k :: 0 <= k < n && rs[k].id in blobs && h == hs[k]
  }

  /**
   * Deleting a reference voice as written leaves its snapshot in the ledger
   * and only drops its blob: hydrating that snapshot on the next load brings
   * the voice back, as an orphan with the empty handle.
   */
  lemma DeletedVoiceReappears(rs: seq<Record>, blobs: map<string, Bytes>, hs: seq<Handle>, id: string)
    requires |hs| >= |rs|
    requires exists k :: 0 <= k < |rs| && rs[k].id == id
    ensures exists e :: e in Hydrate(rs, blobs - {id}, hs) && e.record.id == id && e.blobUrl == ""
  {
    var k :| 0 <= k < |rs| && rs[k].id == id;
    assert Hydrate(rs, blobs - {id}, hs)[k] == Entry(rs[k], "");
  }

  /** The smallest instance: one saved voice, deleted, comes back after a reload without a handle. */
  lemma DeletedVoiceReappearsExample()
    ensures var v := Voice("voice-1", DEFAULT_USER_ID, "a.webm", 1, None, None);
      Hydrate([v], map["voice-1" := [0 as bv8]] - {"voice-1"}, ["blob:1"]) == [Entry(v, "")]
  {
  }

  /** After a delete that rewrites the snapshot, a reload never shows the deleted id again. */
  lemma PersistedDeleteStaysDeleted(vs: seq<Entry>, blobs: map<string, Bytes>, hs: seq<Handle>, id: string)
    requires |hs| >= |vs|
    ensures |hs| >= |Dehydrate(RemoveById(vs, id))|
    ensures forall e :: e in Hydrate(Dehydrate(RemoveById(vs, id)), blobs, hs) ==> e.record.id != id
  {
    var kept := RemoveById(vs, id);
    var es := Hydrate(Dehydrate(kept), blobs, hs);
    forall e | e in es ensures e.record.id != id {
      var i :| 0 <= i < |es| && es[i] == e;
      assert e.record == kept[i].record;
      assert kept[i] in kept;
    }
  }

  /**
   * `handleGenerate` as written prepends the new clip to the history of the
   * render that started it. When a clip was deleted while the reply was
   * awaited, the list it shows holds the deleted clip with its revoked
   * handle, and the snapshot it writes still holds the deleted record.
   */
  lemma StaleGenerateRevivesDeletedClip(history: seq<Entry>, live: map<Handle, Bytes>, id: string,
                                        clip: Entry, bytes: Bytes)
    requires ShownLive(history, live)
    requires FindById(history, id).Some? && FindById(history, id).value.blobUrl != ""
    requires clip.blobUrl !in live
    ensures !ShownLive([clip] + history, RevokeFound(live, FindById(history, id))[clip.blobUrl := bytes])
    ensures exists r :: r in Dehydrate([clip] + history) && r.id == id
  {
    var found := FindById(history, id);
    var item := found.value;
    var k :| 0 <= k < |history| && history[k] == item;
    var shown := [clip] + history;
    assert shown[k + 1] == item;
    assert item.blobUrl in live;
    var revoked := RevokeFound(live, found);
    assert item.blobUrl !in revoked;
    assert item.blobUrl !in revoked[clip.blobUrl := bytes];
    assert Dehydrate(shown)[k + 1] == item.record;
  }

  /**
   * `handleDeleteHistory` as written filters the history of the render that
   * started it. When two deletes overlap, the second writes back the clip
   * the first removed, with the handle the first revoked.
   */
  lemma StaleDeleteRevivesDeletedClip(history: seq<Entry>, live: map<Handle, Bytes>, first: string, second: string)
    requires FindById(history, first).Some? && FindById(history, first).value.blobUrl != ""
    requires first != second
    ensures !ShownLive(RemoveById(history, second),
                       RevokeFound(RevokeFound(live, FindById(history, first)), FindById(history, second)))
    ensures exists r :: r in Dehydrate(RemoveById(history, second)) && r.id == first
  {
    var item := FindById(history, first).value;
    var kept := RemoveById(history, second);
    assert item in history;
    assert item in kept;
    var k :| 0 <= k < |kept| && kept[k] == item;
    assert Dehydrate(kept)[k] == item.record;
  }

  /**
   * The `onstop` callback of a recording calls the `processAudioForReference`
   * of the render where the recording started, which appends to that
   * render's voice list. A voice uploaded while recording (`voices` was
   * `before + [upload]` by then) is dropped from the list and from the
   * snapshot, and its handle is shown by no entry although it stays live.
   */
  lemma StaleRecordingDropsUpload(before: seq<Entry>, upload: Entry, recording: Entry)
    requires forall e :: e in before ==> e.record.id != upload.record.id && e.blobUrl != upload.blobUrl
    requires recording.record.id != upload.record.id && recording.blobUrl != upload.blobUrl
    ensures upload in before + [upload] && upload !in before + [recording]
    ensures forall e :: e in before + [recording] ==> e.blobUrl != upload.blobUrl
    ensures forall r :: r in Dehydrate(before + [recording]) ==> r.id != upload.record.id
  {
    var stale := before + [recording];
    forall r | r in Dehydrate(stale) ensures r.id != upload.record.id {
      var k :| 0 <= k < |stale| && Dehydrate(stale)[k] == r;
      assert stale[k] in stale;
    }
  }

  /** The snapshot of a list of voices reads back as voices. */
  lemma DehydratedVoices(es: seq<Entry>)
    requires forall e :: e in es ==> e.record.Voice?
    ensures OfKind(Dehydrate(es), false)
  {
    var saved := Dehydrate(es);
    forall r | r in saved ensures r.Voice? {
      var i :| 0 <= i < |saved| && saved[i] == r;
      assert es[i] in es;
    }
  }

  /** The handles a hydration shows are live and play the blob of their record. */
  lemma LiveAfterHydration(rs: seq<Record>, blobs: map<string, Bytes>, hs: seq<Handle>, live: map<Handle, Bytes>)
    requires |hs| >= |rs|
    requires forall k :: 0 <= k < |rs| && rs[k].id in blobs ==> hs[k] in live && live[hs[k]] == blobs[rs[k].id]
    ensures ShownLive(Hydrate(rs, blobs, hs), live)
    ensures forall e :: e in Hydrate(rs, blobs, hs) && e.blobUrl != "" ==>
      e.record.id in blobs && live[e.blobUrl] == blobs[e.record.id]
  {
    var es := Hydrate(rs, blobs, hs);
    forall e | e in es && e.blobUrl != ""
      ensures e.blobUrl in live && e.record.id in blobs && live[e.blobUrl] == blobs[e.record.id]
    {
      var i :| 0 <= i < |es| && es[i] == e;
      assert rs[i].id in blobs;
    }
  }

  class Library {
    var history: seq<Entry>
    var customVoices: seq<Entry>
    var selectedVoice: VoicePreset
    var selectedRefVoice: Option<Entry>
    var editingVoice: Option<Entry>
    var ledger: map<string, Doc>
    var blobs: map<string, Bytes>
    var live: map<Handle, Bytes>
    ghost var writes: seq<Write>

    ghost predicate Valid()
      reads this
    {
      Inv(history, customVoices, editingVoice, live)
      && (selectedRefVoice.Some? ==> selectedRefVoice.value.record.Voice?)
      && selectedVoice in VOICE_PRESETS
    }

    /** A fresh component over what earlier sessions left in storage. */
    constructor (storedLedger: map<string, Doc>, storedBlobs: map<string, Bytes>)
      ensures Valid()
      ensures history == [] && customVoices == []
      ensures selectedVoice == VOICE_PRESETS[0] && selectedRefVoice == None && editingVoice == None
      ensures ledger == storedLedger && blobs == storedBlobs && live == map[] && writes == []
    {
      history, customVoices := [], [];
      selectedVoice, selectedRefVoice, editingVoice := VOICE_PRESETS[0], None, None;
      ledger, blobs, live := storedLedger, storedBlobs, map[];
      writes := [];
    }

    /**
     * One `Promise.all(parsed.map(...))` of `loadUserData`, run in list
     * order: for each record, look its blob up and, when found, create a
     * handle for it.
     */
    method HydrateRecords(rs: seq<Record>, hs: seq<Handle>) returns (es: seq<Entry>)
      requires |hs| >= |rs|
      requires FreshHandles(hs, live)
      modifies this`live
      ensures es == Hydrate(rs, blobs, hs)
      ensures forall h :: h in old(live) ==> h in live && live[h] == old(live)[h]
      ensures forall k :: 0 <= k < |rs| && rs[k].id in blobs ==>
        hs[k] in live && live[hs[k]] == blobs[rs[k].id]
      ensures forall h :: h in live && h !in old(live) ==> MintedFor(h, rs, blobs, hs, |rs|)
    {
      es := [];
      var i := 0;
      while i < |rs|
        invariant 0 <= i <= |rs|
        invariant |es| == i && forall k :: 0 <= k < i ==> es[k] == Attach(rs[k], blobs, hs[k])
        invariant forall h :: h in old(live) ==> h in live && live[h] == old(live)[h]
        invariant forall k :: 0 <= k < i && rs[k].id in blobs ==>
          hs[k] in live && live[hs[k]] == blobs[rs[k].id]
        invariant forall k :: i <= k < |hs| ==> hs[k] !in live
        invariant forall h :: h in live && h !in old(live) ==> MintedFor(h, rs, blobs, hs, i)
      {
        if rs[i].id in blobs {
          live := live[hs[i] := blobs[rs[i].id]];
        }
        es := es + [Attach(rs[i], blobs, hs[i])];
        i := i + 1;
      }
      var want := Hydrate(rs, blobs, hs);
      assert forall k :: 0 <= k < |rs| ==> es[k] == want[k];
    }

    /**
     * `loadUserData`: for each of the two snapshots that is present and
     * parses, replace the in-memory list with its hydration; a missing or
     * unparseable snapshot leaves the list as it was.
     */
    method LoadUserData(userId: string, historyHandles: seq<Handle>, voiceHandles: seq<Handle>)
      requires Valid()
      requires var rs := Readable(ledger, HistoryKey(userId), true); rs.Some? ==> |historyHandles| >= |rs.value|
      requires var rs := Readable(ledger, VoicesKey(userId), false); rs.Some? ==> |voiceHandles| >= |rs.value|
      requires FreshHandles(historyHandles + voiceHandles, live)
      modifies this`history, this`customVoices, this`live
      ensures Valid()
      ensures var rs := Readable(ledger, HistoryKey(userId), true);
        history == if rs.Some? then Hydrate(rs.value, blobs, historyHandles) else old(history)
      ensures var rs := Readable(ledger, VoicesKey(userId), false);
        customVoices == if rs.Some? then Hydrate(rs.value, blobs, voiceHandles) else old(customVoices)
      ensures forall h :: h in old(live) ==> h in live && live[h] == old(live)[h]
      ensures forall h :: h in live && h !in old(live) ==>
        (var rs := Readable(ledger, HistoryKey(userId), true);
         rs.Some? && exists k :: 0 <= k < |rs.value| && rs.value[k].id in blobs && h == historyHandles[k])
        || (var rs := Readable(ledger, VoicesKey(userId), false);
            rs.Some? && exists k :: 0 <= k < |rs.value| && rs.value[k].id in blobs && h == voiceHandles[k])
    {
      ghost var live0 := live;
      FreshSplit(historyHandles, voiceHandles, live);
      LoadHistory(userId, historyHandles);
      FreshAfterMint(historyHandles, voiceHandles, live0, live);
      LoadVoices(userId, voiceHandles);
    }

    /** The clip half of `loadUserData`. */
    method LoadHistory(userId: string, hs: seq<Handle>)
      requires Valid()
      requires var rs := Readable(ledger, HistoryKey(userId), true); rs.Some? ==> |hs| >= |rs.value|
      requires FreshHandles(hs, live)
      modifies this`history, this`live
      ensures Valid()
      ensures var rs := Readable(ledger, HistoryKey(userId), true);
        history == if rs.Some? then Hydrate(rs.value, blobs, hs) else old(history)
      ensures forall h :: h in old(live) ==> h in live && live[h] == old(live)[h]
      ensures var rs := Readable(ledger, HistoryKey(userId), true);
        forall h :: h in live && h !in old(live) ==>
          rs.Some? && exists k :: 0 <= k < |rs.value| && rs.value[k].id in blobs && h == hs[k]
      ensures forall e :: e in history && e.blobUrl !in old(live) && e.blobUrl != "" ==>
        e.record.id in blobs && live[e.blobUrl] == blobs[e.record.id]
    {
      var saved := Readable(ledger, HistoryKey(userId), true);
      if saved.Some? {
        var live0 := live;
        var hydrated := HydrateRecords(saved.value, hs);
        LiveAfterHydration(saved.value, blobs, hs, live);
        HydrateHistoryKeepsInv(history, customVoices, editingVoice, live0, live, saved.value, blobs, hs);
        history := hydrated;
      }
    }

    /** The reference-voice half of `loadUserData`. */
    method LoadVoices(userId: string, hs: seq<Handle>)
      requires Valid()
      requires var rs := Readable(ledger, VoicesKey(userId), false); rs.Some? ==> |hs| >= |rs.value|
      requires FreshHandles(hs, live)
      modifies this`customVoices, this`live
      ensures Valid()
      ensures var rs := Readable(ledger, VoicesKey(userId), false);
        customVoices == if rs.Some? then Hydrate(rs.value, blobs, hs) else old(customVoices)
      ensures forall h :: h in old(live) ==> h in live && live[h] == old(live)[h]
      ensures var rs := Readable(ledger, VoicesKey(userId), false);
        forall h :: h in live && h !in old(live) ==>
          rs.Some? && exists k :: 0 <= k < |rs.value| && rs.value[k].id in blobs && h == hs[k]
      ensures forall e :: e in customVoices && e.blobUrl !in old(live) && e.blobUrl != "" ==>
        e.record.id in blobs && live[e.blobUrl] == blobs[e.record.id]
    {
      var saved := Readable(ledger, VoicesKey(userId), false);
      if saved.Some? {
        var live0 := live;
        var hydrated := HydrateRecords(saved.value, hs);
        LiveAfterHydration(saved.value, blobs, hs, live);
        assert editingVoice.Some? && editingVoice.value.blobUrl != "" ==> editingVoice.value.blobUrl in live0 by {
          if editingVoice.Some? { assert editingVoice.value in VoiceSide(customVoices, editingVoice); }
        }
        HydrateVoicesKeepsInv(history, customVoices, editingVoice, live0, live, saved.value, blobs, hs);
        customVoices := hydrated;
      }
    }

    /**
     * `handleGenerate`. Text that is blank after trimming does nothing.
     * App.tsx passes the voice and style `ResolveVoice` picks; when the
     * backend fails nothing changes. When it answers, it has already created a handle
     * for the audio; the audio is then saved under the clip id, and only when
     * that save succeeds is the clip put at the head of the history and the
     * dehydrated history written to the ledger.
     */
    method Generate(text: string, personalLabel: string, reply: Option<Bytes>, saved: bool,
                    idTime: nat, createdAt: int, handle: Handle)
      returns (request: Option<VoiceRequest>, added: bool)
      requires Valid()
      requires handle != "" && handle !in live
      modifies this`history, this`blobs, this`ledger, this`live, this`writes
      ensures Valid()
      ensures request == if Trim(text) == [] then None else Some(ResolveVoice(selectedVoice, selectedRefVoice))
      ensures added <==> Trim(text) != [] && reply.Some? && saved
      ensures live == if Trim(text) != [] && reply.Some? then old(live)[handle := reply.value] else old(live)
      ensures !added ==>
        history == old(history) && blobs == old(blobs) && ledger == old(ledger) && writes == old(writes)
      ensures added ==>
        var clip := Speech(ClipId(idTime), DEFAULT_USER_ID, ClipText(text),
                           VoiceLabel(selectedVoice, selectedRefVoice, personalLabel), createdAt);
        history == [Entry(clip, handle)] + old(history)
        && blobs == old(blobs)[ClipId(idTime) := reply.value]
        && ledger == old(ledger)[HistoryKey(DEFAULT_USER_ID) := Snapshot([clip] + Dehydrate(old(history)))]
        && writes == old(writes) + [PutBlob(ClipId(idTime)), SaveSnapshot(HistoryKey(DEFAULT_USER_ID))]
    {
      added := false;
      if Trim(text) == [] {
        request := None;
        return;
      }
      request := Some(ResolveVoice(selectedVoice, selectedRefVoice));
      if reply.None? {
        return;
      }
      if !saved {
        MintKeepsInv(history, customVoices, editingVoice, live, handle, reply.value);
        live := live[handle := reply.value];
        return;
      }
      var clip := Speech(ClipId(idTime), DEFAULT_USER_ID, ClipText(text),
                         VoiceLabel(selectedVoice, selectedRefVoice, personalLabel), createdAt);
      StoreClip(Entry(clip, handle), reply.value);
      added := true;
    }

    /**
     * The tail of `handleGenerate` once the audio is saved under the clip id:
     * the clip goes to the head of the history and the dehydrated history is
     * written to the ledger.
     */
    method StoreClip(entry: Entry, audio: Bytes)
      requires Valid()
      requires entry.record.Speech? && entry.blobUrl != "" && entry.blobUrl !in live
      modifies this`history, this`blobs, this`ledger, this`live, this`writes
      ensures Valid()
      ensures history == [entry] + old(history)
      ensures live == old(live)[entry.blobUrl := audio]
      ensures blobs == old(blobs)[entry.record.id := audio]
      ensures ledger == old(ledger)[HistoryKey(DEFAULT_USER_ID) := Snapshot([entry.record] + Dehydrate(old(history)))]
      ensures writes == old(writes) + [PutBlob(entry.record.id), SaveSnapshot(HistoryKey(DEFAULT_USER_ID))]
    {
      PrependClipKeepsInv(history, customVoices, editingVoice, live, entry, audio);
      DehydrateConcat([entry], history);
      assert Dehydrate([entry]) == [entry.record];
      var updated := [entry] + history;
      var saved := ledger[HistoryKey(DEFAULT_USER_ID) := Snapshot(Dehydrate(updated))];
      live, blobs, history, ledger := live[entry.blobUrl := audio], blobs[entry.record.id := audio], updated, saved;
      writes := writes + [PutBlob(entry.record.id), SaveSnapshot(HistoryKey(DEFAULT_USER_ID))];
    }

    /**
     * `processAudioForReference`. When the analysis fails or the blob cannot
     * be saved, nothing changes. Otherwise the recording is saved under
     * `voice-<time>`, a handle is created for it, the voice is appended to
     * the list and the dehydrated list is written to the ledger.
     */
    method AddReferenceVoice(fileName: string, audio: Bytes, analysis: Option<Analysis>, saved: bool,
                             idTime: nat, createdAt: int, handle: Handle)
      returns (added: bool)
      requires Valid()
      requires handle != "" && handle !in live
      modifies this`customVoices, this`blobs, this`ledger, this`live, this`writes
      ensures Valid()
      ensures added <==> analysis.Some? && saved
      ensures !added ==>
        customVoices == old(customVoices) && blobs == old(blobs) && ledger == old(ledger)
        && live == old(live) && writes == old(writes)
      ensures added ==>
        var voice := Voice(VoiceId(idTime), DEFAULT_USER_ID, fileName, createdAt,
                           analysis.value.description, analysis.value.gender);
        customVoices == old(customVoices) + [Entry(voice, handle)]
        && blobs == old(blobs)[VoiceId(idTime) := audio]
        && live == old(live)[handle := audio]
        && ledger == old(ledger)[VoicesKey(DEFAULT_USER_ID) := Snapshot(Dehydrate(old(customVoices)) + [voice])]
        && writes == old(writes) + [PutBlob(VoiceId(idTime)), SaveSnapshot(VoicesKey(DEFAULT_USER_ID))]
    {
      added := false;
      if analysis.None? || !saved {
        return;
      }
      var voice := Voice(VoiceId(idTime), DEFAULT_USER_ID, fileName, createdAt,
                         analysis.value.description, analysis.value.gender);
      StoreVoice(Entry(voice, handle), audio);
      added := true;
    }

    /**
     * The tail of `processAudioForReference` once the recording is saved
     * under the voice id: the voice is appended to the list and the
     * dehydrated list is written to the ledger.
     */
    method StoreVoice(entry: Entry, audio: Bytes)
      requires Valid()
      requires entry.record.Voice? && entry.blobUrl != "" && entry.blobUrl !in live
      modifies this`customVoices, this`blobs, this`ledger, this`live, this`writes
      ensures Valid()
      ensures customVoices == old(customVoices) + [entry]
      ensures live == old(live)[entry.blobUrl := audio]
      ensures blobs == old(blobs)[entry.record.id := audio]
      ensures ledger == old(ledger)[VoicesKey(DEFAULT_USER_ID) := Snapshot(Dehydrate(old(customVoices)) + [entry.record])]
      ensures writes == old(writes) + [PutBlob(entry.record.id), SaveSnapshot(VoicesKey(DEFAULT_USER_ID))]
    {
      AppendVoiceKeepsInv(history, customVoices, editingVoice, live, entry, audio);
      DehydrateConcat(customVoices, [entry]);
      assert Dehydrate([entry]) == [entry.record];
      var updated := customVoices + [entry];
      var saved := ledger[VoicesKey(DEFAULT_USER_ID) := Snapshot(Dehydrate(updated))];
      live, blobs, customVoices, ledger := live[entry.blobUrl := audio], blobs[entry.record.id := audio], updated, saved;
      writes := writes + [PutBlob(entry.record.id), SaveSnapshot(VoicesKey(DEFAULT_USER_ID))];
    }

    /**
     * `handleDeleteHistory`: revoke the handle of the first clip with the id
     * when it has one, drop the blob, remove every clip with the id and write
     * the dehydrated history to the ledger.
     */
    method DeleteHistory(id: string)
      requires Valid()
      modifies this`history, this`blobs, this`ledger, this`live, this`writes
      ensures Valid()
      ensures live == RevokeFound(old(live), FindById(old(history), id))
      ensures blobs == old(blobs) - {id}
      ensures history == RemoveById(old(history), id)
      ensures ledger == old(ledger)[HistoryKey(DEFAULT_USER_ID) := Snapshot(Dehydrate(history))]
      ensures forall r :: r in ledger[HistoryKey(DEFAULT_USER_ID)].records ==> r.id != id
      ensures writes == old(writes) + [DropBlob(id), SaveSnapshot(HistoryKey(DEFAULT_USER_ID))]
    {
      RemoveClipKeepsInv(history, customVoices, editingVoice, live, id);
      DehydrateRemoveById(history, id);
      var updated := RemoveById(history, id);
      live, blobs, history := RevokeFound(live, FindById(history, id)), blobs - {id}, updated;
      ledger := ledger[HistoryKey(DEFAULT_USER_ID) := Snapshot(Dehydrate(updated))];
      writes := writes + [DropBlob(id), SaveSnapshot(HistoryKey(DEFAULT_USER_ID))];
    }

    /** The edit button: open the dialog on a copy of a listed voice. */
    method BeginEdit(voice: Entry)
      requires Valid()
      requires voice in customVoices
      modifies this`editingVoice
      ensures Valid()
      ensures editingVoice == Some(voice)
    {
      OpenEditKeepsInv(history, customVoices, editingVoice, live, voice);
      editingVoice := Some(voice);
    }

    /** Typing in the dialog's name field. */
    method EditName(name: string)
      requires Valid()
      requires editingVoice.Some?
      modifies this`editingVoice
      ensures Valid()
      ensures var v := old(editingVoice.value); editingVoice == Some(Entry(v.record.(name := name), v.blobUrl))
    {
      var v := editingVoice.value;
      assert v in VoiceSide(customVoices, editingVoice);
      var changed := Entry(v.record.(name := name), v.blobUrl);
      ChangeEditKeepsInv(history, customVoices, live, v, changed);
      editingVoice := Some(changed);
    }

    /** Typing in the dialog's remarks field. */
    method EditDescription(description: string)
      requires Valid()
      requires editingVoice.Some?
      modifies this`editingVoice
      ensures Valid()
      ensures var v := old(editingVoice.value);
        editingVoice == Some(Entry(v.record.(description := Some(description)), v.blobUrl))
    {
      var v := editingVoice.value;
      assert v in VoiceSide(customVoices, editingVoice);
      var changed := Entry(v.record.(description := Some(description)), v.blobUrl);
      ChangeEditKeepsInv(history, customVoices, live, v, changed);
      editingVoice := Some(changed);
    }

    /** The dialog's cancel button. */
    method CancelEdit()
      requires Valid()
      modifies this`editingVoice
      ensures Valid()
      ensures editingVoice == None
    {
      CloseEditKeepsInv(history, customVoices, editingVoice, live);
      editingVoice := None;
    }

    /**
     * `handleSaveVoiceEdit`: with no dialog open, nothing happens; otherwise
     * every voice with the edited id is replaced by the edited copy, the
     * dehydrated list is written to the ledger and the dialog closes.
     */
    method SaveVoiceEdit()
      requires Valid()
      modifies this`customVoices, this`ledger, this`editingVoice, this`writes
      ensures Valid()
      ensures old(editingVoice).None? ==>
        customVoices == old(customVoices) && ledger == old(ledger) && writes == old(writes)
      ensures old(editingVoice).Some? ==>
        customVoices == ReplaceById(old(customVoices), old(editingVoice).value)
        && ledger == old(ledger)[VoicesKey(DEFAULT_USER_ID) := Snapshot(Dehydrate(customVoices))]
        && writes == old(writes) + [SaveSnapshot(VoicesKey(DEFAULT_USER_ID))]
      ensures editingVoice == None
    {
      if editingVoice.Some? {
        CommitEdit(editingVoice.value);
      }
    }

    /** The open copy replaces every voice with its id, the list is written and the dialog closes. */
    method CommitEdit(edited: Entry)
      requires Valid()
      requires editingVoice == Some(edited)
      modifies this`customVoices, this`ledger, this`editingVoice, this`writes
      ensures Valid()
      ensures customVoices == ReplaceById(old(customVoices), edited)
      ensures ledger == old(ledger)[VoicesKey(DEFAULT_USER_ID) := Snapshot(Dehydrate(customVoices))]
      ensures writes == old(writes) + [SaveSnapshot(VoicesKey(DEFAULT_USER_ID))]
      ensures editingVoice == None
    {
      SaveEditKeepsInv(history, customVoices, edited, live);
      var updated := ReplaceById(customVoices, edited);
      var saved := ledger[VoicesKey(DEFAULT_USER_ID) := Snapshot(Dehydrate(updated))];
      customVoices, editingVoice, ledger := updated, None, saved;
      writes := writes + [SaveSnapshot(VoicesKey(DEFAULT_USER_ID))];
    }

    /**
     * The trash button of a reference voice, as written: the blob is dropped
     * and every voice with the id leaves the list, but the ledger snapshot is
     * not rewritten and no handle is revoked (see `DeletedVoiceReappears`).
     * A selected reference voice stays selected.
     */
    method DeleteVoice(id: string)
      requires Valid()
      modifies this`customVoices, this`blobs, this`writes
      ensures Valid()
      ensures blobs == old(blobs) - {id}
      ensures customVoices == RemoveById(old(customVoices), id)
      ensures writes == old(writes) + [DropBlob(id)]
    {
      RemoveVoiceKeepsInv(history, customVoices, editingVoice, live, id);
      blobs := blobs - {id};
      writes := writes + [DropBlob(id)];
      customVoices := RemoveById(customVoices, id);
    }

    /**
     * The voice delete as `handleDeleteHistory` does it for clips: revoke the
     * first matching voice's handle, drop the blob, remove the voices with
     * the id and write the dehydrated list to the ledger. The edit dialog
     * covers the list, so no copy is open while a voice is deleted.
     */
    method DeleteVoicePersisted(id: string)
      requires Valid()
      requires editingVoice.None?
      modifies this`customVoices, this`blobs, this`live, this`ledger, this`writes
      ensures Valid()
      ensures live == RevokeFound(old(live), FindById(old(customVoices), id))
      ensures blobs == old(blobs) - {id}
      ensures customVoices == RemoveById(old(customVoices), id)
      ensures ledger == old(ledger)[VoicesKey(DEFAULT_USER_ID) := Snapshot(Dehydrate(customVoices))]
      ensures writes == old(writes) + [DropBlob(id), SaveSnapshot(VoicesKey(DEFAULT_USER_ID))]
    {
      RemoveVoiceRevokeKeepsInv(history, customVoices, live, id);
      var updated := RemoveById(customVoices, id);
      var saved := ledger[VoicesKey(DEFAULT_USER_ID) := Snapshot(Dehydrate(updated))];
      live, blobs, customVoices, ledger := RevokeFound(live, FindById(customVoices, id)), blobs - {id}, updated, saved;
      writes := writes + [DropBlob(id), SaveSnapshot(VoicesKey(DEFAULT_USER_ID))];
    }

    /** Clicking a listed reference voice toggles it as the selected reference. */
    method ToggleRefVoice(voice: Entry)
      requires Valid()
      requires voice in customVoices
      modifies this`selectedRefVoice
      ensures Valid()
      ensures selectedRefVoice == NextSelection(old(selectedRefVoice), voice)
    {
      assert voice in VoiceSide(customVoices, editingVoice);
      selectedRefVoice := NextSelection(selectedRefVoice, voice);
    }

    /** The remove-reference button. */
    method ClearRefVoice()
      requires Valid()
      modifies this`selectedRefVoice
      ensures Valid()
      ensures selectedRefVoice == None
    {
      selectedRefVoice := None;
    }

    /** Clicking a preset card. */
    method SelectPreset(preset: VoicePreset)
      requires Valid()
      requires preset in VOICE_PRESETS
      modifies this`selectedVoice
      ensures Valid()
      ensures selectedVoice == preset
    {
      selectedVoice := preset;
    }
  }

  /**
   * The voice delete as written, followed by a reload: the deleted voice is
   * listed again, without a handle.
   */
  method DeleteThenReload(lib: Library, k: nat, rs: seq<Record>, hs: seq<Handle>)
    requires lib.Valid()
    requires Readable(lib.ledger, VoicesKey(DEFAULT_USER_ID), false) == Some(rs)
    requires k < |rs|
    requires |hs| >= |rs| && FreshHandles(hs, lib.live)
    modifies lib
    ensures k < |lib.customVoices| && lib.customVoices[k] == Entry(rs[k], "")
  {
    lib.DeleteVoice(rs[k].id);
    lib.LoadVoices(DEFAULT_USER_ID, hs);
  }

  /** The corrected voice delete, followed by a reload: the deleted voice stays gone. */
  method DeletePersistedThenReload(lib: Library, id: string, hs: seq<Handle>)
    requires lib.Valid() && lib.editingVoice.None?
    requires |hs| >= |lib.customVoices| && FreshHandles(hs, lib.live)
    modifies lib
    ensures forall e :: e in lib.customVoices ==> e.record.id != id
  {
    ghost var voices := lib.customVoices;
    lib.DeleteVoicePersisted(id);
    assert forall e :: e in lib.customVoices ==> e in VoiceSide(lib.customVoices, lib.editingVoice);
    DehydratedVoices(lib.customVoices);
    lib.LoadVoices(DEFAULT_USER_ID, hs);
    PersistedDeleteStaysDeleted(voices, lib.blobs, hs, id);
  }
}
