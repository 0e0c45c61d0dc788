// The invariant the library state of App.tsx keeps about its object URLs,
// and one lemma per kind of update showing that the update keeps it.
module LibraryInvariant {
  import opened Types
  import opened Ledger

  /** Every entry that shows a handle shows one that has not been revoked. */
  ghost predicate ShownLive(es: seq<Entry>, live: map<Handle, Bytes>) {
    forall e :: e in es && e.blobUrl != "" ==> e.blobUrl in live
  }

  /** Entries sharing a handle are entries of one id. */
  ghost predicate OneIdPerHandle(es: seq<Entry>) {
    forall a, b :: a in es && b in es && a.blobUrl != "" && a.blobUrl == b.blobUrl ==> a.record.id == b.record.id
  }

  /** No clip handle is also a voice handle. */
  ghost predicate HandlesDisjoint(clips: seq<Entry>, voices: seq<Entry>) {
    forall c, v :: c in clips && v in voices && c.blobUrl != "" ==> c.blobUrl != v.blobUrl
  }

  /** The reference voices on screen: the list, and the copy open in the edit dialog. */
  function VoiceSide(voices: seq<Entry>, editing: Option<Entry>): seq<Entry> {
    voices + (if editing.Some? then [editing.value] else [])
  }

  /**
   * The library invariant: clips hold speech records and voices voice
   * records; every handle on screen is live; on each side a handle belongs
   * to one id; no clip handle is a voice handle.
   */
  ghost predicate Inv(history: seq<Entry>, voices: seq<Entry>, editing: Option<Entry>, live: map<Handle, Bytes>) {
    (forall e :: e in history ==> e.record.Speech?)
    && (forall e :: e in VoiceSide(voices, editing) ==> e.record.Voice?)
    && ShownLive(history, live) && ShownLive(VoiceSide(voices, editing), live)
    && OneIdPerHandle(history) && OneIdPerHandle(VoiceSide(voices, editing))
    && HandlesDisjoint(history, VoiceSide(voices, editing))
  }

  /** The handles after revoking the one of a found entry, when it has one. */
  function RevokeFound(live: map<Handle, Bytes>, item: Option<Entry>): map<Handle, Bytes> {
    if item.Some? && item.value.blobUrl != "" then live - {item.value.blobUrl} else live
  }

  /**
   * The revoke step of `handleDeleteHistory`: a found entry
   * with a handle loses exactly that handle, every other handle keeps its
   * bytes, and an entry not found or without a handle revokes nothing.
   */
  lemma RevokeFoundDropsOnlyFound(live: map<Handle, Bytes>, item: Option<Entry>)
    ensures RevokeFound(live, item).Keys <= live.Keys
    ensures forall h :: h in RevokeFound(live, item) ==> RevokeFound(live, item)[h] == live[h]
    ensures item.Some? && item.value.blobUrl != "" ==>
      RevokeFound(live, item).Keys == live.Keys - {item.value.blobUrl}
    ensures item.None? || item.value.blobUrl == "" ==> RevokeFound(live, item) == live
  {
  }

  /** Handles `URL.createObjectURL` may return next: non-empty, pairwise different, none live. */
  ghost predicate FreshHandles(hs: seq<Handle>, live: map<Handle, Bytes>) {
    (forall k :: 0 <= k < |hs| ==> hs[k] != "" && hs[k] !in live)
    && (forall j, k :: 0 <= j < k < |hs| ==> hs[j] != hs[k])
  }

  /** Both parts of a run of fresh handles are fresh. */
  lemma FreshSplit(hs1: seq<Handle>, hs2: seq<Handle>, live: map<Handle, Bytes>)
    requires FreshHandles(hs1 + hs2, live)
    ensures FreshHandles(hs1, live) && FreshHandles(hs2, live)
  {
    var hs := hs1 + hs2;
    assert forall k :: 0 <= k < |hs1| ==> hs1[k] == hs[k];
    assert forall k :: 0 <= k < |hs2| ==> hs2[k] == hs[|hs1| + k];
  }

  /** The later part of a run of fresh handles stays fresh after the earlier part is minted. */
  lemma FreshAfterMint(hs1: seq<Handle>, hs2: seq<Handle>, live: map<Handle, Bytes>, live': map<Handle, Bytes>)
    requires FreshHandles(hs1 + hs2, live)
    requires forall h :: h in live' && h !in live ==> h in hs1
    ensures FreshHandles(hs2, live')
  {
    var hs := hs1 + hs2;
    FreshSplit(hs1, hs2, live);
    forall j, k | 0 <= j < |hs1| && 0 <= k < |hs2| ensures hs1[j] != hs2[k] {
      assert hs[j] == hs1[j] && hs[|hs1| + k] == hs2[k];
    }
  }

  /** A hydrated entry shows a handle only when it is one of the given handles and its blob exists. */
  lemma HydratedHandles(rs: seq<Record>, blobs: map<string, Bytes>, hs: seq<Handle>)
    requires |hs| >= |rs|
    ensures forall e :: e in Hydrate(rs, blobs, hs) && e.blobUrl != "" ==>
      e.blobUrl in hs && e.record.id in blobs
  {
    var es := Hydrate(rs, blobs, hs);
    forall e | e in es && e.blobUrl != "" ensures e.blobUrl in hs && e.record.id in blobs {
      var i :| 0 <= i < |es| && es[i] == e;
      assert e.blobUrl == hs[i];
    }
  }

  /** Hydration with pairwise different handles gives every handle to one record. */
  lemma HydratedOneIdPerHandle(rs: seq<Record>, blobs: map<string, Bytes>, hs: seq<Handle>)
    requires |hs| >= |rs|
    requires forall j, k :: 0 <= j < k < |hs| ==> hs[j] != hs[k]
    ensures OneIdPerHandle(Hydrate(rs, blobs, hs))
  {
    var es := Hydrate(rs, blobs, hs);
    forall i, j | 0 <= i < j < |es| && es[i].blobUrl != ""
      ensures es[i].blobUrl != es[j].blobUrl
    {
      assert es[i].blobUrl == hs[i];
      assert hs[i] != hs[j];
    }
    forall a, b | a in es && b in es && a.blobUrl != "" && a.blobUrl == b.blobUrl
      ensures a.record.id == b.record.id
    {
      var i :| 0 <= i < |es| && es[i] == a;
      var j :| 0 <= j < |es| && es[j] == b;
    }
  }

  /** Creating a handle nobody shows yet keeps the invariant. */
  lemma MintKeepsInv(history: seq<Entry>, voices: seq<Entry>, editing: Option<Entry>,
                     live: map<Handle, Bytes>, url: Handle, bytes: Bytes)
    requires Inv(history, voices, editing, live)
    ensures Inv(history, voices, editing, live[url := bytes])
  {
  }

  /** A clip with a fresh handle at the head of the history keeps the invariant. */
  lemma PrependClipKeepsInv(history: seq<Entry>, voices: seq<Entry>, editing: Option<Entry>,
                            live: map<Handle, Bytes>, clip: Entry, bytes: Bytes)
    requires Inv(history, voices, editing, live)
    requires clip.record.Speech? && clip.blobUrl != "" && clip.blobUrl !in live
    ensures Inv([clip] + history, voices, editing, live[clip.blobUrl := bytes])
  {
    var h' := [clip] + history;
    var live' := live[clip.blobUrl := bytes];
    var side := VoiceSide(voices, editing);
    assert forall e :: e in h' ==> e == clip || e in history;
    forall c, v | c in h' && v in side && c.blobUrl != "" ensures c.blobUrl != v.blobUrl {
      if c == clip && v.blobUrl != "" { assert v.blobUrl in live; }
    }
  }

  /** A voice with a fresh handle at the tail of the list keeps the invariant. */
  lemma AppendVoiceKeepsInv(history: seq<Entry>, voices: seq<Entry>, editing: Option<Entry>,
                            live: map<Handle, Bytes>, voice: Entry, bytes: Bytes)
    requires Inv(history, voices, editing, live)
    requires voice.record.Voice? && voice.blobUrl != "" && voice.blobUrl !in live
    ensures Inv(history, voices + [voice], editing, live[voice.blobUrl := bytes])
  {
    var side := VoiceSide(voices, editing);
    var side' := VoiceSide(voices + [voice], editing);
    var live' := live[voice.blobUrl := bytes];
    assert forall e :: e in side' ==> e == voice || e in side;
    forall c, v | c in history && v in side' && c.blobUrl != "" ensures c.blobUrl != v.blobUrl {
      if v == voice { assert c.blobUrl in live; }
    }
  }

  /** Removing the clips of an id and revoking the first one's handle keeps the invariant. */
  lemma RemoveClipKeepsInv(history: seq<Entry>, voices: seq<Entry>, editing: Option<Entry>,
                           live: map<Handle, Bytes>, id: string)
    requires Inv(history, voices, editing, live)
    ensures Inv(RemoveById(history, id), voices, editing, RevokeFound(live, FindById(history, id)))
  {
    var item := FindById(history, id);
    var h' := RemoveById(history, id);
    var side := VoiceSide(voices, editing);
    if item.Some? && item.value.blobUrl != "" {
      var url := item.value.blobUrl;
      assert item.value in history;
      forall e | e in h' && e.blobUrl != "" ensures e.blobUrl != url {
        assert e in history && e.record.id != id;
      }
      forall e | e in side && e.blobUrl != "" ensures e.blobUrl != url {
      }
    }
  }

  /** Removing the voices of an id without revoking anything keeps the invariant. */
  lemma RemoveVoiceKeepsInv(history: seq<Entry>, voices: seq<Entry>, editing: Option<Entry>,
                            live: map<Handle, Bytes>, id: string)
    requires Inv(history, voices, editing, live)
    ensures Inv(history, RemoveById(voices, id), editing, live)
  {
    var side := VoiceSide(voices, editing);
    assert forall e :: e in VoiceSide(RemoveById(voices, id), editing) ==> e in side;
  }

  /** With no dialog open, removing the voices of an id and revoking the first one's handle keeps the invariant. */
  lemma RemoveVoiceRevokeKeepsInv(history: seq<Entry>, voices: seq<Entry>, live: map<Handle, Bytes>, id: string)
    requires Inv(history, voices, None, live)
    ensures Inv(history, RemoveById(voices, id), None, RevokeFound(live, FindById(voices, id)))
  {
    var item := FindById(voices, id);
    var v' := RemoveById(voices, id);
    assert VoiceSide(voices, None) == voices;
    assert VoiceSide(v', None) == v';
    if item.Some? && item.value.blobUrl != "" {
      var url := item.value.blobUrl;
      assert item.value in voices;
      forall e | e in v' && e.blobUrl != "" ensures e.blobUrl != url {
        assert e in voices && e.record.id != id;
      }
      forall e | e in history && e.blobUrl != "" ensures e.blobUrl != url {
      }
    }
  }

  /** Opening the dialog on a listed voice keeps the invariant. */
  lemma OpenEditKeepsInv(history: seq<Entry>, voices: seq<Entry>, editing: Option<Entry>,
                         live: map<Handle, Bytes>, voice: Entry)
    requires Inv(history, voices, editing, live)
    requires voice in voices
    ensures Inv(history, voices, Some(voice), live)
  {
    var side := VoiceSide(voices, editing);
    assert forall e :: e in VoiceSide(voices, Some(voice)) ==> e in side;
  }

  /** Changing the open copy's fields, keeping its id and handle, keeps the invariant. */
  lemma ChangeEditKeepsInv(history: seq<Entry>, voices: seq<Entry>, live: map<Handle, Bytes>,
                           before: Entry, after: Entry)
    requires Inv(history, voices, Some(before), live)
    requires after.record.Voice? && after.record.id == before.record.id && after.blobUrl == before.blobUrl
    ensures Inv(history, voices, Some(after), live)
  {
    var side := VoiceSide(voices, Some(before));
    var side' := VoiceSide(voices, Some(after));
    assert before in side;
    assert forall e :: e in side' ==> e == after || e in side;
  }

  /** Closing the dialog keeps the invariant. */
  lemma CloseEditKeepsInv(history: seq<Entry>, voices: seq<Entry>, editing: Option<Entry>, live: map<Handle, Bytes>)
    requires Inv(history, voices, editing, live)
    ensures Inv(history, voices, None, live)
  {
    assert forall e :: e in VoiceSide(voices, None) ==> e in VoiceSide(voices, editing);
  }

  /** Saving the open copy over the voices of its id, and closing the dialog, keeps the invariant. */
  lemma SaveEditKeepsInv(history: seq<Entry>, voices: seq<Entry>, edited: Entry, live: map<Handle, Bytes>)
    requires Inv(history, voices, Some(edited), live)
    ensures Inv(history, ReplaceById(voices, edited), None, live)
  {
    var side := VoiceSide(voices, Some(edited));
    var v' := ReplaceById(voices, edited);
    assert VoiceSide(v', None) == v';
    assert edited in side;
    forall e | e in v' ensures e in side {
      var i :| 0 <= i < |v'| && v'[i] == e;
      assert voices[i] in side;
    }
  }

  /**
   * Replacing the history by a hydration with fresh handles, all of whose
   * shown handles are live, keeps the invariant.
   */
  lemma HydrateHistoryKeepsInv(history: seq<Entry>, voices: seq<Entry>, editing: Option<Entry>,
                               live: map<Handle, Bytes>, live': map<Handle, Bytes>,
                               rs: seq<Record>, blobs: map<string, Bytes>, hs: seq<Handle>)
    requires Inv(history, voices, editing, live)
    requires live.Keys <= live'.Keys
    requires |hs| >= |rs| && FreshHandles(hs, live)
    requires forall r :: r in rs ==> r.Speech?
    requires ShownLive(Hydrate(rs, blobs, hs), live')
    ensures Inv(Hydrate(rs, blobs, hs), voices, editing, live')
  {
    var es := Hydrate(rs, blobs, hs);
    var side := VoiceSide(voices, editing);
    HydratedHandles(rs, blobs, hs);
    HydratedOneIdPerHandle(rs, blobs, hs);
    forall e | e in es ensures e.record.Speech? {
      var i :| 0 <= i < |es| && es[i] == e;
      assert rs[i] in rs;
    }
    forall c, v | c in es && v in side && c.blobUrl != "" ensures c.blobUrl != v.blobUrl {
      var k :| 0 <= k < |hs| && hs[k] == c.blobUrl;
      if v.blobUrl != "" { assert v.blobUrl in live; }
    }
  }

  /**
   * Replacing the voice list by a hydration with fresh handles, all of whose
   * shown handles are live, keeps the invariant.
   */
  lemma HydrateVoicesKeepsInv(history: seq<Entry>, voices: seq<Entry>, editing: Option<Entry>,
                              live: map<Handle, Bytes>, live': map<Handle, Bytes>,
                              rs: seq<Record>, blobs: map<string, Bytes>, hs: seq<Handle>)
    requires Inv(history, voices, editing, live)
    requires live.Keys <= live'.Keys
    requires |hs| >= |rs| && FreshHandles(hs, live)
    requires forall r :: r in rs ==> r.Voice?
    requires ShownLive(Hydrate(rs, blobs, hs), live')
    requires editing.None? || editing.value.blobUrl == "" || editing.value.blobUrl !in hs
    ensures Inv(history, Hydrate(rs, blobs, hs), editing, live')
  {
    var es := Hydrate(rs, blobs, hs);
    var side' := VoiceSide(es, editing);
    HydratedHandles(rs, blobs, hs);
    HydratedOneIdPerHandle(rs, blobs, hs);
    forall e | e in es ensures e.record.Voice? {
      var i :| 0 <= i < |es| && es[i] == e;
      assert rs[i] in rs;
    }
    assert forall e :: e in side' ==> e in es || (editing.Some? && e == editing.value);
    if editing.Some? {
      assert editing.value in VoiceSide(voices, editing);
    }
    forall c, v | c in history && v in side' && c.blobUrl != "" ensures c.blobUrl != v.blobUrl {
      assert c.blobUrl in live;
      if v in es && v.blobUrl != "" {
        var k :| 0 <= k < |hs| && hs[k] == v.blobUrl;
      }
    }
  }
}
