// The list transforms the App.tsx handlers apply to the clip history and the
// reference voices: hydration (attach a handle per record), dehydration
// (strip the handle), lookup, removal and replacement by id.
module Ledger {
  import opened Types

  /**
   * A stored ledger document: the parsed snapshot, or a value that does not
   * parse as a list of records.
   */
  datatype Doc = Snapshot(records: seq<Record>) | Garbled

  /** `({ blobUrl, ...rest }) => rest` over a whole list: the same records, in order, without handles. */
  function Dehydrate(es: seq<Entry>): (rs: seq<Record>)
    ensures |rs| == |es|
    ensures forall i :: 0 <= i < |es| ==> rs[i] == es[i].record
  {
    if es == [] then [] else [es[0].record] + Dehydrate(es[1..])
  }

  /** Dehydrating a concatenation dehydrates each part. */
  lemma {:induction false} DehydrateConcat(a: seq<Entry>, b: seq<Entry>)
    ensures Dehydrate(a + b) == Dehydrate(a) + Dehydrate(b)
  {
    if a != [] {
      assert (a + b)[1..] == a[1..] + b;
      DehydrateConcat(a[1..], b);
    }
  }

  /** One record with its handle: the fresh handle when its blob was found, else the empty handle. */
  function Attach(r: Record, blobs: map<string, Bytes>, h: Handle): Entry {
    Entry(r, if r.id in blobs then h else "")
  }

  /**
   * Hydration of a parsed snapshot: the same records in the same order,
   * record `i` carrying handle `hs[i]` when a blob is stored under its id
   * and the empty handle (an orphan) when none is.
   */
  function Hydrate(rs: seq<Record>, blobs: map<string, Bytes>, hs: seq<Handle>): (es: seq<Entry>)
    requires |hs| >= |rs|
    ensures |es| == |rs|
    ensures forall i :: 0 <= i < |rs| ==> es[i].record == rs[i]
    ensures forall i :: 0 <= i < |rs| ==>
      es[i].blobUrl == (if rs[i].id in blobs then hs[i] else "")
  {
    if rs == [] then [] else [Attach(rs[0], blobs, hs[0])] + Hydrate(rs[1..], blobs, hs[1..])
  }

  /** Dehydrating a hydrated snapshot gives back the saved records. */
  lemma {:induction false} DehydrateHydrate(rs: seq<Record>, blobs: map<string, Bytes>, hs: seq<Handle>)
    requires |hs| >= |rs|
    ensures Dehydrate(Hydrate(rs, blobs, hs)) == rs
  {
    if rs != [] {
      DehydrateHydrate(rs[1..], blobs, hs[1..]);
    }
  }

  /** With non-empty handles, a hydrated entry is playable exactly when its blob exists. */
  lemma HydratedPlayableIff(rs: seq<Record>, blobs: map<string, Bytes>, hs: seq<Handle>, i: nat)
    requires |hs| >= |rs| && i < |rs|
    requires forall k :: 0 <= k < |hs| ==> hs[k] != ""
    ensures Hydrate(rs, blobs, hs)[i].blobUrl != "" <==> rs[i].id in blobs
  {
  }

  /** Hydrating a snapshot whose record ids are all absent from the store gives orphans only. */
  lemma {:induction false} HydrateAllOrphans(rs: seq<Record>, blobs: map<string, Bytes>, hs: seq<Handle>)
    requires |hs| >= |rs|
    requires forall r :: r in rs ==> r.id !in blobs
    ensures forall e :: e in Hydrate(rs, blobs, hs) ==> e.blobUrl == ""
  {
    if rs != [] {
      HydrateAllOrphans(rs[1..], blobs, hs[1..]);
    }
  }

  /** `list.find(x => x.id === id)`: the first entry with that id, if any. */
  function FindById(es: seq<Entry>, id: string): (r: Option<Entry>)
    ensures r.None? <==> forall e :: e in es ==> e.record.id != id
    ensures r.Some? ==> exists k :: 0 <= k < |es| && es[k] == r.value && r.value.record.id == id
                                    && forall j :: 0 <= j < k ==> es[j].record.id != id
  {
    if es == [] then None
    else if es[0].record.id == id then Some(es[0])
    else
      var r := FindById(es[1..], id);
      assert r.Some? ==> exists k :: 1 <= k < |es| && es[k] == r.value && r.value.record.id == id
                                     && forall j :: 0 <= j < k ==> es[j].record.id != id by {
        if r.Some? {
          var k :| 0 <= k < |es[1..]| && es[1..][k] == r.value && r.value.record.id == id
                   && forall j :: 0 <= j < k ==> es[1..][j].record.id != id;
          assert forall j :: 1 <= j < k + 1 ==> es[j].record.id != id by {
            forall j | 1 <= j < k + 1 ensures es[j].record.id != id {
              assert es[j] == es[1..][j - 1];
            }
          }
        }
      }
      r
  }

  /** `list.filter(x => x.id !== id)`: the entries with another id, nothing else. */
  function RemoveById(es: seq<Entry>, id: string): (r: seq<Entry>)
    ensures |r| <= |es|
    ensures forall e :: e in r <==> e in es && e.record.id != id
  {
    if es == [] then []
    else if es[0].record.id == id then RemoveById(es[1..], id)
    else [es[0]] + RemoveById(es[1..], id)
  }

  /** Removal keeps relative order: filtering a concatenation filters each part in place. */
  lemma {:induction false} RemoveByIdConcat(a: seq<Entry>, b: seq<Entry>, id: string)
    ensures RemoveById(a + b, id) == RemoveById(a, id) + RemoveById(b, id)
  {
    if a != [] {
      assert (a + b)[0] == a[0];
      assert (a + b)[1..] == a[1..] + b;
      RemoveByIdConcat(a[1..], b, id);
    } else {
      assert a + b == b;
    }
  }

  /** The snapshot written after a removal holds no record with the removed id. */
  lemma DehydrateRemoveById(es: seq<Entry>, id: string)
    ensures forall r :: r in Dehydrate(RemoveById(es, id)) ==> r.id != id
  {
    var kept := RemoveById(es, id);
    forall r | r in Dehydrate(kept) ensures r.id != id {
      var i :| 0 <= i < |kept| && Dehydrate(kept)[i] == r;
      assert kept[i] in kept;
    }
  }

  /** Removing an id that no entry carries changes nothing. */
  lemma {:induction false} RemoveByIdAbsent(es: seq<Entry>, id: string)
    requires forall e :: e in es ==> e.record.id != id
    ensures RemoveById(es, id) == es
  {
    if es != [] {
      assert es[0] in es;
      assert forall e :: e in es[1..] ==> e in es;
      RemoveByIdAbsent(es[1..], id);
    }
  }

  /** Removing the same id twice is removing it once. */
  lemma RemoveByIdIdempotent(es: seq<Entry>, id: string)
    ensures RemoveById(RemoveById(es, id), id) == RemoveById(es, id)
  {
    RemoveByIdAbsent(RemoveById(es, id), id);
  }

  /** Removal drops exactly as many entries as carry the id. */
  function CountId(es: seq<Entry>, id: string): (n: nat)
    ensures n <= |es|
  {
    if es == [] then 0 else (if es[0].record.id == id then 1 else 0) + CountId(es[1..], id)
  }

  lemma {:induction false} RemoveByIdLength(es: seq<Entry>, id: string)
    ensures |RemoveById(es, id)| == |es| - CountId(es, id)
  {
    if es != [] {
      RemoveByIdLength(es[1..], id);
    }
  }

  /**
   * `list.map(x => x.id === edited.id ? edited : x)`: the same length, every
   * entry with the edited id replaced, every other entry kept in its place.
   */
  function ReplaceById(es: seq<Entry>, edited: Entry): (r: seq<Entry>)
    ensures |r| == |es|
    ensures forall i :: 0 <= i < |es| ==>
      r[i] == if es[i].record.id == edited.record.id then edited else es[i]
  {
    if es == [] then []
    else [if es[0].record.id == edited.record.id then edited else es[0]] + ReplaceById(es[1..], edited)
  }

  /** Replacement keeps every position's id, so the order of ids is unchanged. */
  lemma ReplaceByIdKeepsIds(es: seq<Entry>, edited: Entry, i: nat)
    requires i < |es|
    ensures ReplaceById(es, edited)[i].record.id == es[i].record.id
  {
  }

  /** Saving the same edit twice is saving it once. */
  lemma ReplaceByIdIdempotent(es: seq<Entry>, edited: Entry)
    ensures ReplaceById(ReplaceById(es, edited), edited) == ReplaceById(es, edited)
  {
  }

  /** An edit whose id no entry carries changes nothing. */
  lemma ReplaceByIdAbsent(es: seq<Entry>, edited: Entry)
    requires forall e :: e in es ==> e.record.id != edited.record.id
    ensures ReplaceById(es, edited) == es
  {
    assert forall i :: 0 <= i < |es| ==> es[i] in es;
  }
}
