/**
  A reconciliation pass from its begin to its finish, with any batches in between: what the batches
  brought last stays, and nothing stays that they did not bring.
 */
module ReconciliationWindow {
  import opened BatchEffect
  import opened DurableStore
  import opened IndexPipeline
  import opened ProjectionEviction
  import opened Records
  import opened Words

  /** A batch, the verdict of the rules at its time, and where the store fails. */
  datatype Batch = Batch(
    volume: Volume, changes: seq<Change>, included: FileId -> bool, fault: Option<nat>, pruneFault: Option<nat>)

  ghost predicate WellFormed(b: Batch) {
    OnVolume(b.changes, b.volume) && AllCarryZero(b.changes)
  }

  predicate Lands(b: Batch) {
    Commits(b.changes, b.fault)
  }

  predicate Prunes(b: Batch) {
    Commits(Removals(Excluded(b.changes, b.included)), b.pruneFault)
  }

  /** The durable rows after the batches. */
  ghost predicate Leads(before: Rows, after: Rows, b: Batch) {
    if !Lands(b) then after == before else Reflects(before, after, b.changes, if Prunes(b) then b.included else WithoutRules)
  }

  /** The rows before each batch and after the last. */
  ghost predicate IsHistory(views: seq<Rows>, batches: seq<Batch>) {
    |views| == |batches| + 1 && forall b :: 0 <= b < |batches| ==> LeadsOn(views, batches, b)
  }

  ghost predicate LeadsOn(views: seq<Rows>, batches: seq<Batch>, b: nat)
    requires b < |batches| && b + 1 < |views|
  {
    Leads(views[b], views[b + 1], batches[b])
  }

  /** The batch went through and names the file. */
  ghost predicate Names(b: Batch, k: EntryKey) {
    Lands(b) && !Untouched(b.changes, k)
  }

  /** The batch went through, its last word on the file is an upsert, and the rules include it. */
  ghost predicate Confirms(b: Batch, k: EntryKey) {
    Lands(b) && b.included(k.id) && exists n :: LastOf(b.changes, n, k) && b.changes[n].Upsert?
  }

  /** The last batch of the window that names the file confirms it. */
  ghost predicate LastConfirmed(batches: seq<Batch>, k: EntryKey) {
    exists b :: 0 <= b < |batches| && Confirms(batches[b], k) && forall c :: b < c < |batches| ==> !Names(batches[c], k)
  }

  /** Some batch that went through brought the file, and the rules included it then. */
  ghost predicate Brought(batches: seq<Batch>, volume: Volume, id: FileId) {
    exists b :: 0 <= b < |batches| && batches[b].volume == volume && Lands(batches[b])
      && id in Sightings(batches[b].changes, batches[b].included)
  }

  lemma ConfirmedStays(before: Rows, after: Rows, b: Batch, k: EntryKey)
    requires Leads(before, after, b)
    ensures Confirms(b, k) ==> k in after
    ensures !Names(b, k) ==> (k in after <==> k in before) && (k in before ==> after[k] == before[k])
  {
    if Lands(b) {
      var included := if Prunes(b) then b.included else WithoutRules;
      assert ReflectsAt(before, after, b.changes, included, k);
    }
  }

  lemma {:induction false} LastConfirmedStays(views: seq<Rows>, batches: seq<Batch>, k: EntryKey, b: nat, n: nat)
    requires IsHistory(views, batches) && b < n <= |batches| && Confirms(batches[b], k)
    requires forall c :: b < c < n ==> !Names(batches[c], k)
    ensures k in views[b + 1] && k in views[n] && views[n][k] == views[b + 1][k]
    decreases n
  {
    assert LeadsOn(views, batches, n - 1);
    ConfirmedStays(views[n - 1], views[n], batches[n - 1], k);
    if n > b + 1 {
      LastConfirmedStays(views, batches, k, b, n - 1);
    }
  }

  /** Exactly the files brought so far have been seen. */
  ghost predicate SeenSoFar(passes: map<Volume, set<FileId>>, batches: seq<Batch>, volume: Volume) {
    volume in passes && forall id :: id in passes[volume] <==> Brought(batches, volume, id)
  }

  lemma SeenMore(before: map<Volume, set<FileId>>, after: map<Volume, set<FileId>>, batches: seq<Batch>, n: nat,
                 volume: Volume)
    requires n < |batches| && SeenSoFar(before, batches[..n], volume)
    requires if Lands(batches[n]) then Notes(before, after, batches[n].volume, Sightings(batches[n].changes, batches[n].included))
             else after == before
    ensures SeenSoFar(after, batches[..n + 1], volume)
  {
    var fewer, more := batches[..n], batches[..n + 1];
    assert forall b :: 0 <= b < n ==> more[b] == fewer[b];
    assert more[n] == batches[n];
    forall id ensures id in after[volume] <==> Brought(more, volume, id) {
      if Brought(fewer, volume, id) {
        var b :| 0 <= b < |fewer| && fewer[b].volume == volume && Lands(fewer[b])
          && id in Sightings(fewer[b].changes, fewer[b].included);
        assert more[b] == fewer[b];
      }
      if Brought(more, volume, id) {
        var b :| 0 <= b < |more| && more[b].volume == volume && Lands(more[b])
          && id in Sightings(more[b].changes, more[b].included);
        assert b < n ==> fewer[b] == more[b];
      }
    }
  }

  lemma HistoryGrows(views: seq<Rows>, batches: seq<Batch>, n: nat, rows: Rows)
    requires n < |batches| && |views| == n + 1 && forall b :: 0 <= b < n ==> LeadsOn(views, batches, b)
    requires Leads(views[n], rows, batches[n])
    ensures forall b :: 0 <= b <= n ==> LeadsOn(views + [rows], batches, b)
  {
    forall b | 0 <= b <= n ensures LeadsOn(views + [rows], batches, b) {
      assert b < n ==> LeadsOn(views, batches, b);
    }
  }

  method ApplyOne(p: Pipeline, b: Batch)
    requires p.Valid() && WellFormed(b)
    modifies p, p.store, p.hot, p.hot.names, p.hot.index
    ensures p.Valid() && Leads(old(p.store.tables.view), p.store.tables.view, b)
    ensures if Lands(b) then Notes(old(p.passes), p.passes, b.volume, Sightings(b.changes, b.included))
            else p.passes == old(p.passes)
  {
    var _ := p.ApplyUsnBatchChanges(b.volume, b.changes, b.included, b.fault, b.pruneFault);
  }

  /** Applies the batches one after the other. */
  method ApplyBatches(p: Pipeline, batches: seq<Batch>, volume: Volume) returns (ghost views: seq<Rows>)
    requires p.Valid() && SeenSoFar(p.passes, [], volume) && forall b :: 0 <= b < |batches| ==> WellFormed(batches[b])
    modifies p, p.store, p.hot, p.hot.names, p.hot.index
    ensures p.Valid() && SeenSoFar(p.passes, batches, volume)
    ensures IsHistory(views, batches) && views[0] == old(p.store.tables.view) && views[|batches|] == p.store.tables.view
  {
    views := [p.store.tables.view];
    assert batches[..0] == [];
    for n := 0 to |batches|
      invariant p.Valid() && SeenSoFar(p.passes, batches[..n], volume)
      invariant |views| == n + 1 && views[0] == old(p.store.tables.view) && views[n] == p.store.tables.view
      invariant forall b :: 0 <= b < n ==> LeadsOn(views, batches, b)
    {
      ghost var passes := p.passes;
      ApplyOne(p, batches[n]);
      SeenMore(passes, p.passes, batches, n, volume);
      HistoryGrows(views, batches, n, p.store.tables.view);
      views := views + [p.store.tables.view];
    }
    assert batches[..|batches|] == batches;
  }

  /** The whole window.  Whatever of the finish is committed, every file of the volume that the batches
      confirmed last and the rules still include stays, as its batch left it.  After an uninterrupted finish
      a file of the volume is there only if some batch brought it and the rules include it; the other
      volumes are as the batches left them. */
  method Reconcile(p: Pipeline, volume: Volume, batches: seq<Batch>, included: FileId -> bool, listingFails: bool,
                   chunkFault: Option<nat>)
    returns (ghost views: seq<Rows>)
    requires p.Valid() && forall b :: 0 <= b < |batches| ==> WellFormed(batches[b])
    modifies p, p.store, p.hot, p.hot.names, p.hot.index
    ensures p.Valid() && IsHistory(views, batches) && views[0] == old(p.store.tables.view)
    ensures forall k: EntryKey :: k.volume == volume && included(k.id) && LastConfirmed(batches, k) ==>
              k in p.store.tables.view && k in views[|batches|] && p.store.tables.view[k] == views[|batches|][k]
    ensures !listingFails && chunkFault.None? ==> volume !in p.passes && forall k: EntryKey :: k in p.store.tables.view <==>
              k in views[|batches|] && (k.volume == volume ==> included(k.id) && Brought(batches, volume, k.id))
  {
    p.BeginReconciliationPass(volume);
    views := ApplyBatches(p, batches, volume);
    ghost var seen := p.passes[volume];
    ghost var _ := p.FinishReconciliationPass(volume, included, listingFails, chunkFault);
    forall k: EntryKey | k.volume == volume && included(k.id) && LastConfirmed(batches, k)
      ensures k in p.store.tables.view && k in views[|batches|] && p.store.tables.view[k] == views[|batches|][k]
    {
      ConfirmedIsSpared(views, batches, volume, seen, included, k);
    }
  }

  lemma ConfirmedIsSpared(views: seq<Rows>, batches: seq<Batch>, volume: Volume, seen: set<FileId>,
                          included: FileId -> bool, k: EntryKey)
    requires IsHistory(views, batches) && (forall b :: 0 <= b < |batches| ==> WellFormed(batches[b]))
    requires forall id :: id in seen <==> Brought(batches, volume, id)
    requires k.volume == volume && included(k.id) && LastConfirmed(batches, k)
    ensures k in views[|batches|] && Spares(volume, seen, included, k)
  {
    var b :| 0 <= b < |batches| && Confirms(batches[b], k) && forall c :: b < c < |batches| ==> !Names(batches[c], k);
    LastConfirmedStays(views, batches, k, b, |batches|);
    var n :| LastOf(batches[b].changes, n, k) && batches[b].changes[n].Upsert?;
    assert WellFormed(batches[b]) && batches[b].changes[n].key == k;
    assert batches[b].volume == volume;
    assert Brought(batches, volume, k.id);
  }
}
