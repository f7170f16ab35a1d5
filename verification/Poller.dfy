/** The poller: fetches updates above its offset and folds their commands into the store. */
module Poller {
  import opened Wrappers
  import opened Decimal
  import opened Updates
  import S = Store

  /** How the request for updates ends. */
  datatype Response = RequestFailed | Undecodable | NotOK | Delivered(updates: seq<Update>)

  /** One above an identifier, in 64 bits. */
  function NextOffset(id: int64): int64 {
    if id == MAX_INT64 then MIN_INT64 else id + 1
  }

  function OffsetAfter(offset: int64, us: seq<Update>): int64 {
    if us == [] then offset else NextOffset(us[|us| - 1].id)
  }

  /** The `n`th of some updates is a command. */
  predicate CommandAt(us: seq<Update>, n: nat) {
    0 < n <= |us| && !CommandOf(us[n - 1]).Ignored?
  }

  /** A file that was there before, or that holds the set after a command. */
  ghost predicate Snapshot(file: Option<string>, before: Option<string>, s: set<int64>, us: seq<Update>) {
    file == before || exists n: nat | CommandAt(us, n) :: S.Contents(file) == Some(Fold(s, us[..n]))
  }

  /** The disk holds a snapshot now, and held one in every state from `start` on. */
  ghost predicate Snapshots(trail: seq<S.Frozen>, start: nat, before: Option<string>, s: set<int64>, us: seq<Update>) {
    && 0 < start <= |trail|
    && (forall k | start <= k < |trail| :: Snapshot(trail[k].file, before, s, us))
    && Snapshot(trail[|trail| - 1].file, before, s, us)
  }

  /** Whether file and memory agree after the updates: the last command was written out, or there was none. */
  ghost predicate InSync(agreed: bool, us: seq<Update>, faults: nat -> S.Faults) {
    if us == [] then agreed
    else if CommandOf(us[|us| - 1]).Ignored? then InSync(agreed, us[..|us| - 1], faults)
    else faults(|us| - 1).None()
  }

  lemma SnapshotGrows(file: Option<string>, before: Option<string>, s: set<int64>, us: seq<Update>, n: nat)
    requires n < |us| && Snapshot(file, before, s, us[..n])
    ensures Snapshot(file, before, s, us[..n + 1])
  {
    if file != before {
      var m: nat :| CommandAt(us[..n], m) && S.Contents(file) == Some(Fold(s, us[..n][..m]));
      assert us[..n][..m] == us[..n + 1][..m];
      assert CommandAt(us[..n + 1], m);
    }
  }

  lemma SnapshotNow(file: Option<string>, before: Option<string>, s: set<int64>, us: seq<Update>)
    requires CommandAt(us, |us|) && S.Contents(file) == Some(Fold(s, us))
    ensures Snapshot(file, before, s, us)
  {
    assert us[..|us|] == us;
  }

  lemma StepFolds(s: set<int64>, us: seq<Update>, n: nat)
    requires n < |us|
    ensures Fold(s, us[..n + 1]) == Apply(Fold(s, us[..n]), us[n])
    ensures us[..n + 1][|us[..n + 1]| - 1] == us[n]
  {
    assert us[..n + 1] == us[..n] + [us[n]];
    FoldSnoc(s, us[..n], us[n]);
  }

  lemma StepSyncs(agreed: bool, us: seq<Update>, n: nat, faults: nat -> S.Faults)
    requires n < |us|
    ensures InSync(agreed, us[..n + 1], faults)
       <==> if CommandOf(us[n]).Ignored? then InSync(agreed, us[..n], faults) else faults(n).None()
  {
    assert us[..n + 1][..n] == us[..n];
  }

  class Poller {
    var offset: int64
    const store: S.Store

    constructor (store: S.Store)
      ensures offset == 0 && this.store == store
    {
      offset, this.store := 0, store;
    }

    method HandleUpdate(u: Update, faults: S.Faults) returns (ok: bool)
      requires store.disk.Valid()
      modifies store, store.disk
      ensures store.disk.Valid() && store.subscribers == Apply(old(store.subscribers), u)
      ensures CommandOf(u).Ignored? ==> ok && store.disk.trail == old(store.disk.trail)
      ensures !CommandOf(u).Ignored? ==>
        && ok == faults.None()
        && S.OneSwitch(old(store.disk.trail), store.disk.trail, store.subscribers)
        && if ok then S.Contents(store.disk.file) == Some(store.subscribers)
           else store.disk.file == old(store.disk.file)
    {
      ok := true;
      match CommandOf(u)
      case Start(chat) => ok := store.Add(chat, faults);
      case Stop(chat) => ok := store.Remove(chat, faults);
      case Ignored =>
    }

    /**
     One request. The updates are applied in order whether or not they can be written out, and
     the offset passes each of them; nothing happens when the request fails. A crash at any
     moment leaves the old file or the set after some of the updates.
     */
    method Poll(response: Response, faults: nat -> S.Faults) returns (ok: bool)
      requires store.disk.Valid()
      modifies this, store, store.disk
      ensures store.disk.Valid() && ok == response.Delivered?
      ensures !ok ==> offset == old(offset) && store.subscribers == old(store.subscribers)
                      && store.disk.trail == old(store.disk.trail)
      ensures ok ==> offset == OffsetAfter(old(offset), response.updates)
      ensures ok ==> store.subscribers == Fold(old(store.subscribers), response.updates)
      ensures ok && InSync(S.Contents(old(store.disk.file)) == Some(old(store.subscribers)), response.updates, faults)
              ==> S.Contents(store.disk.file) == Some(store.subscribers)
      ensures old(store.disk.trail) <= store.disk.trail
      ensures ok ==> Snapshots(store.disk.trail, |old(store.disk.trail)|, old(store.disk.file),
                               old(store.subscribers), response.updates)
    {
      if !response.Delivered? {
        return false;
      }
      var us := response.updates;
      ghost var before, s := store.disk.file, store.subscribers;
      ghost var agreed := S.Contents(before) == Some(s);
      for n := 0 to |us|
        invariant store.disk.Valid() && old(store.disk.trail) <= store.disk.trail
        invariant store.subscribers == Fold(s, us[..n])
        invariant offset == OffsetAfter(old(offset), us[..n])
        invariant InSync(agreed, us[..n], faults) ==> S.Contents(store.disk.file) == Some(store.subscribers)
        invariant Snapshots(store.disk.trail, |old(store.disk.trail)|, before, s, us[..n])
      {
        label Here:
        StepFolds(s, us, n);
        StepSyncs(agreed, us, n, faults);
        var _ := HandleUpdate(us[n], faults(n));
        TrailOfSnapshots(|old(store.disk.trail)|, old@Here(store.disk.trail), store.disk.trail, before, s, us, n);
        offset := NextOffset(us[n].id);
      }
      assert us[..|us|] == us;
      ok := true;
    }
  }

  /** Each state the disk passes through while an update is handled holds a snapshot. */
  lemma HandledIsSnapshot(trail: seq<S.Frozen>, after: seq<S.Frozen>, k: nat, before: Option<string>,
                          s: set<int64>, us: seq<Update>, n: nat)
    requires n < |us| && k < |after| && trail != []
    requires Snapshot(trail[|trail| - 1].file, before, s, us[..n])
    requires after == trail
             || (!CommandOf(us[n]).Ignored? && S.OneSwitch(trail, after, Fold(s, us[..n + 1])))
    requires k < |trail| ==> Snapshot(trail[k].file, before, s, us[..n])
    ensures Snapshot(after[k].file, before, s, us[..n + 1])
  {
    if after != trail && S.Contents(after[k].file) == Some(Fold(s, us[..n + 1])) {
      assert us[..n + 1][n] == us[n];
      SnapshotNow(after[k].file, before, s, us[..n + 1]);
    } else {
      SnapshotGrows(after[k].file, before, s, us, n);
    }
  }

  lemma TrailOfSnapshots(start: nat, trail: seq<S.Frozen>, after: seq<S.Frozen>, before: Option<string>,
                         s: set<int64>, us: seq<Update>, n: nat)
    requires n < |us| && Snapshots(trail, start, before, s, us[..n])
    requires after == trail
             || (!CommandOf(us[n]).Ignored? && S.OneSwitch(trail, after, Fold(s, us[..n + 1])))
    ensures Snapshots(after, start, before, s, us[..n + 1])
  {
    forall k | start <= k < |after|
      ensures Snapshot(after[k].file, before, s, us[..n + 1])
    {
      HandledIsSnapshot(trail, after, k, before, s, us, n);
    }
    HandledIsSnapshot(trail, after, |after| - 1, before, s, us, n);
  }
}
