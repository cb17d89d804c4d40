/** Target directory sync: the map from key to endpoint that a listing
    yields, and the two logs through which the model observes the sync's
    effects on the outside world: the target loops it launches (with their
    start waits) and the cancel functions it invokes. */
module Targets {
  import opened Types
  import opened Config

  /** activeTargets: each listed endpoint under its key, a later endpoint
      with the same key replacing an earlier one. */
  function ActiveTargets(listed: seq<Endpoint>): (m: map<string, Endpoint>)
    decreases |listed|
    ensures forall k :: k in m ==> m[k] in listed
  {
    if listed == [] then map[]
    else
      var last := listed[|listed| - 1];
      assert forall e :: e in listed[..|listed| - 1] ==> e in listed;
      ActiveTargets(listed[..|listed| - 1])[last.key := last]
  }

  /** The active keys are exactly the keys of the listed endpoints. */
  lemma {:induction false} ActiveKeys(listed: seq<Endpoint>)
    ensures ActiveTargets(listed).Keys == KeysOf(listed)
  {
    if listed != [] {
      var init := listed[..|listed| - 1];
      ActiveKeys(init);
      assert KeysOf(listed) == KeysOf(init) + {listed[|listed| - 1].key} by {
        forall k | k in KeysOf(listed) ensures k in KeysOf(init) + {listed[|listed| - 1].key} {
          var i :| 0 <= i < |listed| && listed[i].key == k;
          if i < |listed| - 1 { assert init[i] == listed[i]; }
        }
        forall k | k in KeysOf(init) ensures k in KeysOf(listed) {
          var i :| 0 <= i < |init| && init[i].key == k;
          assert listed[i] == init[i];
        }
      }
    }
  }

  /** Every active endpoint sits under its own key. */
  lemma {:induction false} ActiveKeyed(listed: seq<Endpoint>)
    ensures forall k :: k in ActiveTargets(listed) ==> ActiveTargets(listed)[k].key == k
  {
    if listed != [] {
      ActiveKeyed(listed[..|listed| - 1]);
    }
  }

  /** The first loop of updateTargetsAndStartProbes, which builds activeTargets. */
  method CollectActive(listed: seq<Endpoint>) returns (active: map<string, Endpoint>)
    ensures active == ActiveTargets(listed)
  {
    active := map[];
    var i := 0;
    while i < |listed|
      invariant 0 <= i <= |listed|
      invariant active == ActiveTargets(listed[..i])
    {
      assert listed[..i + 1][..i] == listed[..i];
      active := active[listed[i].key := listed[i]];
      i := i + 1;
    }
    assert listed[..|listed|] == listed;
  }

  /** A key maps to the last listed endpoint that has it. */
  lemma {:induction false} ActiveLastWins(listed: seq<Endpoint>, i: nat)
    requires i < |listed|
    requires forall j :: i < j < |listed| ==> listed[j].key != listed[i].key
    ensures listed[i].key in ActiveTargets(listed) && ActiveTargets(listed)[listed[i].key] == listed[i]
  {
    if i < |listed| - 1 {
      var init := listed[..|listed| - 1];
      ActiveLastWins(init, i);
    }
  }

  /** A target loop started by the sync: the endpoint, its cancel handle,
      the start wait it was given and the jitter drawn for it. */
  datatype Launch = Launch(target: Endpoint, handle: Handle, wait: nat, jitterUs: nat)

  /** How long the launched loop sleeps before its first probe. */
  function Sleep(l: Launch): (s: nat)
    ensures l.wait <= s
    ensures (s - l.wait) / Microsecond == l.jitterUs && (s - l.wait) % Microsecond == 0
  {
    DivUnique(l.jitterUs * Microsecond, Microsecond, l.jitterUs, 0);
    l.wait + l.jitterUs * Microsecond
  }

  /** One invocation of a target loop's cancel function. */
  datatype Cancellation = Cancellation(key: string, handle: Handle)

  /** `batch` cancels each key of `gone` exactly once, through the handle
      that `live` held for it. */
  ghost predicate CancelBatch(batch: seq<Cancellation>, live: map<string, Handle>, gone: set<string>)
  {
    && (forall i, j :: 0 <= i < j < |batch| ==> batch[i].key != batch[j].key)
    && (set c | c in batch :: c.key) == gone
    && (forall c :: c in batch ==> c.key in live && c.handle == live[c.key])
  }

  /** Every key of `gone` is cancelled in the batch, through the handle
      `live` held for it. */
  lemma CancelBatchCancels(batch: seq<Cancellation>, live: map<string, Handle>, gone: set<string>, k: string)
    requires CancelBatch(batch, live, gone) && k in gone
    ensures k in live && exists i :: 0 <= i < |batch| && batch[i] == Cancellation(k, live[k])
  {
    var c :| c in batch && c.key == k;
    var i :| 0 <= i < |batch| && batch[i] == c;
  }

  /** `batch` launches each key of `added` exactly once, with the endpoint
      the key is active for; the i-th launch gets start wait i * gap, a
      jitter below the bound, and the i-th fresh handle from `firstHandle`. */
  ghost predicate LaunchBatch(batch: seq<Launch>, active: map<string, Endpoint>, added: set<string>, gap: nat, firstHandle: Handle)
  {
    && (forall i, j :: 0 <= i < j < |batch| ==> batch[i].target.key != batch[j].target.key)
    && (set l | l in batch :: l.target.key) == added
    && (forall i :: 0 <= i < |batch| ==>
          && batch[i].target.key in active
          && batch[i].target == active[batch[i].target.key]
          && batch[i].wait == i * gap
          && batch[i].jitterUs < JitterBound(gap)
          && batch[i].handle == firstHandle + i)
  }

  /** The bookkeeping of registered loops: each key in `live` (an entry of
      cancelFuncs) has its own handle, handed out before `next` and never
      cancelled; every cancelled handle was handed out before `next`. A loop
      whose requests could not be built has already returned, yet keeps its
      entry, so its key is not relaunched while it stays listed. */
  ghost predicate LiveHandles(live: map<string, Handle>, next: Handle, cancelled: seq<Cancellation>)
  {
    && (forall k :: k in live ==> live[k] < next)
    && (forall k, k' :: k in live && k' in live && k != k' ==> live[k] != live[k'])
    && (forall i :: 0 <= i < |cancelled| ==> cancelled[i].handle < next)
    && (forall k, i :: k in live && 0 <= i < |cancelled| ==> cancelled[i].handle != live[k])
  }

  /** Cancelling a batch of live keys and deleting them keeps the bookkeeping. */
  lemma LiveHandlesCancelBatch(live: map<string, Handle>, next: Handle, cancelled: seq<Cancellation>, batch: seq<Cancellation>, gone: set<string>)
    requires LiveHandles(live, next, cancelled) && CancelBatch(batch, live, gone)
    ensures LiveHandles(live - gone, next, cancelled + batch)
  {
    var rest := live - gone;
    var all := cancelled + batch;
    forall i | 0 <= i < |all| ensures all[i].handle < next {
      if i >= |cancelled| { assert all[i] == batch[i - |cancelled|] && all[i] in batch; }
    }
    forall k, i | k in rest && 0 <= i < |all| ensures all[i].handle != rest[k] {
      if i >= |cancelled| {
        var c := batch[i - |cancelled|];
        assert all[i] == c && c in batch;
        assert c.key in gone;
      }
    }
  }

  /** Starting the loops of a launch batch for keys without one, with
      handles from `next` on, keeps the bookkeeping. */
  lemma LiveHandlesStartBatch(live: map<string, Handle>, next: Handle, cancelled: seq<Cancellation>,
                              batch: seq<Launch>, active: map<string, Endpoint>, added: set<string>, gap: nat,
                              live': map<string, Handle>)
    requires LiveHandles(live, next, cancelled) && added !! live.Keys
    requires Started(live', live, batch, active, added, gap, next)
    ensures LiveHandles(live', next + |batch|, cancelled)
  {
    // Every new key sits at an index of the batch, and its handle is `next` plus that index.
    forall k | k in added ensures exists i :: 0 <= i < |batch| && batch[i].target.key == k && live'[k] == next + i {
      var l :| l in batch && l.target.key == k;
      var i :| 0 <= i < |batch| && batch[i] == l;
    }
  }

  /** A sync that cancels the batch `cancels` of gone keys and then starts
      the launch batch `launches` for keys without a loop keeps the
      bookkeeping. */
  lemma LiveHandlesSync(live: map<string, Handle>, next: Handle, cancelled: seq<Cancellation>,
                        cancels: seq<Cancellation>, gone: set<string>, kept: map<string, Handle>,
                        launches: seq<Launch>, active: map<string, Endpoint>, added: set<string>, gap: nat,
                        live': map<string, Handle>)
    requires LiveHandles(live, next, cancelled) && CancelBatch(cancels, live, gone) && kept == live - gone
    requires added !! kept.Keys && Started(live', kept, launches, active, added, gap, next)
    ensures LiveHandles(live', next + |launches|, cancelled + cancels)
  {
    LiveHandlesCancelBatch(live, next, cancelled, cancels, gone);
    LiveHandlesStartBatch(kept, next, cancelled + cancels, launches, active, added, gap, live');
  }

  /** Cancelling one more key extends a cancel batch. */
  lemma CancelBatchAppend(batch: seq<Cancellation>, live: map<string, Handle>, gone: set<string>, c: Cancellation)
    requires CancelBatch(batch, live, gone)
    requires c.key !in gone && c.key in live && c.handle == live[c.key]
    ensures CancelBatch(batch + [c], live, gone + {c.key})
  {
    assert (set x | x in batch + [c] :: x.key) == (set x | x in batch :: x.key) + {c.key};
    forall i | 0 <= i < |batch| ensures batch[i].key != c.key {
      assert batch[i] in batch;
    }
  }

  /** Starting one more key, with the next wait, jitter and handle, extends a launch batch. */
  lemma LaunchBatchAppend(batch: seq<Launch>, active: map<string, Endpoint>, added: set<string>, gap: nat, firstHandle: Handle, l: Launch)
    requires LaunchBatch(batch, active, added, gap, firstHandle)
    requires l.target.key !in added && l.target.key in active && l.target == active[l.target.key]
    requires l.wait == |batch| * gap && l.jitterUs < JitterBound(gap) && l.handle == firstHandle + |batch|
    ensures LaunchBatch(batch + [l], active, added + {l.target.key}, gap, firstHandle)
  {
    assert (set x | x in batch + [l] :: x.target.key) == (set x | x in batch :: x.target.key) + {l.target.key};
    forall i | 0 <= i < |batch| ensures batch[i].target.key != l.target.key {
      assert batch[i] in batch;
    }
  }

  /** The state `live` reached from `base` by starting the launches of
      `batch` for the keys of `added`: each started key holds its launch's
      handle and every key of `base` keeps its own. */
  ghost predicate Started(live: map<string, Handle>, base: map<string, Handle>, batch: seq<Launch>,
                          active: map<string, Endpoint>, added: set<string>, gap: nat, firstHandle: Handle)
  {
    && live.Keys == base.Keys + added
    && (forall k :: k in base ==> live[k] == base[k])
    && LaunchBatch(batch, active, added, gap, firstHandle)
    && (forall l :: l in batch ==> l.target.key in live && live[l.target.key] == l.handle)
  }

  /** Starting one more key, with the next wait, jitter and handle, extends a started state. */
  lemma StartedStep(live: map<string, Handle>, base: map<string, Handle>, batch: seq<Launch>,
                    active: map<string, Endpoint>, added: set<string>, gap: nat, firstHandle: Handle, l: Launch)
    requires Started(live, base, batch, active, added, gap, firstHandle)
    requires l.target.key !in live && l.target.key in active && l.target == active[l.target.key]
    requires l.wait == |batch| * gap && l.jitterUs < JitterBound(gap) && l.handle == firstHandle + |batch|
    ensures Started(live[l.target.key := l.handle], base, batch + [l], active, added + {l.target.key}, gap, firstHandle)
  {
    LaunchBatchAppend(batch, active, added, gap, firstHandle, l);
    forall x | x in batch ensures x.target.key != l.target.key {
    }
  }

  /** In a launch batch, start sleeps strictly increase in launch order and
      the i-th lies in [i * gap, i * gap + gap / 10). */
  lemma LaunchSleeps(batch: seq<Launch>, active: map<string, Endpoint>, added: set<string>, gap: nat, firstHandle: Handle, i: nat)
    requires LaunchBatch(batch, active, added, gap, firstHandle)
    requires i < |batch|
    ensures i * gap <= Sleep(batch[i]) < i * gap + gap / 10
    ensures forall j :: i < j < |batch| ==> Sleep(batch[i]) < Sleep(batch[j])
  {
    SleepWithinStagger(i, gap, batch[i].jitterUs);
    forall j | i < j < |batch| ensures Sleep(batch[i]) < Sleep(batch[j]) {
      StaggerOrdered(i, j, gap, batch[i].jitterUs, batch[j].jitterUs);
    }
  }
}
