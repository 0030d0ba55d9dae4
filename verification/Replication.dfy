/** Workers that apply core changes locally and then broadcast them. */
module Replication {
  import opened Wrappers
  import opened OrderedDicts
  import opened CoreIndex

  /** A message as sent; `sender` is the worker that applied the change before sending it. */
  datatype Message = Message(sender: nat, change: Change)

  /** A worker's cores, its changes applied but not yet published, and how much of the subject it has handled.
      Updates of several tasks may be published in another order than they were applied. */
  datatype Worker = Worker(cores: Cores, outbox: seq<Change>, handled: nat)

  datatype System = System(workers: seq<Worker>, log: seq<Message>)

  datatype Step =
    | ApplyLocally(worker: nat, change: Change)
    | Publish(worker: nat, position: nat)
    | Handle(worker: nat)

  function Without<T>(items: seq<T>, i: nat): seq<T>
    requires i < |items|
  {
    items[..i] + items[i + 1..]
  }

  predicate Enabled(s: System, step: Step) {
    && step.worker < |s.workers|
    && var w := s.workers[step.worker];
       match step
       case ApplyLocally(_, change) => change.Update? && change.core.Some? ==>
         DistinctKeys(change.core.value.inboundsByTag)
       case Publish(_, position) => position < |w.outbox|
       case Handle(_) => w.handled < |s.log|
  }

  /** `_update_core_nats` and `_remove_core_nats`: change the own map, then publish, broken or missing as the
      core may be.  `_handle_core_message`: change the own map, the worker's own messages included. */
  function NextSystem(s: System, step: Step): System
    requires Enabled(s, step)
  {
    var w := s.workers[step.worker];
    match step
    case ApplyLocally(i, change) =>
      s.(workers := s.workers[i := w.(cores := Changed(w.cores, change), outbox := w.outbox + [change])])
    case Publish(i, position) =>
      System(s.workers[i := w.(outbox := Without(w.outbox, position))], s.log + [Message(i, w.outbox[position])])
    case Handle(i) =>
      s.(workers := s.workers[i := w.(cores := Changed(w.cores, s.log[w.handled].change), handled := w.handled + 1)])
  }

  predicate Moves(s: System, step: Step, s': System) {
    Enabled(s, step) && s' == NextSystem(s, step)
  }

  /** A run from workers that all hold the same cores. */
  ghost predicate IsRun(systems: seq<System>, steps: seq<Step>, cores: Cores) {
    && |systems| == |steps| + 1 && ValidCores(cores)
    && systems[0].log == [] && (forall w <- systems[0].workers :: w == Worker(cores, [], 0))
    && forall i, j :: 0 <= i && i + 1 == j < |systems| ==> Moves(systems[i], steps[i], systems[j])
  }

  /** One worker that starts with the given cores and only handles the log. */
  function Replay(cores: Cores, log: seq<Message>): Cores {
    if log == [] then cores else Changed(Replay(cores, log[..|log| - 1]), log[|log| - 1].change)
  }

  // ----- What a change does to one core id -----

  predicate Touches(change: Change, id: int) {
    change.id == id && (change.Update? ==> change.core.Some?)
  }

  lemma ChangedLookup(cores: Cores, change: Change, id: int)
    requires DistinctKeys(cores)
    ensures Lookup(Changed(cores, change), id) ==
            if !Touches(change, id) then Lookup(cores, id) else if change.Update? then change.core else None
    ensures DistinctKeys(Changed(cores, change))
  {
    match change
    case Update(k, core) =>
      if core.Some? {
        LookupPut(cores, k, core.value, id);
        PutDistinct(cores, k, core.value);
      }
    case Remove(k) =>
      LookupDelete(cores, k, id);
      DeleteDistinct(cores, k);
  }

  lemma {:induction false} ReplayDistinct(cores: Cores, log: seq<Message>)
    requires DistinctKeys(cores)
    ensures DistinctKeys(Replay(cores, log))
  {
    if log != [] {
      ReplayDistinct(cores, log[..|log| - 1]);
      ChangedLookup(Replay(cores, log[..|log| - 1]), log[|log| - 1].change, 0);
    }
  }

  // ----- The invariant -----

  /** Worker i has a change to this core that it has not published yet. */
  ghost predicate Unpublished(s: System, i: nat, id: int)
    requires i < |s.workers|
  {
    exists change <- s.workers[i].outbox :: Touches(change, id)
  }

  /** Worker i has published a change to this core that it has not handled yet. */
  ghost predicate Unhandled(s: System, i: nat, id: int)
    requires i < |s.workers|
  {
    exists n :: s.workers[i].handled <= n < |s.log| && s.log[n].sender == i && Touches(s.log[n].change, id)
  }

  /** The worker's core is that of the replay of what it has handled. */
  ghost predicate AsReplayed(s: System, cores: Cores, i: nat, id: int)
    requires i < |s.workers| && s.workers[i].handled <= |s.log|
  {
    Lookup(s.workers[i].cores, id) == Lookup(Replay(cores, s.log[..s.workers[i].handled]), id)
  }

  /** A worker's core differs from the replay only while a change of its own to that core is on its way back. */
  ghost predicate InStep(s: System, cores: Cores, i: nat, id: int)
    requires i < |s.workers|
  {
    && DistinctKeys(s.workers[i].cores) && s.workers[i].handled <= |s.log|
    && (AsReplayed(s, cores, i, id) || Unpublished(s, i, id) || Unhandled(s, i, id))
  }

  lemma ApplyKeepsInStep(s: System, cores: Cores, step: Step, i: nat, id: int)
    requires step.ApplyLocally? && Enabled(s, step) && i < |s.workers| && InStep(s, cores, i, id)
    ensures InStep(NextSystem(s, step), cores, i, id)
  {
    var s' := NextSystem(s, step);
    if step.worker == i {
      ChangedLookup(s.workers[i].cores, step.change, id);
      var outbox' := s'.workers[i].outbox;
      if Touches(step.change, id) {
        assert step.change in outbox';
      } else if Unpublished(s, i, id) {
        var change :| change in s.workers[i].outbox && Touches(change, id);
        assert change in outbox';
      }
    }
  }

  lemma PublishKeepsUnhandled(s: System, step: Step, i: nat, id: int)
    requires step.Publish? && Enabled(s, step) && i < |s.workers| && Unhandled(s, i, id)
    ensures Unhandled(NextSystem(s, step), i, id)
  {
    var s' := NextSystem(s, step);
    var n :| s.workers[i].handled <= n < |s.log| && s.log[n].sender == i && Touches(s.log[n].change, id);
    assert s'.log[n] == s.log[n];
  }

  lemma PublishMovesChange(s: System, step: Step, i: nat, id: int)
    requires step.Publish? && Enabled(s, step) && i < |s.workers| && Unpublished(s, i, id) &&
             s.workers[i].handled <= |s.log|
    ensures Unpublished(NextSystem(s, step), i, id) || Unhandled(NextSystem(s, step), i, id)
  {
    var s' := NextSystem(s, step);
    if step.worker == i {
      var outbox := s.workers[i].outbox;
      var change :| change in outbox && Touches(change, id);
      var k :| 0 <= k < |outbox| && outbox[k] == change;
      if k == step.position {
        assert s'.log[|s.log|] == Message(i, change);
      } else {
        assert s'.workers[i].outbox[if k < step.position then k else k - 1] == change;
      }
    }
  }

  lemma PublishKeepsInStep(s: System, cores: Cores, step: Step, i: nat, id: int)
    requires step.Publish? && Enabled(s, step) && i < |s.workers| && InStep(s, cores, i, id)
    ensures InStep(NextSystem(s, step), cores, i, id)
  {
    assert NextSystem(s, step).log[..s.workers[i].handled] == s.log[..s.workers[i].handled];
    if Unpublished(s, i, id) {
      PublishMovesChange(s, step, i, id);
    } else if Unhandled(s, i, id) {
      PublishKeepsUnhandled(s, step, i, id);
    }
  }

  /** Handling a change to the core brings worker and replay together; handling any other leaves both. */
  lemma HandleAppliesToBoth(s: System, cores: Cores, step: Step, id: int)
    requires step.Handle? && Enabled(s, step) && DistinctKeys(s.workers[step.worker].cores) && DistinctKeys(cores)
    ensures var s', i := NextSystem(s, step), step.worker;
            && DistinctKeys(s'.workers[i].cores)
            && (Touches(s.log[s.workers[i].handled].change, id) || AsReplayed(s, cores, i, id) ==>
               AsReplayed(s', cores, i, id))
  {
    var w := s.workers[step.worker];
    assert s.log[..w.handled + 1][..w.handled] == s.log[..w.handled];
    ReplayDistinct(cores, s.log[..w.handled]);
    ChangedLookup(w.cores, s.log[w.handled].change, id);
    ChangedLookup(Replay(cores, s.log[..w.handled]), s.log[w.handled].change, id);
  }

  lemma HandleKeepsInStep(s: System, cores: Cores, step: Step, i: nat, id: int)
    requires step.Handle? && Enabled(s, step) && i < |s.workers| && InStep(s, cores, i, id) && DistinctKeys(cores)
    ensures InStep(NextSystem(s, step), cores, i, id)
  {
    if step.worker == i {
      var h := s.workers[i].handled;
      HandleAppliesToBoth(s, cores, step, id);
      if !Touches(s.log[h].change, id) && Unhandled(s, i, id) {
        var n :| h <= n < |s.log| && s.log[n].sender == i && Touches(s.log[n].change, id);
        assert n != h && NextSystem(s, step).log[n] == s.log[n];
      }
    }
  }

  lemma StepKeepsInStep(s: System, cores: Cores, step: Step, i: nat, id: int)
    requires Enabled(s, step) && i < |s.workers| && InStep(s, cores, i, id) && DistinctKeys(cores)
    ensures |NextSystem(s, step).workers| == |s.workers| && InStep(NextSystem(s, step), cores, i, id)
  {
    match step
    case ApplyLocally(_, _) => ApplyKeepsInStep(s, cores, step, i, id);
    case Publish(_, _) => PublishKeepsInStep(s, cores, step, i, id);
    case Handle(_) => HandleKeepsInStep(s, cores, step, i, id);
  }

  lemma {:induction false} RunKeepsInStep(systems: seq<System>, steps: seq<Step>, cores: Cores, n: nat, i: nat, id: int)
    requires IsRun(systems, steps, cores) && n < |systems| && i < |systems[0].workers|
    ensures |systems[n].workers| == |systems[0].workers| && InStep(systems[n], cores, i, id)
  {
    if n == 0 {
      assert systems[0].workers[i] in systems[0].workers;
    } else {
      RunKeepsInStep(systems, steps, cores, n - 1, i, id);
      assert Moves(systems[n - 1], steps[n - 1], systems[n]);
      StepKeepsInStep(systems[n - 1], cores, steps[n - 1], i, id);
    }
  }

  // ----- Convergence -----

  /** Everything applied has been published, and everything published has been handled. */
  ghost predicate Quiet(s: System) {
    forall w <- s.workers :: w.outbox == [] && w.handled == |s.log|
  }

  /** Once everything is delivered, every worker holds the cores that the log alone prescribes. */
  lemma ReplicasConverge(systems: seq<System>, steps: seq<Step>, cores: Cores, n: nat, i: nat, id: int)
    requires IsRun(systems, steps, cores) && n < |systems| && i < |systems[n].workers| && Quiet(systems[n])
    ensures Lookup(systems[n].workers[i].cores, id) == Lookup(Replay(cores, systems[n].log), id)
  {
    WorkersStay(systems, steps, cores, n);
    RunKeepsInStep(systems, steps, cores, n, i, id);
    assert systems[n].workers[i] in systems[n].workers;
    assert systems[n].log[..|systems[n].log|] == systems[n].log;
  }

  lemma {:induction false} WorkersStay(systems: seq<System>, steps: seq<Step>, cores: Cores, n: nat)
    requires IsRun(systems, steps, cores) && n < |systems|
    ensures |systems[n].workers| == |systems[0].workers|
  {
    if n > 0 {
      WorkersStay(systems, steps, cores, n - 1);
      assert Moves(systems[n - 1], steps[n - 1], systems[n]);
    }
  }

  // ----- The index -----

  ghost predicate SameCores(a: Cores, b: Cores) {
    forall id :: Lookup(a, id) == Lookup(b, id)
  }

  ghost predicate SameIndex(a: Cores, b: Cores) {
    forall tag :: Lookup(Merge(a), tag) == Lookup(Merge(b), tag)
  }

  /** Cores that have the same tag agree on its inbound; in particular when no two cores share a tag. */
  ghost predicate NoConflict(cores: Cores) {
    forall a, b, tag :: InboundOf(cores, a, tag).Some? && InboundOf(cores, b, tag).Some? ==>
                          InboundOf(cores, a, tag) == InboundOf(cores, b, tag)
  }

  lemma SameCoresSameIndex(a: Cores, b: Cores)
    requires ValidCores(a) && ValidCores(b) && SameCores(a, b) && NoConflict(a)
    ensures SameIndex(a, b)
  {
    forall tag ensures Lookup(Merge(a), tag) == Lookup(Merge(b), tag) {
      MergeFindsProvider(a, tag);
      MergeFindsProvider(b, tag);
      forall id ensures InboundOf(a, id, tag) == InboundOf(b, id, tag) { assert Lookup(a, id) == Lookup(b, id); }
      if Provider(a, tag).Some? { ProviderHasTag(a, tag); }
      if Provider(b, tag).Some? { ProviderHasTag(b, tag); }
    }
  }

  lemma {:induction false} PutLast(cores: Cores, id: int, core: Core, tag: string)
    requires Lookup(cores, id) == None && Lookup(core.inboundsByTag, tag).Some?
    ensures Provider(Put(cores, id, core), tag) == Some(id)
  {
    if cores == [] {
      assert [Item(id, core)][1..] == [];
    } else {
      PutLast(cores[1..], id, core, tag);
      assert Put(cores, id, core)[1..] == Put(cores[1..], id, core);
    }
  }

  /** The same cores with one of them inserted last. */
  lemma MovedLast(cores: Cores, id: int, tag: string) returns (moved: Cores)
    requires ValidCores(cores) && InboundOf(cores, id, tag).Some?
    ensures ValidCores(moved) && SameCores(cores, moved) && Lookup(Merge(moved), tag) == InboundOf(cores, id, tag)
  {
    var core := Lookup(cores, id).value;
    moved := Put(Delete(cores, id), id, core);
    DeleteValid(cores, id);
    LookupDelete(cores, id, id);
    CoreIsValid(cores, id);
    PutValid(Delete(cores, id), id, core);
    forall k ensures Lookup(moved, k) == Lookup(cores, k) {
      LookupDelete(cores, id, k);
      LookupPut(Delete(cores, id), id, core, k);
    }
    PutLast(Delete(cores, id), id, core, tag);
    MergeFindsProvider(moved, tag);
  }

  lemma {:induction false} CoreIsValid(cores: Cores, id: int)
    requires ValidCores(cores) && Lookup(cores, id).Some?
    ensures DistinctKeys(Lookup(cores, id).value.inboundsByTag)
  {
    assert cores[0] in cores && forall item <- cores[1..] :: item in cores;
    if cores[0].key != id { CoreIsValid(cores[1..], id); }
  }

  /** The order in which a worker came to its cores shows in the index exactly when cores conflict. */
  lemma OrderShowsIffConflict(cores: Cores)
    requires ValidCores(cores)
    ensures (forall other :: ValidCores(other) && SameCores(cores, other) ==> SameIndex(cores, other)) <==>
            NoConflict(cores)
  {
    if NoConflict(cores) {
      forall other | ValidCores(other) && SameCores(cores, other) ensures SameIndex(cores, other) {
        SameCoresSameIndex(cores, other);
      }
    } else {
      var a, b, tag :| InboundOf(cores, a, tag).Some? && InboundOf(cores, b, tag).Some?
                       && InboundOf(cores, a, tag) != InboundOf(cores, b, tag);
      var lastA := MovedLast(cores, a, tag);
      var lastB := MovedLast(cores, b, tag);
      assert !(SameIndex(cores, lastA) && SameIndex(cores, lastB));
    }
  }

  // ----- Workers hold valid cores -----

  ghost predicate ValidChange(change: Change) {
    change.Update? && change.core.Some? ==> DistinctKeys(change.core.value.inboundsByTag)
  }

  lemma ChangedValid(cores: Cores, change: Change)
    requires ValidCores(cores) && ValidChange(change)
    ensures ValidCores(Changed(cores, change))
  {
    match change
    case Update(id, core) => if core.Some? { PutValid(cores, id, core.value); }
    case Remove(id) => DeleteValid(cores, id);
  }

  ghost predicate ValidWorker(w: Worker) {
    ValidCores(w.cores) && forall change <- w.outbox :: ValidChange(change)
  }

  ghost predicate AllValid(s: System) {
    (forall w <- s.workers :: ValidWorker(w)) && forall m <- s.log :: ValidChange(m.change)
  }

  lemma StepKeepsValid(s: System, step: Step)
    requires AllValid(s) && Enabled(s, step)
    ensures AllValid(NextSystem(s, step))
  {
    var w := s.workers[step.worker];
    assert ValidWorker(w);
    match step
    case ApplyLocally(_, change) => ChangedValid(w.cores, change);
    case Publish(_, position) => assert w.outbox[position] in w.outbox;
    case Handle(_) => ChangedValid(w.cores, s.log[w.handled].change);
  }

  lemma {:induction false} RunKeepsValid(systems: seq<System>, steps: seq<Step>, cores: Cores, n: nat)
    requires IsRun(systems, steps, cores) && n < |systems|
    ensures AllValid(systems[n])
  {
    if n > 0 {
      RunKeepsValid(systems, steps, cores, n - 1);
      assert Moves(systems[n - 1], steps[n - 1], systems[n]);
      StepKeepsValid(systems[n - 1], steps[n - 1]);
    }
  }

  /** Once everything is delivered, any two workers' indexes agree unless cores conflict. */
  lemma IndexesConverge(systems: seq<System>, steps: seq<Step>, cores: Cores, n: nat, i: nat, j: nat)
    requires IsRun(systems, steps, cores) && n < |systems| && i < |systems[n].workers| && j < |systems[n].workers|
    requires Quiet(systems[n]) && NoConflict(systems[n].workers[i].cores)
    ensures SameIndex(systems[n].workers[i].cores, systems[n].workers[j].cores)
  {
    RunKeepsValid(systems, steps, cores, n);
    var a, b := systems[n].workers[i], systems[n].workers[j];
    assert ValidWorker(a) && ValidWorker(b);
    forall id ensures Lookup(a.cores, id) == Lookup(b.cores, id) {
      ReplicasConverge(systems, steps, cores, n, i, id);
      ReplicasConverge(systems, steps, cores, n, j, id);
    }
    SameCoresSameIndex(a.cores, b.cores);
  }

  // Two workers each add a core with the same tag at the same time.

  const CORE_A := Core([Item("tag", Inbound("a"))])

  const CORE_B := Core([Item("tag", Inbound("b"))])

  const ADD_A := Update(1, Some(CORE_A))

  const ADD_B := Update(2, Some(CORE_B))

  const BOTH: seq<Message> := [Message(0, ADD_A), Message(1, ADD_B)]

  const ONLY_A: Cores := [Item(1, CORE_A)]

  const ONLY_B: Cores := [Item(2, CORE_B)]

  const A_THEN_B: Cores := [Item(1, CORE_A), Item(2, CORE_B)]

  const B_THEN_A: Cores := [Item(2, CORE_B), Item(1, CORE_A)]

  const CONFLICT_STEPS: seq<Step> :=
    [ApplyLocally(0, ADD_A), ApplyLocally(1, ADD_B), Publish(0, 0), Publish(1, 0), Handle(0), Handle(0), Handle(1),
      Handle(1)]

  function Two(a: Worker, b: Worker, log: seq<Message>): System {
    System([a, b], log)
  }

  const CONFLICT_RUN: seq<System> := [
    Two(Worker([], [], 0), Worker([], [], 0), []),
    Two(Worker(ONLY_A, [ADD_A], 0), Worker([], [], 0), []),
    Two(Worker(ONLY_A, [ADD_A], 0), Worker(ONLY_B, [ADD_B], 0), []),
    Two(Worker(ONLY_A, [], 0), Worker(ONLY_B, [ADD_B], 0), BOTH[..1]),
    Two(Worker(ONLY_A, [], 0), Worker(ONLY_B, [], 0), BOTH),
    Two(Worker(ONLY_A, [], 1), Worker(ONLY_B, [], 0), BOTH),
    Two(Worker(A_THEN_B, [], 2), Worker(ONLY_B, [], 0), BOTH),
    Two(Worker(A_THEN_B, [], 2), Worker(B_THEN_A, [], 1), BOTH),
    Two(Worker(A_THEN_B, [], 2), Worker(B_THEN_A, [], 2), BOTH)]

  lemma ConflictApplies(k: nat)
    requires k < 2
    ensures Moves(CONFLICT_RUN[k], CONFLICT_STEPS[k], CONFLICT_RUN[k + 1])
  {
    var s, s' := NextSystem(CONFLICT_RUN[k], CONFLICT_STEPS[k]), CONFLICT_RUN[k + 1];
    assert s.workers[k].outbox == s'.workers[k].outbox;
    assert s.workers == s'.workers;
  }

  lemma ConflictPublishes(k: nat)
    requires 2 <= k < 4
    ensures Moves(CONFLICT_RUN[k], CONFLICT_STEPS[k], CONFLICT_RUN[k + 1])
  {
    var s, s' := NextSystem(CONFLICT_RUN[k], CONFLICT_STEPS[k]), CONFLICT_RUN[k + 1];
    assert s.log == s'.log;
    assert s.workers[k - 2].outbox == [];
    assert s.workers == s'.workers;
  }

  lemma ConflictHandles(k: nat)
    requires 4 <= k < 8
    ensures Moves(CONFLICT_RUN[k], CONFLICT_STEPS[k], CONFLICT_RUN[k + 1])
  {
    PutsOfTwo(1, CORE_A, 2, CORE_B);
    PutsOfTwo(2, CORE_B, 1, CORE_A);
    var s, s' := NextSystem(CONFLICT_RUN[k], CONFLICT_STEPS[k]), CONFLICT_RUN[k + 1];
    assert s.workers == s'.workers;
  }

  /** They end with the same cores, and with different inbounds behind the tag. */
  lemma ConcurrentCoresCanConflict()
    ensures IsRun(CONFLICT_RUN, CONFLICT_STEPS, [])
    ensures var s := CONFLICT_RUN[8]; |s.workers| == 2 && Quiet(s) && !SameIndex(s.workers[0].cores, s.workers[1].cores)
  {
    forall i, j | 0 <= i && i + 1 == j < 9 ensures Moves(CONFLICT_RUN[i], CONFLICT_STEPS[i], CONFLICT_RUN[j]) {
      if i < 2 { ConflictApplies(i); } else if i < 4 { ConflictPublishes(i); } else { ConflictHandles(i); }
    }
    OneTag(1, CORE_A, 2, CORE_B);
    OneTag(2, CORE_B, 1, CORE_A);
  }

  lemma PutsOfTwo(x: int, first: Core, y: int, second: Core)
    requires x != y
    ensures Put([Item(x, first)], x, first) == [Item(x, first)]
    ensures Put([Item(x, first)], y, second) == [Item(x, first), Item(y, second)]
    ensures Put([Item(x, first), Item(y, second)], y, second) == [Item(x, first), Item(y, second)]
  {
    assert [Item(x, first)][1..] == [] && [Item(y, second)][1..] == [];
    assert [Item(x, first), Item(y, second)][1..] == [Item(y, second)];
  }

  lemma InFront(item: Item<int, Core>, rest: Cores, id: int, tag: string)
    ensures Lookup([item] + rest, id) == if item.key == id then Some(item.value) else Lookup(rest, id)
    ensures DistinctKeys([item] + rest) <==> Lookup(rest, item.key) == None && DistinctKeys(rest)
    ensures Provider(rest, tag).Some? ==> Provider([item] + rest, tag) == Provider(rest, tag)
    ensures Provider(rest, tag) == None && Lookup(item.value.inboundsByTag, tag).Some? ==>
              Provider([item] + rest, tag) == Some(item.key)
  {
    assert ([item] + rest)[1..] == rest;
  }

  lemma OneTag(x: int, first: Core, y: int, second: Core)
    requires x != y && |first.inboundsByTag| == |second.inboundsByTag| == 1
    requires first.inboundsByTag[0].key == second.inboundsByTag[0].key == "tag"
    ensures Lookup(Merge([Item(x, first), Item(y, second)]), "tag") == Some(second.inboundsByTag[0].value)
  {
    var cores, last := [Item(x, first), Item(y, second)], [Item(y, second)];
    assert first.inboundsByTag[1..] == [] && second.inboundsByTag[1..] == [];
    assert cores == [Item(x, first)] + last && last == [Item(y, second)] + [];
    InFront(Item(y, second), [], y, "tag");
    InFront(Item(y, second), [], x, "tag");
    InFront(Item(x, first), last, y, "tag");
    MergeFindsProvider(cores, "tag");
  }
}
