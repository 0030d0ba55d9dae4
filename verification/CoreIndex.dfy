/** The cores a manager holds and the tag index derived from them. */
module CoreIndex {
  import opened Wrappers
  import opened OrderedDicts

  /** The settings of one inbound, opaque to the manager. */
  datatype Inbound = Inbound(settings: string)

  /** A validated core, of which the manager uses the inbounds by tag.  Validated cores are never empty. */
  datatype Core = Core(inboundsByTag: Dict<string, Inbound>)

  type Cores = Dict<int, Core>

  type TagIndex = Dict<string, Inbound>

  ghost predicate ValidCores(cores: Cores) {
    DistinctKeys(cores) && forall item <- cores :: DistinctKeys(item.value.inboundsByTag)
  }

  function MergeFrom(index: TagIndex, cores: Cores): TagIndex
    decreases cores
  {
    if cores == [] then index else MergeFrom(PutAll(index, cores[0].value.inboundsByTag), cores[1..])
  }

  /** The merge of all cores in insertion order. */
  function Merge(cores: Cores): TagIndex {
    MergeFrom([], cores)
  }

  /** The core a tag is served by: the last one that has it. */
  function Provider(cores: Cores, tag: string): Option<int> {
    if cores == [] then None
    else
      var later := Provider(cores[1..], tag);
      if later.Some? then later
      else if Lookup(cores[0].value.inboundsByTag, tag).Some? then Some(cores[0].key)
      else None
  }

  /** What a core has under a tag. */
  function InboundOf(cores: Cores, id: int, tag: string): Option<Inbound> {
    var core := Lookup(cores, id);
    if core.Some? then Lookup(core.value.inboundsByTag, tag) else None
  }

  function Provided(cores: Cores, tag: string): Option<Inbound> {
    if Provider(cores, tag).Some? then InboundOf(cores, Provider(cores, tag).value, tag) else None
  }

  lemma {:induction false} ProviderHasTag(cores: Cores, tag: string)
    requires DistinctKeys(cores) && Provider(cores, tag).Some?
    ensures InboundOf(cores, Provider(cores, tag).value, tag).Some?
  {
    if Provider(cores[1..], tag).Some? {
      ProviderHasTag(cores[1..], tag);
      assert Provider(cores[1..], tag).value != cores[0].key;
    }
  }

  lemma {:induction false} NoProvider(cores: Cores, id: int, tag: string)
    requires Provider(cores, tag) == None
    ensures InboundOf(cores, id, tag) == None
  {
    if cores != [] { NoProvider(cores[1..], id, tag); }
  }

  lemma {:induction false} LookupMergeFrom(index: TagIndex, cores: Cores, tag: string)
    requires ValidCores(cores)
    ensures Lookup(MergeFrom(index, cores), tag) ==
            if Provider(cores, tag).Some? then Provided(cores, tag) else Lookup(index, tag)
    decreases cores
  {
    if cores != [] {
      var inbounds := cores[0].value.inboundsByTag;
      assert cores[0] in cores && forall item <- cores[1..] :: item in cores;
      LookupPutAll(index, inbounds, tag);
      LookupMergeFrom(PutAll(index, inbounds), cores[1..], tag);
      if Provider(cores[1..], tag).Some? { ProviderHasTag(cores[1..], tag); }
    }
  }

  /** The index finds a tag in the last core that has it. */
  lemma MergeFindsProvider(cores: Cores, tag: string)
    requires ValidCores(cores)
    ensures Lookup(Merge(cores), tag) == Provided(cores, tag)
    ensures Lookup(Merge(cores), tag) == None <==> forall id :: InboundOf(cores, id, tag) == None
  {
    LookupMergeFrom([], cores, tag);
    if Provider(cores, tag).Some? {
      ProviderHasTag(cores, tag);
    } else {
      forall id ensures InboundOf(cores, id, tag) == None { NoProvider(cores, id, tag); }
    }
  }

  lemma {:induction false} MergeFromDistinct(index: TagIndex, cores: Cores)
    requires DistinctKeys(index)
    ensures DistinctKeys(MergeFrom(index, cores))
    decreases cores
  {
    if cores != [] {
      PutAllDistinct(index, cores[0].value.inboundsByTag);
      MergeFromDistinct(PutAll(index, cores[0].value.inboundsByTag), cores[1..]);
    }
  }

  // ----- Removing and updating a core -----

  lemma {:induction false} DeleteProvider(cores: Cores, id: int, tag: string)
    requires DistinctKeys(cores) && Provider(cores, tag) != Some(id)
    ensures Provider(Delete(cores, id), tag) == Provider(cores, tag)
  {
    if cores != [] {
      if cores[0].key != id {
        DeleteProvider(cores[1..], id, tag);
        assert Delete(cores, id)[1..] == Delete(cores[1..], id);
      }
    }
  }

  lemma {:induction false} DeleteKeepsItems(cores: Cores, id: int)
    ensures forall item <- Delete(cores, id) :: item in cores
  {
    if cores != [] && cores[0].key != id { DeleteKeepsItems(cores[1..], id); }
  }

  lemma DeleteValid(cores: Cores, id: int)
    requires ValidCores(cores)
    ensures ValidCores(Delete(cores, id))
  {
    DeleteDistinct(cores, id);
    DeleteKeepsItems(cores, id);
  }

  lemma {:induction false} PutItems(cores: Cores, id: int, core: Core)
    ensures forall item <- Put(cores, id, core) :: item in cores || item.value == core
  {
    if cores != [] {
      if cores[0].key != id { PutItems(cores[1..], id, core); }
    }
  }

  lemma PutValid(cores: Cores, id: int, core: Core)
    requires ValidCores(cores) && DistinctKeys(core.inboundsByTag)
    ensures ValidCores(Put(cores, id, core))
  {
    PutDistinct(cores, id, core);
    PutItems(cores, id, core);
  }

  /** Removing a core leaves every tag of the others: those it did not serve keep their inbound, and those it
      served show the inbound it had shadowed, if any. */
  lemma RemovalExposes(cores: Cores, id: int, tag: string)
    requires ValidCores(cores)
    ensures Provider(cores, tag) != Some(id) ==> Lookup(Merge(Delete(cores, id)), tag) == Lookup(Merge(cores), tag)
    ensures Lookup(Merge(Delete(cores, id)), tag).Some? <==>
            exists other :: other != id && InboundOf(cores, other, tag).Some?
    ensures var next := Lookup(Merge(Delete(cores, id)), tag);
            next.Some? ==> exists other :: other != id && InboundOf(cores, other, tag) == next
  {
    var rest := Delete(cores, id);
    DeleteValid(cores, id);
    MergeFindsProvider(cores, tag);
    MergeFindsProvider(rest, tag);
    forall other ensures InboundOf(rest, other, tag) == if other == id then None else InboundOf(cores, other, tag) {
      LookupDelete(cores, id, other);
    }
    if Provider(cores, tag) != Some(id) { DeleteProvider(cores, id, tag); }
    if Provider(rest, tag).Some? { ProviderHasTag(rest, tag); }
  }

  // ----- Tasks that change the cores and then rebuild the index -----

  /** A core configuration update carries the validated core, or None when validation fails. */
  datatype Change = Update(id: int, core: Option<Core>) | Remove(id: int)

  datatype Manager = Manager(cores: Cores, index: TagIndex)

  /** The first lock section; a broken update and a missing core end the task there. */
  function Changed(cores: Cores, change: Change): Cores {
    match change
    case Update(id, core) => if core.Some? then Put(cores, id, core.value) else cores
    case Remove(id) => Delete(cores, id)
  }

  predicate Continues(cores: Cores, change: Change) {
    match change
    case Update(_, core) => core.Some?
    case Remove(id) => Lookup(cores, id).Some?
  }

  /** The manager and the tasks between their two lock sections. */
  datatype State = State(manager: Manager, rebuilding: set<nat>)

  datatype Action = ChangeCores(task: nat, change: Change) | RebuildIndex(task: nat)

  predicate Next(s: State, a: Action, s': State) {
    match a
    case ChangeCores(task, change) =>
      && task !in s.rebuilding
      && (change.Update? && change.core.Some? ==> DistinctKeys(change.core.value.inboundsByTag))
      && s'.manager == Manager(Changed(s.manager.cores, change), s.manager.index)
      && s'.rebuilding == if Continues(s.manager.cores, change) then s.rebuilding + {task} else s.rebuilding
    case RebuildIndex(task) =>
      && task in s.rebuilding
      && s'.manager == Manager(s.manager.cores, Merge(s.manager.cores))
      && s'.rebuilding == s.rebuilding - {task}
  }

  ghost predicate IsRun(states: seq<State>, actions: seq<Action>) {
    && |states| == |actions| + 1
    && ValidCores(states[0].manager.cores)
    && states[0] == State(Manager(states[0].manager.cores, Merge(states[0].manager.cores)), {})
    && forall i, j :: 0 <= i && i + 1 == j < |states| ==> Next(states[i], actions[i], states[j])
  }

  ghost predicate Consistent(s: State) {
    ValidCores(s.manager.cores) && (s.rebuilding == {} ==> s.manager.index == Merge(s.manager.cores))
  }

  lemma {:induction false} DeleteMissing<K, V>(d: Dict<K, V>, k: K)
    requires Lookup(d, k) == None
    ensures Delete(d, k) == d
  {
    if d != [] { DeleteMissing(d[1..], k); }
  }

  lemma StepKeepsConsistent(s: State, a: Action, s': State)
    requires Consistent(s) && Next(s, a, s')
    ensures Consistent(s')
  {
    if a.ChangeCores? {
      match a.change
      case Update(id, core) => if core.Some? { PutValid(s.manager.cores, id, core.value); }
      case Remove(id) =>
        DeleteValid(s.manager.cores, id);
        if Lookup(s.manager.cores, id) == None { DeleteMissing(s.manager.cores, id); }
      if Continues(s.manager.cores, a.change) { assert a.task in s'.rebuilding; }
    }
  }

  lemma {:induction false} RunIsConsistent(states: seq<State>, actions: seq<Action>, i: nat)
    requires IsRun(states, actions) && i < |states|
    ensures Consistent(states[i])
  {
    if i > 0 {
      RunIsConsistent(states, actions, i - 1);
      StepKeepsConsistent(states[i - 1], actions[i - 1], states[i]);
    }
  }

  /** However the tasks interleave: whenever none is between its two sections, the index finds every tag in
      the last core that has it, and lists every tag once. */
  lemma IndexAgreesAtRest(states: seq<State>, actions: seq<Action>, i: nat, tag: string)
    requires IsRun(states, actions) && i < |states| && states[i].rebuilding == {}
    ensures var m := states[i].manager;
            && Lookup(m.index, tag) == Provided(m.cores, tag)
            && (tag in KeysOf(m.index) <==> exists id :: InboundOf(m.cores, id, tag).Some?)
            && NoRepeats(KeysOf(m.index))
  {
    RunIsConsistent(states, actions, i);
    var cores := states[i].manager.cores;
    MergeFindsProvider(cores, tag);
    KeysAreKeys(Merge(cores), tag);
    MergeFromDistinct([], cores);
    KeysOnce(Merge(cores));
  }

  /** A broken update and the removal of a core that is not there change nothing, and leave nothing to do. */
  lemma EndedTaskChangesNothing(s: State, a: Action, s': State)
    requires Next(s, a, s') && a.ChangeCores? && !Continues(s.manager.cores, a.change)
    ensures s' == s
  {
    if a.change.Remove? { DeleteMissing(s.manager.cores, a.change.id); }
  }

  // ----- The object -----

  class CoreManager {
    var cores: Cores
    var inbounds: seq<string>
    var inboundsByTag: TagIndex

    constructor ()
      ensures cores == [] && inbounds == [] && inboundsByTag == []
    {
      cores := [];
      inbounds := [];
      inboundsByTag := [];
    }

    /** The second lock section. */
    method UpdateInbounds()
      modifies this`inbounds, this`inboundsByTag
      ensures inboundsByTag == Merge(cores) && inbounds == KeysOf(inboundsByTag)
    {
      var newInbounds: TagIndex := [];
      for i := 0 to |cores|
        invariant MergeFrom(newInbounds, cores[i..]) == Merge(cores)
      {
        assert cores[i..][1..] == cores[i + 1..];
        newInbounds := PutAll(newInbounds, cores[i].value.inboundsByTag);
      }
      inboundsByTag := newInbounds;
      inbounds := KeysOf(inboundsByTag);
    }

    /** The first lock section of `_update_core_local`; `core` is None when validation failed. */
    method StoreCore(id: int, core: Option<Core>) returns (goesOn: bool)
      modifies this`cores
      ensures cores == Changed(old(cores), Update(id, core)) && goesOn == Continues(old(cores), Update(id, core))
    {
      if core == None { return false; }
      cores := Put(cores, id, core.value);
      return true;
    }

    /** The first lock section of `_remove_core_local`. */
    method DropCore(id: int) returns (goesOn: bool)
      modifies this`cores
      ensures cores == Changed(old(cores), Remove(id)) && goesOn == Continues(old(cores), Remove(id))
    {
      if Lookup(cores, id) == None {
        DeleteMissing(cores, id);
        return false;
      }
      cores := Delete(cores, id);
      return true;
    }

    /** `_update_core_local` with no other task in between. */
    method UpdateCoreLocal(id: int, core: Option<Core>)
      modifies this
      ensures cores == Changed(old(cores), Update(id, core))
      ensures core.Some? ==> inboundsByTag == Merge(cores) && inbounds == KeysOf(inboundsByTag)
      ensures core == None ==> inboundsByTag == old(inboundsByTag) && inbounds == old(inbounds)
    {
      var goesOn := StoreCore(id, core);
      if goesOn { UpdateInbounds(); }
    }

    /** `_remove_core_local` with no other task in between. */
    method RemoveCoreLocal(id: int)
      modifies this
      ensures cores == Delete(old(cores), id)
      ensures Lookup(old(cores), id).Some? ==> inboundsByTag == Merge(cores) && inbounds == KeysOf(inboundsByTag)
      ensures Lookup(old(cores), id) == None ==> inboundsByTag == old(inboundsByTag) && inbounds == old(inbounds)
    {
      var goesOn := DropCore(id);
      if goesOn { UpdateInbounds(); }
    }
  }
}
