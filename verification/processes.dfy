/** Tearing down a container's processes when process ids are reused at any moment. */
module ContainerProcesses {
  import opened Wrappers

  type Pid = nat
  type Id = nat

  /** One process: its id, and the start mark that no other process shares. */
  datatype Instance = Instance(pid: Pid, start: nat)

  /** Which process holds each id, which of them are zombies, and the first start mark not used yet. */
  datatype World = World(table: map<Pid, Instance>, zombies: set<Instance>, born: nat)

  predicate Running(w: World, i: Instance) {
    i.pid in w.table && w.table[i.pid] == i && i !in w.zombies
  }

  /** `process_identity` */
  function Identity(w: World, pid: Pid): Option<Instance> {
    if pid in w.table && w.table[pid] !in w.zombies then Some(w.table[pid]) else None
  }

  predicate WorldOk(w: World) {
    forall p <- w.table :: w.table[p].pid == p && w.table[p].start < w.born
  }

  /** Time passes: processes start, die and are reaped, and ids are reused; a process keeps its id, does not come back, and does not rise from the dead. */
  predicate Evolves(before: World, after: World) {
    && WorldOk(after) && before.born <= after.born
    && (forall p <- after.table :: after.table[p].start < before.born ==> p in before.table && before.table[p] == after.table[p])
    && (forall i <- before.zombies :: i.pid in after.table && after.table[i.pid] == i ==> i in after.zombies)
  }

  lemma StillRunning(before: World, after: World, i: Instance)
    requires Evolves(before, after) && i.start < before.born && Running(after, i)
    ensures Running(before, i)
  {
  }

  /** Once exited, always exited. */
  lemma StaysExited(before: World, after: World)
    requires Evolves(before, after)
    ensures forall i: Instance :: i.start < before.born && !Running(before, i) ==> !Running(after, i)
  {
    forall i: Instance | i.start < before.born && !Running(before, i)
      ensures !Running(after, i)
    {
      if Running(after, i) {
        StillRunning(before, after, i);
      }
    }
  }

  /** One record of the registry. */
  datatype Child = Child(container: Id, identity: Instance)

  /** What others do between two steps: the world evolves, and the workshop may be launched again or its entry deleted. */
  datatype EntryChange = Keep | Deleted | Launched
  datatype Turn = Turn(next: World, entry: EntryChange)

  /** Every process ever registered is still recorded, or has exited. */
  ghost predicate Accounted(w: World, children: seq<Child>, registered: set<Child>) {
    && (forall child <- children :: child in registered)
    && forall child <- registered :: child.identity.start < w.born && (Running(w, child.identity) ==> child in children)
  }

  /** A removed container has no running process, and cannot be entered again. */
  ghost predicate Closed(w: World, entry: Option<Id>, removed: Option<Id>, registered: set<Child>, gone: set<Id>) {
    forall a <- gone ::
      (removed == Some(a) || entry != Some(a)) && forall child <- registered :: child.container == a ==> !Running(w, child.identity)
  }

  class Registry {
    var world: World
    /** The workshop's entry: the container launched last. */
    var entry: Option<Id>
    var nextId: Id
    /** The durable record. */
    var children: seq<Child>
    var removed: Option<Id>
    var turns: seq<Turn>
    ghost var signalled: set<Instance>
    ghost var registered: set<Child>
    /** The containers whose removal has returned normally, those of them that are still closed, and those that another removal has reopened since. */
    ghost var removedOnce: set<Id>
    ghost var gone: set<Id>
    ghost var reopened: set<Id>

    constructor (world: World, turns: seq<Turn>)
      requires WorldOk(world)
      ensures Valid() && this.world == world && this.turns == turns && registered == {} && removedOnce == {} && signalled == {}
      ensures entry == None && nextId == 0 && children == [] && removed == None
    {
      this.world, this.turns, entry, nextId, children, removed := world, turns, None, 0, [], None;
      signalled, registered, removedOnce, gone, reopened := {}, {}, {}, {}, {};
    }

    ghost predicate Valid()
      reads this
    {
      && WorldOk(world) && Accounted(world, children, registered) && Closed(world, entry, removed, registered, gone)
      && (entry.Some? ==> entry.value < nextId) && (forall a <- removedOnce :: a < nextId)
      && gone <= removedOnce && removedOnce <= gone + reopened
    }

    /** `execute` lets nothing into the container, and none of its processes runs. */
    ghost predicate IsClosed(a: Id)
      reads this
    {
      (removed == Some(a) || entry != Some(a)) && forall child <- registered :: child.container == a ==> !Running(world, child.identity)
    }

    /** Nothing happens but what is asked for. */
    ghost predicate Undisturbed()
      reads this
    {
      turns == []
    }

    method NextTurn()
      requires Valid()
      modifies `world, `entry, `nextId, `turns
      ensures Valid() && (Evolves(old(world), world) || world == old(world)) && nextId >= old(nextId)
      ensures entry == old(entry) || entry.None? || entry.value >= old(nextId)
      ensures old(turns) == [] ==> turns == [] && world == old(world) && entry == old(entry)
      ensures old(turns) != [] ==>
                && turns == old(turns)[1..]
                && world == (if Evolves(old(world), old(turns)[0].next) then old(turns)[0].next else old(world))
                && entry == (match old(turns)[0].entry
                             case Keep => old(entry)
                             case Deleted => None
                             case Launched => if old(entry).None? then Some(old(nextId)) else old(entry))
                && nextId == if old(turns)[0].entry.Launched? && old(entry).None? then old(nextId) + 1 else old(nextId)
    {
      if turns == [] {
        return;
      }
      var turn := turns[0];
      turns := turns[1..];
      if Evolves(world, turn.next) {
        world := turn.next;
      }
      match turn.entry
      case Keep =>
      case Deleted =>
        entry := None;
      case Launched =>
        if entry.None? {
          entry := Some(nextId);
          nextId := nextId + 1;
        }
    }

    /** `execute`, by the process that is to run in the container: it registers itself unless the container is not the one launched, or has been removed. */
    method Execute(container: Id, me: Instance) returns (ok: bool)
      requires Valid() && Running(world, me)
      modifies `world, `entry, `nextId, `turns, `children, `registered
      ensures Valid()
      ensures ok ==> container !in gone && registered == old(registered) + {Child(container, me)} && Child(container, me) in children
      ensures !ok ==> registered == old(registered) && children == old(children)
      ensures old(turns) == [] ==> (ok <==> old(entry) == Some(container) && removed != Some(container))
      ensures ok ==> Running(world, me) && forall child <- children :: child in old(children) || child == Child(container, me)
      ensures old(Undisturbed()) ==> Undisturbed() && world == old(world) && entry == old(entry)
    {
      hide Accounted, Running, WorldOk, Evolves;
      NextTurn();
      if entry != Some(container) || removed == Some(container) {
        return false;
      }
      var kept := StillRecorded();
      ghost var was := world;
      NextTurn();
      StillAll(was, world, children, kept, registered);
      if !Running(world, me) {
        return false;
      }
      Registering(world, children, kept, registered, Child(container, me));
      children := kept + [Child(container, me)];
      registered := registered + {Child(container, me)};
      ok := true;
    }

    /** The recorded processes that still run, looked up one by one. */
    method StillRecorded() returns (kept: seq<Child>)
      requires Valid()
      modifies `world, `entry, `nextId, `turns
      ensures Valid() && Evolved(old(world), world)
      ensures old(turns) == [] ==> turns == [] && world == old(world) && entry == old(entry)
      ensures forall child <- kept :: child in children
      ensures forall child <- children :: Running(world, child.identity) ==> child in kept
    {
      kept := [];
      var i := 0;
      while i < |children|
        invariant 0 <= i <= |children| && Valid() && Evolved(old(world), world)
        invariant old(turns) == [] ==> turns == [] && world == old(world) && entry == old(entry)
        invariant forall child <- kept :: child in children
        invariant forall child <- children[..i] :: Running(world, child.identity) ==> child in kept
      {
        ghost var was := world;
        NextTurn();
        EvolvedOn(old(world), was, world);
        if Evolves(was, world) {
          StaysExited(was, world);
        }
        assert children[i] in children;
        if Identity(world, children[i].identity.pid) == Some(children[i].identity) {
          kept := kept + [children[i]];
        }
        assert children[..i + 1] == children[..i] + [children[i]];
        i := i + 1;
      }
      assert children[..|children|] == children;
    }

    /** `remove_processes`: signals processes registered for this container only, and every one of them that still runs; when it returns normally all of them have exited. */
    method RemoveProcesses(container: Id) returns (ok: bool)
      requires Valid() && container < nextId
      modifies `world, `entry, `nextId, `turns, `children, `removed, `signalled, `removedOnce, `gone, `reopened
      ensures Valid() && nextId >= old(nextId)
      ensures forall i :: i in signalled && i !in old(signalled) ==> Child(container, i) in registered
      ensures forall child <- registered :: child.container == container && Running(world, child.identity) ==> child.identity in signalled
      ensures ok ==> forall child :: child in children <==> child in old(children) && child.container != container
      ensures ok ==> removed == Some(container) && removedOnce == old(removedOnce) + {container} && IsClosed(container)
      ensures ok ==> forall a <- old(gone) :: IsClosed(a) <==> a == container || entry != Some(a)
      ensures ok ==> container in gone && forall a <- old(gone) :: a in gone <==> IsClosed(a)
      ensures ok ==> reopened == old(reopened) + set a | a in old(gone) && !IsClosed(a)
      ensures !ok ==> removedOnce == old(removedOnce) && gone == old(gone) && reopened == old(reopened)
                      && removed == old(removed) && children == old(children)
      ensures (forall child <- old(children) :: child.container == container ==> !Running(old(world), child.identity)) ==> ok
      ensures old(Undisturbed()) ==> Undisturbed() && world == old(world) && entry == old(entry)
    {
      hide Running, Evolves, Accounted, Closed, WorldOk, IsClosed;
      var descriptors := PinAll(container);
      ghost var pinned := world;
      RecordedAll();
      SignalAll(container, descriptors);
      ghost var told := world;
      ok := AwaitExits(container, descriptors);
      forall child <- registered | child.container == container && Running(world, child.identity)
        ensures child.identity in signalled
      {
        if !Running(pinned, child.identity) {
          AlreadyExited(pinned, world, child.identity);
        }
      }
      if !ok {
        return;
      }
      Conclude(container);
    }

    /** What the record holds once a container's processes have exited. */
    method Conclude(container: Id)
      requires Valid() && container < nextId
      requires forall child <- registered :: child.container == container ==> !Running(world, child.identity)
      modifies `children, `removed, `removedOnce, `gone, `reopened
      ensures Valid()
      ensures forall child :: child in children <==> child in old(children) && child.container != container
      ensures removed == Some(container) && removedOnce == old(removedOnce) + {container} && IsClosed(container)
      ensures forall a <- old(gone) :: IsClosed(a) <==> a == container || entry != Some(a)
      ensures container in gone && forall a <- old(gone) :: a in gone <==> IsClosed(a)
      ensures reopened == old(reopened) + set a | a in old(gone) && !IsClosed(a)
    {
      hide Running, Accounted, Closed, WorldOk;
      AllClosed();
      StillAccounted(world, children, registered, container);
      StillGone(world, entry, removed, registered, gone, container);
      removed := Some(container);
      removedOnce := removedOnce + {container};
      reopened := reopened + set a | a in gone && a != container && entry == Some(a);
      gone := (set a | a in gone && entry != Some(a)) + {container};
      children := Others(children, container);
    }

    /** Opens a descriptor and then looks whether the id still is that process: a descriptor that is kept pins exactly the recorded process, and one that is not belongs to a process that has exited. */
    method Pin(child: Child) returns (descriptor: Option<Instance>)
      requires Valid() && child in registered
      modifies `world, `entry, `nextId, `turns
      ensures Valid() && nextId >= old(nextId) && (entry == old(entry) || entry.None? || entry.value >= old(nextId))
      ensures Evolved(old(world), world)
      ensures descriptor.Some? ==> Running(old(world), child.identity)
      ensures old(Undisturbed()) ==> Undisturbed() && world == old(world) && entry == old(entry)
      ensures if descriptor.Some? then descriptor.value == child.identity else !Running(world, child.identity)
    {
      NextTurn();
      EvolvedOn(old(world), old(world), world);
      ghost var atOpen := world;
      if child.identity.pid !in world.table {
        return None;
      }
      var holder := world.table[child.identity.pid];
      NextTurn();
      EvolvedOn(old(world), atOpen, world);
      if Identity(world, child.identity.pid) != Some(child.identity) {
        return None;
      }
      descriptor := Some(holder);
    }

    /** Pins every recorded process of the container. */
    method PinAll(container: Id) returns (descriptors: seq<Instance>)
      requires Valid()
      modifies `world, `entry, `nextId, `turns
      ensures Valid() && nextId >= old(nextId) && (entry == old(entry) || entry.None? || entry.value >= old(nextId))
      ensures forall i <- descriptors :: Child(container, i) in registered
      ensures forall child <- registered :: child.container == container && Running(world, child.identity) ==> child.identity in descriptors
      ensures (forall child <- children :: child.container == container ==> !Running(old(world), child.identity)) ==> descriptors == []
      ensures Evolved(old(world), world)
      ensures old(Undisturbed()) ==> Undisturbed() && world == old(world) && entry == old(entry)
    {
      hide Running, Evolves, Accounted, Closed;
      descriptors := [];
      ghost var start := world;
      RecordedAll();
      var k := 0;
      while k < |children|
        invariant 0 <= k <= |children| && Valid() && Evolved(old(world), world)
        invariant nextId >= old(nextId) && (entry == old(entry) || entry.None? || entry.value >= old(nextId))
        invariant old(Undisturbed()) ==> Undisturbed() && world == old(world) && entry == old(entry)
        invariant (forall child <- children :: child.container == container ==> !Running(old(world), child.identity)) ==> descriptors == []
        invariant forall i <- descriptors :: Child(container, i) in registered
        invariant forall child <- children[..k] :: child.container == container && Running(world, child.identity) ==> child.identity in descriptors
      {
        var child := children[k];
        assert child in children;
        assert children[..k + 1] == children[..k] + [child];
        if child.container == container {
          ghost var was := world;
          var pinned := Pin(child);
          if !Running(start, child.identity) {
            AlreadyExited(start, was, child.identity);
          }
          assert forall other <- children[..k] :: other in children && other.identity.start < was.born;
          if pinned.Some? {
            descriptors := descriptors + [pinned.value];
          }
        }
        k := k + 1;
      }
      RecordedAll();
      assert children[..|children|] == children;
    }

    lemma RecordedAll()
      requires Valid()
      ensures forall child <- children :: child in registered
      ensures forall child <- registered :: child.identity.start < world.born
      ensures forall child <- registered :: Running(world, child.identity) ==> child in children
    {
    }

    method SignalAll(container: Id, descriptors: seq<Instance>)
      requires Valid() && forall i <- descriptors :: Child(container, i) in registered
      modifies `world, `entry, `nextId, `turns, `signalled
      ensures Valid() && nextId >= old(nextId) && (entry == old(entry) || entry.None? || entry.value >= old(nextId))
      ensures Evolved(old(world), world)
      ensures forall i :: i in signalled && i !in old(signalled) ==> Child(container, i) in registered
      ensures forall i <- old(signalled) :: i in signalled
      ensures forall i <- descriptors :: i in signalled
      ensures old(Undisturbed()) ==> Undisturbed() && world == old(world) && entry == old(entry)
    {
      var k := 0;
      while k < |descriptors|
        invariant 0 <= k <= |descriptors| && Valid() && Evolved(old(world), world)
        invariant nextId >= old(nextId) && (entry == old(entry) || entry.None? || entry.value >= old(nextId))
        invariant forall i :: i in signalled && i !in old(signalled) ==> Child(container, i) in registered
        invariant forall i <- old(signalled) :: i in signalled
        invariant forall i <- descriptors[..k] :: i in signalled
        invariant old(Undisturbed()) ==> Undisturbed() && world == old(world) && entry == old(entry)
      {
        ghost var was := world;
        NextTurn();
        EvolvedOn(old(world), was, world);
        assert descriptors[..k + 1] == descriptors[..k] + [descriptors[k]];
        assert descriptors[k] in descriptors;
        signalled := signalled + {descriptors[k]};
        k := k + 1;
      }
      assert descriptors[..|descriptors|] == descriptors;
    }

    /** Waits until every pinned process has exited; a wait that ends with none of them exited is a timeout. */
    method AwaitExits(container: Id, descriptors0: seq<Instance>) returns (ok: bool)
      requires Valid()
      requires forall child <- registered :: child.container == container && Running(world, child.identity) ==> child.identity in descriptors0
      modifies `world, `entry, `nextId, `turns
      ensures Valid() && nextId >= old(nextId) && (entry == old(entry) || entry.None? || entry.value >= old(nextId))
      ensures Evolved(old(world), world)
      ensures descriptors0 == [] ==> ok
      ensures old(Undisturbed()) ==> Undisturbed() && world == old(world) && entry == old(entry)
      ensures ok ==> forall child <- registered :: child.container == container ==> !Running(world, child.identity)
    {
      var descriptors := descriptors0;
      while descriptors != []
        invariant Valid() && Evolved(old(world), world)
        invariant descriptors0 == [] ==> descriptors == []
        invariant old(Undisturbed()) ==> Undisturbed() && world == old(world) && entry == old(entry)
        invariant nextId >= old(nextId) && (entry == old(entry) || entry.None? || entry.value >= old(nextId))
        invariant forall child <- registered :: child.container == container && Running(world, child.identity) ==> child.identity in descriptors
        decreases |descriptors|
      {
        ghost var was := world;
        NextTurn();
        EvolvedOn(old(world), was, world);
        if Evolves(was, world) {
          StaysExited(was, world);
        }
        var waiting := StillRunningOf(world, descriptors);
        if |waiting| == |descriptors| {
          return false;
        }
        descriptors := waiting;
      }
      ok := true;
    }

    // ----- Any interleaving -----

    /** Whatever runs, in any order, while ids are reused, and whichever containers are removed: only registered processes are signalled; and a container that was closed has no running process, and none was registered for it, unless the removal of another one reopened it. */
    method Serve(calls: seq<Call>)
      requires Valid()
      modifies this
      ensures Valid()
      ensures forall i :: i in signalled && i !in old(signalled) ==> exists c: Id :: Child(c, i) in registered
      ensures forall a <- gone :: IsClosed(a)
      ensures forall a <- old(gone) :: a !in reopened ==>
                IsClosed(a) && forall child :: child in registered && child.container == a ==> child in old(registered)
    {
      hide Accounted, Closed, Running, WorldOk, Evolves, IsClosed;
      reopened := removedOnce - gone;
      for k := 0 to |calls|
        invariant Valid()
        invariant forall i :: i in signalled && i !in old(signalled) ==> exists c: Id :: Child(c, i) in registered
        invariant forall a <- old(gone) :: a !in reopened ==> a in gone && forall child :: child in registered && child.container == a ==> child in old(registered)
      {
        match calls[k]
        case Exec(container, me) =>
          if RunningNow(world, me) {
            var _ := Execute(container, me);
          }
        case Remove(container) =>
          if container < nextId {
            var _ := RemoveProcesses(container);
          }
        case Wait =>
          NextTurn();
      }
      AllClosed();
    }

    lemma AllClosed()
      requires Valid()
      ensures forall a <- gone :: IsClosed(a)
    {
    }
  }

  /** Two containers are launched one after the other. */
  method TwoLaunched(world: World) returns (r: Registry)
    requires WorldOk(world)
    ensures fresh(r) && r.Valid() && r.Undisturbed() && r.world == world
    ensures r.entry == Some(1) && r.nextId == 2 && r.children == [] && r.removed == None && r.gone == {} && r.registered == {}
  {
    hide WorldOk, Accounted, Closed;
    r := new Registry(world, [Turn(world, Launched), Turn(world, Deleted), Turn(world, Launched)]);
    for k := 0 to 3
      invariant fresh(r) && r.Valid() && r.world == world && r.children == [] && r.removed == None && r.gone == {} && r.registered == {}
      invariant r.turns == [Turn(world, Launched), Turn(world, Deleted), Turn(world, Launched)][k..]
      invariant r.entry == (if k == 1 then Some(0) else if k == 3 then Some(1) else None) && r.nextId == (k + 1) / 2
    {
      r.NextTurn();
    }
  }

  /** The second of them is removed. A removal of the first that comes late, because it had read the id before, reopens it: a process is registered for it. */
  method LateRemovalReopens(world: World, me: Instance) returns (r: Registry)
    requires WorldOk(world) && Running(world, me)
    ensures fresh(r) && r.Valid() && r.entry == Some(1) && 1 in r.removedOnce && Child(1, me) in r.registered && Running(r.world, me)
    ensures 1 in r.reopened && !r.IsClosed(1)
  {
    hide WorldOk, Accounted, Closed, Running;
    r := TwoLaunched(world);
    var first := r.RemoveProcesses(1);
    assert first && 1 in r.gone;
    var late := r.RemoveProcesses(0);
    assert late && !r.IsClosed(1) && 1 in r.reopened;
    var registered := r.Execute(1, me);
    assert registered;
  }

  lemma StillAll(before: World, after: World, children: seq<Child>, kept: seq<Child>, registered: set<Child>)
    requires Evolves(before, after) || after == before
    requires Accounted(before, children, registered)
    requires forall child <- children :: Running(before, child.identity) ==> child in kept
    ensures forall child <- children :: Running(after, child.identity) ==> child in kept
  {
    if Evolves(before, after) {
      StaysExited(before, after);
    }
  }

  /** Registering one more process keeps every running one on record. */
  lemma Registering(w: World, children: seq<Child>, kept: seq<Child>, registered: set<Child>, me: Child)
    requires WorldOk(w) && Accounted(w, children, registered) && Running(w, me.identity)
    requires forall child <- kept :: child in children
    requires forall child <- children :: Running(w, child.identity) ==> child in kept
    ensures Accounted(w, kept + [me], registered + {me})
  {
    assert w.table[me.identity.pid].start < w.born;
  }

  datatype Call = Exec(container: Id, me: Instance) | Remove(container: Id) | Wait

  predicate RunningNow(w: World, i: Instance)
    ensures RunningNow(w, i) == Running(w, i)
  {
    Running(w, i)
  }

  lemma StillAccounted(w: World, children: seq<Child>, registered: set<Child>, container: Id)
    requires Accounted(w, children, registered)
    requires forall child <- registered :: child.container == container ==> !Running(w, child.identity)
    ensures Accounted(w, Others(children, container), registered)
  {
  }

  /** Which closed containers stay closed when another one is recorded as the last that was removed. */
  lemma StillGone(w: World, entry: Option<Id>, removed: Option<Id>, registered: set<Child>, gone: set<Id>, container: Id)
    requires Closed(w, entry, removed, registered, gone)
    requires forall child <- registered :: child.container == container ==> !Running(w, child.identity)
    ensures Closed(w, entry, Some(container), registered, (set a | a in gone && entry != Some(a)) + {container})
  {
  }

  /** Nothing that had exited runs again. */
  ghost predicate Evolved(before: World, after: World) {
    before.born <= after.born && forall i: Instance :: i.start < before.born && !Running(before, i) ==> !Running(after, i)
  }

  lemma AlreadyExited(first: World, after: World, i: Instance)
    requires Evolved(first, after) && i.start < first.born && !Running(first, i)
    ensures !Running(after, i)
  {
  }

  lemma EvolvedOn(first: World, before: World, after: World)
    requires Evolved(first, before) && (Evolves(before, after) || after == before)
    ensures Evolved(first, after)
  {
    if Evolves(before, after) {
      StaysExited(before, after);
    }
  }

  function Others(children: seq<Child>, container: Id): (r: seq<Child>)
    ensures forall child :: child in r <==> child in children && child.container != container
  {
    if children == [] then []
    else (if children[0].container == container then [] else [children[0]]) + Others(children[1..], container)
  }

  function StillRunningOf(w: World, descriptors: seq<Instance>): (r: seq<Instance>)
    ensures forall i :: i in r <==> i in descriptors && Running(w, i)
    ensures |r| <= |descriptors|
  {
    if descriptors == [] then []
    else (if Running(w, descriptors[0]) then [descriptors[0]] else []) + StillRunningOf(w, descriptors[1..])
  }
}
