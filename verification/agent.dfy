/** The agent supervisor: sessions, their children, and the handoff of model policies, one segment between two awaits at a time. */
module AgentSupervision {
  import opened Wrappers

  /** (task id, session name) */
  type Key = nat
  type ChildId = nat
  type OpId = nat
  /** A native session, as omp names it. */
  type Session = nat

  datatype Policy = Policy(active: string, auxiliary: string)

  /** One child process and its handle. `resumed` is the native session it was told to resume, if any; `flags` are the auxiliary roles it was started with, which nothing can change later; `verified` is the policy omp last confirmed and nothing has disturbed since. */
  datatype Child = Child(key: Key, native: Session, resumed: Option<Session>, flags: string, policy: Option<Policy>, verified: Option<Policy>, retiring: bool, exited: bool)

  datatype Request =
    | Acquire
    | Apply(policy: Policy, resume: Option<Session>)
    | Start(policy: Policy, resume: Option<Session>)

  /** Where an operation is suspended. */
  datatype Pc =
    | Queued
    | Spawning(resume: Option<Session>, expected: Option<Session>)
    | Configuring(child: ChildId, expected: Option<Session>)
    | Identifying(child: ChildId, expected: Option<Session>)
    | Killing
    | Boundary(handle: ChildId)
    | Applying(handle: ChildId)
    | Terminating(handle: ChildId)
    | ReadingId(handle: ChildId)
    | BoundaryToReplace(handle: ChildId, id: Session)
    | Replacing(handle: ChildId, id: Session)

  /** A registered handle as somebody saw it. */
  datatype Seen = Seen(child: ChildId, policy: Option<Policy>, verified: Option<Policy>)

  /** An operation; `before` is the registered handle it found when it took the session's boundary, `replacing` the child it retired to start another. */
  datatype Op = Op(key: Key, request: Request, pc: Pc, before: Option<Seen>, replacing: Option<ChildId>)

  /** How an operation ended, with what was so at that moment. */
  datatype Outcome =
    | Returned(key: Key, child: ChildId, state: Child, committed: Option<Policy>, request: Request, before: Option<Seen>, replaced: Option<Child>)
    | NoHandle(key: Key, found: Option<Child>)
    | Raised(key: Key, before: Option<Seen>, after: Option<Seen>)

  /** The supervisor's fields, the durable policies, and the suspended operations. `watchers` are the exit watchers that have not run to their end. */
  datatype State = State(
    handles: map<Key, ChildId>,
    children: map<ChildId, Child>,
    boundary: map<Key, OpId>,
    ops: map<OpId, Op>,
    committed: map<Key, Policy>,
    watchers: set<ChildId>,
    published: seq<ChildId>,
    shuttingDown: bool)

  // ----- The invariant -----

  /** Child `c` belongs to session `k` and runs on the policy recorded last. */
  predicate OnPolicy(s: State, k: Key, c: ChildId) {
    && c in s.children && s.children[c].key == k && !s.children[c].retiring
    && k in s.committed && s.children[c].policy == Some(s.committed[k]) && s.children[c].flags == s.committed[k].auxiliary
  }

  predicate Verified(s: State, c: ChildId) {
    c in s.children && s.children[c].verified == s.children[c].policy
  }

  /** If the session has a handle it is `c`, and somebody watches it. */
  predicate OnlyHandle(s: State, k: Key, c: ChildId) {
    k in s.handles ==> s.handles[k] == c && c in s.watchers
  }

  /** A child being started, that nobody else knows. */
  predicate Unknown(s: State, k: Key, op: Op, c: ChildId) {
    && !op.request.Acquire? && c in s.children && s.children[c].flags == op.request.policy.auxiliary
    && k !in s.handles && c in s.children && s.children[c].key == k && !s.children[c].retiring
    && c !in s.watchers && c !in s.published
  }

  /** The policy asked for differs from the child's in the active pair at most. */
  predicate SameFlags(s: State, op: Op, h: ChildId) {
    op.request.Apply? && h in s.children && s.children[h].flags == op.request.policy.auxiliary
  }

  /** The child has other auxiliary roles than the ones asked for. */
  predicate OtherFlags(s: State, op: Op, h: ChildId) {
    op.request.Apply? && h in s.children && s.children[h].flags != op.request.policy.auxiliary
  }

  predicate Unchanged(s: State, op: Op, c: ChildId) {
    c in s.children && op.before == Some(Seen(c, s.children[c].policy, s.children[c].policy))
  }

  /** A child that is told to resume `resumed`: a replacement, which must prove that it is the native session of the child it replaces, whose auxiliary roles are not the ones asked for; or one for a session that had no handle, told what the caller asked for. */
  predicate Continues(s: State, op: Op, expected: Option<Session>, resumed: Option<Session>) {
    && !op.request.Acquire?
    && if op.replacing.Some? then
         && op.before.Some? && ToBeReplaced(s, op, op.replacing.value)
         && expected == Some(s.children[op.replacing.value].native) && resumed == expected
       else op.before.None? && resumed == op.request.resume
  }

  predicate ToBeReplaced(s: State, op: Op, h: ChildId) {
    && !op.request.Acquire? && h in s.children && s.children[h].retiring
    && s.children[h].key == op.key && s.children[h].flags != op.request.policy.auxiliary
  }

  /** What holds while `op` is suspended inside the boundary of session `k`. */
  predicate PcInv(s: State, k: Key, op: Op) {
    match op.pc
    case Queued => false
    case Spawning(resume, expected) => k !in s.handles && Continues(s, op, expected, resume)
    case Configuring(c, expected) => Unknown(s, k, op, c) && Continues(s, op, expected, s.children[c].resumed)
    case Identifying(c, expected) =>
      && Unknown(s, k, op, c) && Continues(s, op, expected, s.children[c].resumed)
      && s.children[c].verified == Some(op.request.policy)
    case Killing => k !in s.handles
    case Boundary(h) =>
      && OnPolicy(s, k, h) && Verified(s, h) && OnlyHandle(s, k, h) && Unchanged(s, op, h) && op.replacing.None? && SameFlags(s, op, h)
    case Applying(h) => OnPolicy(s, k, h) && OnlyHandle(s, k, h) && Unchanged(s, op, h) && op.replacing.None? && SameFlags(s, op, h)
    case Terminating(_) => k !in s.handles
    case ReadingId(h) =>
      && OnPolicy(s, k, h) && Verified(s, h) && OnlyHandle(s, k, h) && Unchanged(s, op, h) && OtherFlags(s, op, h)
    case BoundaryToReplace(h, id) =>
      && OnPolicy(s, k, h) && Verified(s, h) && OnlyHandle(s, k, h) && Unchanged(s, op, h) && OtherFlags(s, op, h)
      && s.children[h].native == id
    case Replacing(h, id) =>
      && k !in s.handles && op.request.Apply? && op.replacing == Some(h) && op.before.Some? && op.key == k
      && ToBeReplaced(s, op, h) && s.children[h].native == id
  }

  /** A session nobody works on has no handle, or one that is verified on the policy recorded last. */
  predicate Settled(s: State, k: Key) {
    k in s.handles ==> OnPolicy(s, k, s.handles[k]) && Verified(s, s.handles[k]) && s.handles[k] in s.watchers
  }

  predicate KeyInv(s: State, k: Key) {
    if k in s.boundary
    then s.boundary[k] in s.ops && s.ops[s.boundary[k]].key == k && PcInv(s, k, s.ops[s.boundary[k]])
    else Settled(s, k)
  }

  ghost predicate Distinct(p: seq<ChildId>) {
    forall i: nat, j: nat :: i < j < |p| ==> p[i] != p[j]
  }

  ghost predicate GlobalInv(s: State) {
    && (forall o :: o in s.ops && s.ops[o].pc != Queued ==> s.ops[o].key in s.boundary && s.boundary[s.ops[o].key] == o)
    && (forall o :: o in s.ops && s.ops[o].pc == Queued ==> s.ops[o].before.None? && s.ops[o].replacing.None?)
    && (forall c :: c in s.watchers ==> c in s.children)
    && (forall c :: c in s.published ==> c in s.children && c !in s.watchers)
    && Distinct(s.published)
  }

  ghost predicate Inv(s: State) {
    GlobalInv(s) && forall k: Key {:trigger KeyInv(s, k)} :: KeyInv(s, k)
  }

  // ----- One session at a time -----

  /** Nothing about a session other than `k` differs. */
  ghost predicate SameElsewhere(s: State, t: State, k: Key) {
    && (forall j: Key :: j != k ==> (j in s.handles <==> j in t.handles) && (j in s.handles ==> s.handles[j] == t.handles[j]))
    && (forall j: Key :: j != k ==> (j in s.boundary <==> j in t.boundary) && (j in s.boundary ==> s.boundary[j] == t.boundary[j]))
    && (forall j: Key :: j != k ==> (j in s.committed <==> j in t.committed) && (j in s.committed ==> s.committed[j] == t.committed[j]))
    && (forall o :: o in s.ops && s.ops[o].key != k ==> o in t.ops && t.ops[o] == s.ops[o])
    && (forall c :: c in s.children && s.children[c].key != k ==>
          && c in t.children && t.children[c] == s.children[c]
          && (c in s.watchers <==> c in t.watchers) && (c in t.published ==> c in s.published))
  }

  lemma OtherKeys(s: State, t: State, k: Key)
    requires Inv(s) && SameElsewhere(s, t, k)
    ensures forall j: Key {:trigger KeyInv(t, j)} :: j != k ==> KeyInv(t, j)
  {
    forall j: Key | j != k
      ensures KeyInv(t, j)
    {
      assert KeyInv(s, j);
      OtherKey(s, t, k, j);
    }
  }

  lemma OtherKey(s: State, t: State, k: Key, j: Key)
    requires KeyInv(s, j) && GlobalInv(s) && SameElsewhere(s, t, k) && j != k
    ensures KeyInv(t, j)
  {
    if j in s.boundary {
      var op := s.ops[s.boundary[j]];
      assert t.ops[t.boundary[j]] == op;
      match op.pc
      case Queued =>
      case _ => assert PcInv(t, j, op);
    }
  }

  // ----- What an operation may end with -----

  /** A returned handle is the session's, is not being retired, was verified on its recorded policy, was started with that policy's auxiliary roles, and that policy is the one committed last; a session was answered to have no handle if it had none or its child had exited; a failed operation leaves no handle, or the one it found, untouched. */
  predicate Fine(o: Outcome) {
    match o
    case Returned(key, child, state, committed, request, before, replaced) =>
      && state.key == key && !state.retiring && state.policy.Some? && state.verified == state.policy && committed == state.policy
      && state.flags == state.policy.value.auxiliary && AsAsked(child, state, request, before, replaced)
    case NoHandle(_, found) => found.Some? ==> found.value.exited
    case Raised(_, before, after) => after == None || after == before
  }

  /** `acquire` returns a child that has not exited. A policy that was asked for is the child's; and a session that had no handle has a new child that was told to resume what the caller asked for, one that had a handle keeps its child, or has it replaced by one that was told to resume its native session, and is that session. It is replaced only if it was started with other auxiliary roles. */
  predicate AsAsked(child: ChildId, state: Child, request: Request, before: Option<Seen>, replaced: Option<Child>) {
    if request.Acquire? then !state.exited && replaced.None?
    else
      && state.policy == Some(request.policy)
      && if before.None? then replaced.None? && state.resumed == request.resume
         else if replaced.None? then before.value.child == child
         else
           && replaced.value.retiring && replaced.value.native == state.native && replaced.value.key == state.key
           && state.resumed == Some(replaced.value.native) && replaced.value.flags != state.flags
  }

  function LookAt(s: State, k: Key): Option<Seen> {
    if k in s.handles && s.handles[k] in s.children
    then Some(Seen(s.handles[k], s.children[s.handles[k]].policy, s.children[s.handles[k]].verified))
    else None
  }

  // ----- The supervisor -----

  /** What happens next: a caller arrives, an operation that can run does so with the answer it was waiting for, a child dies, its watcher runs, or a call that needs no boundary is made. */
  datatype Event =
    | Arrives(id: OpId, key: Key, request: Request)
    | Enters(id: OpId)
    | Proceeds(id: OpId, reply: Reply)
    | ChildExits(child: ChildId)
    | WatcherRuns(child: ChildId)
    | Stops(key: Key)
    | ShutsDown

  /** A watcher has run to its end: what was so of its child at that moment. */
  datatype Departure = Departure(child: ChildId, retiring: bool, shuttingDown: bool)

  /** The exits that are nobody's doing. */
  function Crashes(departures: seq<Departure>): seq<ChildId> {
    if departures == [] then []
    else Crashes(departures[..|departures| - 1]) + Published(departures[|departures| - 1])
  }

  /** The end of `c` is among those after the first `since`. */
  ghost predicate Departed(departures: seq<Departure>, since: nat, c: ChildId) {
    exists i :: since <= i < |departures| && departures[i].child == c
  }

  lemma DepartedNext(departures: seq<Departure>, d: Departure, since: nat)
    requires since <= |departures|
    ensures Departed(departures + [d], since, d.child)
    ensures forall c :: Departed(departures, since, c) ==> Departed(departures + [d], since, c)
  {
    assert (departures + [d])[|departures|] == d;
    forall c | Departed(departures, since, c)
      ensures Departed(departures + [d], since, c)
    {
      var i :| since <= i < |departures| && departures[i].child == c;
      assert (departures + [d])[i].child == c;
    }
  }

  lemma CrashesNext(departures: seq<Departure>, d: Departure)
    ensures Crashes(departures + [d]) == Crashes(departures) + Published(d)
  {
    assert (departures + [d])[..|departures + [d]| - 1] == departures;
  }

  function Published(d: Departure): seq<ChildId> {
    if d.retiring || d.shuttingDown then [] else [d.child]
  }

  /** Children are never forgotten, and what is final about one stays. */
  ghost predicate Persist(before: map<ChildId, Child>, after: map<ChildId, Child>) {
    forall c :: c in before ==>
      && c in after && after[c].key == before[c].key && after[c].native == before[c].native && after[c].resumed == before[c].resumed && after[c].flags == before[c].flags
      && (before[c].retiring ==> after[c].retiring) && (before[c].exited ==> after[c].exited)
  }

  /** The answer to an await, and whether the commit that follows it succeeds. */
  datatype Reply = Failed | Answered(child: ChildId, native: Session, commits: bool)

  class AgentSupervisor {
    var handles: map<Key, ChildId>
    var children: map<ChildId, Child>
    var boundary: map<Key, OpId>
    var ops: map<OpId, Op>
    var committed: map<Key, Policy>
    var watchers: set<ChildId>
    var published: seq<ChildId>
    var shuttingDown: bool
    /** How every finished operation ended, oldest first. */
    ghost var log: seq<Outcome>
    /** Every watcher that has run to its end, oldest first. */
    ghost var departures: seq<Departure>

    constructor (committed: map<Key, Policy>)
      ensures Valid() && Accounted() && handles == map[] && log == [] && departures == []
    {
      handles, children, boundary, ops := map[], map[], map[], map[];
      this.committed := committed;
      watchers, published, shuttingDown, log, departures := {}, [], false, [], [];
    }

    ghost function Now(): State
      reads this
    {
      State(handles, children, boundary, ops, committed, watchers, published, shuttingDown)
    }

    ghost predicate Valid()
      reads this
    {
      Inv(Now()) && forall o <- log :: Fine(o)
    }

    /** The exits published are those of the children that were not being retired when their watchers ran, while the daemon was not shutting down; in that order, and no others. */
    ghost predicate Accounted()
      reads this
    {
      published == Crashes(departures)
    }

    /** Operation `o` is the one inside the boundary of its session. */
    ghost predicate Holds(o: OpId)
      reads this
    {
      o in ops && ops[o].key in boundary && boundary[ops[o].key] == o && ops[o].pc != Queued
    }

    // ----- Ends of operations -----

    /** The operation raises and leaves the boundary. */
    method Raise(o: OpId)
      requires Valid() && Holds(o)
      requires LookAt(Now(), ops[o].key) in {None, ops[o].before}
      requires Settled(Now(), ops[o].key)
      modifies `boundary, `ops, `log
      ensures Valid() && ops == old(ops) - {o} && boundary == old(boundary) - {old(ops)[o].key}
      ensures log == old(log) + [Raised(old(ops)[o].key, old(ops)[o].before, LookAt(Now(), old(ops)[o].key))]
    {
      ghost var s, k := Now(), ops[o].key;
      log := log + [Raised(k, ops[o].before, LookAt(s, k))];
      boundary := boundary - {ops[o].key};
      ops := ops - {o};
      Left(s, Now(), k, o);
    }

    /** Where operation `o` is suspended next. */
    method Suspend(o: OpId, pc: Pc)
      requires o in ops
      modifies `ops
      ensures ops == old(ops)[o := old(ops)[o].(pc := pc)]
    {
      ops := ops[o := ops[o].(pc := pc)];
    }

    // ----- Segments -----

    /** A caller reaches the session's boundary and waits for it. */
    method Arrive(o: OpId, key: Key, request: Request)
      requires Valid() && o !in ops
      modifies `ops
      ensures Valid() && ops == old(ops)[o := Op(key, request, Queued, None, None)]
    {
      ghost var s := Now();
      ops := ops[o := Op(key, request, Queued, None, None)];
      QueuedKeeps(s, Now(), o);
    }

    /** A waiting operation gets the boundary and runs to its first await. */
    method Enter(o: OpId)
      requires Valid() && o in ops && ops[o].pc == Queued && ops[o].key !in boundary
      modifies `ops, `boundary, `log
      ensures Valid()
      ensures old(ops)[o].key in handles ==> handles[old(ops)[o].key] in children
      ensures old(ops)[o].request.Acquire? ==>
                && Now() == old(Now()).(ops := old(ops) - {o}) && |log| == |old(log)| + 1 && log[..|old(log)|] == old(log)
                && var k := old(ops)[o].key;
                   if k in handles && !children[handles[k]].exited
                   then log[|old(log)|].Returned? && log[|old(log)|].key == k && log[|old(log)|].child == handles[k]
                        && log[|old(log)|].state == children[handles[k]] && log[|old(log)|].request == Acquire
                   else log[|old(log)|] == NoHandle(k, if k in handles then Some(children[handles[k]]) else None)
      ensures old(ops)[o].key in handles && handles[old(ops)[o].key] in children
              && (old(ops)[o].request.Start? || (old(ops)[o].request.Apply? && children[handles[old(ops)[o].key]].exited)) ==>
                o !in ops && log == old(log) + [Raised(old(ops)[o].key, LookAt(Now(), old(ops)[o].key), LookAt(Now(), old(ops)[o].key))]
      ensures Live(old(Now()), old(ops)[o].key) && old(ops)[o].request.Apply? ==>
                var h := handles[old(ops)[o].key];
                Now() == Begun(old(Now()), o, if children[h].flags == old(ops)[o].request.policy.auxiliary then Boundary(h) else ReadingId(h)) && log == old(log)
      ensures old(ops)[o].key !in handles && !old(ops)[o].request.Acquire? ==>
                Now() == Begun(old(Now()), o, Spawning(old(ops)[o].request.resume, None)) && log == old(log)
    {
      hide Inv, PcInv, KeyInv, Settled;
      ghost var s := Now();
      var op := ops[o];
      var k := op.key;
      SettledHandle(s, k);
      var live := k in handles && !children[handles[k]].exited;
      if op.request.Acquire? {
        log := log + [if live then Returned(k, handles[k], children[handles[k]], Some(committed[k]), op.request, LookAt(s, k), None)
                      else NoHandle(k, if k in handles then Some(children[handles[k]]) else None)];
        ops := ops - {o};
        LeftAtOnce(s, Now(), k, o);
      } else if live && op.request.Apply? {
        var h := handles[k];
        var inPlace := children[h].policy.Some? && children[h].policy.value.auxiliary == op.request.policy.auxiliary;
        op := op.(before := Some(Seen(h, children[h].policy, children[h].verified)), pc := if inPlace then Boundary(h) else ReadingId(h));
        ops, boundary := ops[o := op], boundary[k := o];
        TakenByApply(s, k, o, op);
      } else if k in handles {
        log := log + [Raised(k, LookAt(s, k), LookAt(s, k))];
        ops := ops - {o};
        LeftAtOnce(s, Now(), k, o);
      } else {
        op := op.(pc := Spawning(op.request.resume, None));
        ops, boundary := ops[o := op], boundary[k := o];
        TakenByStart(s, k, o, op);
      }
    }

    /** `_start_locked` after the process was asked for: it is ready, or it is not. */
    method Spawned(o: OpId, reply: Reply)
      requires Valid() && Holds(o) && ops[o].pc.Spawning?
      requires reply.Answered? ==> reply.child !in children
      modifies `ops, `boundary, `log, `children
      ensures Valid()
      ensures reply.Failed? ==> Now() == Ended(old(Now()), o) && log == old(log) + [RaisedNow(old(Now()), o)]
      ensures reply.Answered? ==>
                Now() == Spawn(old(Now()), o, reply.child, reply.native) && log == old(log)
      ensures o !in ops || ops[o].pc != old(ops)[o].pc
    {
      hide Inv, PcInv, KeyInv, Settled, Fine;
      ghost var s := Now();
      var k, expected := ops[o].key, ops[o].pc.expected;
      SpawningMeans(s, o);
      if reply.Failed? {
        Raise(o);
        return;
      }
      SpawnKeeps(s, o, reply.child, reply.native);
      children := children[reply.child := Child(k, reply.native, ops[o].pc.resume, ops[o].request.policy.auxiliary, None, None, false, false)];
      Suspend(o, Configuring(reply.child, expected));
    }

    /** The policy handshake of a new child. */
    method Configured(o: OpId, reply: Reply)
      requires Valid() && Holds(o) && ops[o].pc.Configuring?
      modifies `ops, `boundary, `log, `children, `committed, `handles, `watchers
      ensures Valid()
      ensures reply.Failed? ==> Now() == MovedTo(old(Now()), o, Killing) && log == old(log)
      ensures reply.Answered? && old(ops)[o].pc.expected.Some? ==> Now() == Confirmed(old(Now()), o) && log == old(log)
      ensures reply.Answered? && old(ops)[o].pc.expected.None? ==>
                Now() == StartOver(Confirmed(old(Now()), o), o, reply.commits) && |log| == |old(log)| + (if reply.commits then 1 else 0)
      ensures o !in ops || ops[o].pc != old(ops)[o].pc
    {
      hide Fine, Result, Started, Inv, PcInv, KeyInv, Settled;
      ghost var s := Now();
      var c, expected := ops[o].pc.child, ops[o].pc.expected;
      ConfirmedKeeps(s, o);
      if reply.Failed? {
        Suspend(o, Killing);
        return;
      }
      children := children[c := children[c].(verified := Some(ops[o].request.policy))];
      Suspend(o, Identifying(c, expected));
      if expected.None? {
        FinishStart(o, reply.commits);
      }
    }

    /** `_verify_resumed_identity`: a resumed child must be the same native session. */
    method Identified(o: OpId, reply: Reply)
      requires Valid() && Holds(o) && ops[o].pc.Identifying?
      modifies `ops, `boundary, `log, `children, `committed, `handles, `watchers
      ensures Valid()
      ensures var same := old(Continued(Now(), o));
              Now() == if reply.Answered? && same then StartOver(old(Now()), o, reply.commits) else MovedTo(old(Now()), o, Killing)
      ensures o !in ops || ops[o].pc != old(ops)[o].pc
    {
      ghost var s := Now();
      var k, c, expected := ops[o].key, ops[o].pc.child, ops[o].pc.expected;
      assert KeyInv(s, k);
      if reply.Failed? || (expected.Some? && children[c].native != expected.value) {
        Suspend(o, Killing);
        KeyStep(s, Now(), k, o);
        return;
      }
      FinishStart(o, reply.commits);
    }

    /** The end of `_start_locked`: the policy is committed, and then the child is registered and watched. */
    method FinishStart(o: OpId, commits: bool)
      requires Valid() && Holds(o) && ops[o].pc.Identifying? && ops[o].pc.child in children
      requires ops[o].pc.expected.Some? ==> children[ops[o].pc.child].native == ops[o].pc.expected.value
      modifies `ops, `boundary, `log, `children, `committed, `handles, `watchers
      ensures Valid() && Now() == StartOver(old(Now()), o, commits)
      ensures commits ==> Registered(old(Now()), Now(), old(ops)[o].key, old(ops)[o].pc.child)
      ensures log == if commits then old(log) + [Result(Started(old(Now()), o), o, old(ops)[o].pc.child)] else old(log)
    {
      hide Inv, PcInv, KeyInv, Settled;
      ghost var s := Now();
      StartEnds(s, o);
      StartUnrecorded(s, o);
      hide Fine, Result, GlobalInv;
      var k, c, policy := ops[o].key, ops[o].pc.child, ops[o].request.policy;
      children := children[c := children[c].(policy := Some(policy))];
      if !commits {
        Suspend(o, Killing);
        return;
      }
      Register(o, s);
    }

    /** The policy is committed, the child registered and watched, and the boundary left. */
    method Register(o: OpId, ghost s: State)
      requires o in s.ops && s.ops[o].pc.Identifying? && s.ops[o].pc.child in s.children && !s.ops[o].request.Acquire? && s.ops[o].key !in s.handles
      requires var c := s.ops[o].pc.child; Now() == s.(children := s.children[c := s.children[c].(policy := Some(s.ops[o].request.policy))])
      modifies `ops, `boundary, `log, `committed, `handles, `watchers
      ensures Now() == Ended(Started(s, o), o) && log == old(log) + [Result(Started(s, o), o, s.ops[o].pc.child)]
    {
      var k, c := ops[o].key, ops[o].pc.child;
      committed := committed[k := ops[o].request.policy];
      if k in handles {
        assert false;
      }
      handles := handles[k := c];
      watchers := watchers + {c};
      assert Now() == Started(s, o);
      log := log + [Result(Now(), o, c)];
      boundary := boundary - {k};
      ops := ops - {o};
    }

    /** A failed start has killed its child. */
    method Killed(o: OpId)
      requires Valid() && Holds(o) && ops[o].pc.Killing?
      modifies `ops, `boundary, `log
      ensures Valid() && Now() == Ended(old(Now()), o) && log == old(log) + [RaisedNow(old(Now()), o)]
    {
      assert KeyInv(Now(), ops[o].key);
      Raise(o);
    }

    /** `_await_turn_boundary` before a reconfiguration in place. */
    method BoundaryRead(o: OpId, reply: Reply)
      requires Valid() && Holds(o) && ops[o].pc.Boundary?
      modifies `ops, `boundary, `log, `children
      ensures Valid()
      ensures reply.Failed? ==> Now() == Ended(old(Now()), o) && log == old(log) + [RaisedNow(old(Now()), o)]
      ensures reply.Answered? ==>
                Now() == MovedTo(Unverified(old(Now()), old(ops)[o].pc.handle), o, Applying(old(ops)[o].pc.handle)) && log == old(log)
    {
      ghost var s := Now();
      var k, h := ops[o].key, ops[o].pc.handle;
      assert KeyInv(s, k);
      if reply.Failed? {
        Raise(o);
        return;
      }
      children := children[h := children[h].(verified := None)];
      Suspend(o, Applying(h));
      KeyStep(s, Now(), k, o);
    }

    /** `_reconfigure_in_place` after the handshake. */
    method Applied(o: OpId, reply: Reply)
      requires Valid() && Holds(o) && ops[o].pc.Applying?
      modifies `ops, `boundary, `log, `children, `committed, `handles
      ensures Valid()
      ensures old(ops)[o].pc.handle in old(children)
      ensures reply.Answered? && reply.commits ==>
                Now() == Ended(Reconfigured(old(Now()), o), o) && log == old(log) + [Result(Reconfigured(old(Now()), o), o, old(ops)[o].pc.handle)]
      ensures !(reply.Answered? && reply.commits) ==>
                Now() == MovedTo(Retired(if reply.Answered? then Misapplied(old(Now()), o) else old(Now()), old(ops)[o].key, old(ops)[o].pc.handle),
                                 o, Terminating(old(ops)[o].pc.handle)) && log == old(log)
    {
      hide Inv, PcInv, KeyInv, Settled;
      ghost var s := Now();
      ApplyEnds(s, o);
      ApplyRefused(s, o);
      ApplyUndone(s, o);
      hide Fine;
      var k, h, policy := ops[o].key, ops[o].pc.handle, ops[o].request.policy;
      if reply.Failed? {
        GiveUp(o, h);
        return;
      }
      var previous := children[h].policy;
      children := children[h := children[h].(verified := Some(policy), policy := Some(policy))];
      if !reply.commits {
        children := children[h := children[h].(policy := previous)];
        assert Now() == Misapplied(s, o);
        GiveUp(o, h);
        return;
      }
      committed := committed[k := policy];
      log := log + [Result(Now(), o, h)];
      boundary := boundary - {k};
      ops := ops - {o};
    }

    /** `_retire`, up to its await: the child is marked and unregistered. */
    method Retire(k: Key, h: ChildId)
      requires h in children
      modifies `children, `handles
      ensures children == old(children)[h := old(children)[h].(retiring := true)]
      ensures handles == if k in old(handles) && old(handles)[k] == h then old(handles) - {k} else old(handles)
    {
      children := children[h := children[h].(retiring := true)];
      if k in handles && handles[k] == h {
        handles := handles - {k};
      }
    }

    /** A failed reconfiguration retires its child and waits for its end. */
    method GiveUp(o: OpId, h: ChildId)
      requires o in ops && h in children
      modifies `ops, `children, `handles
      ensures Now() == MovedTo(Retired(old(Now()), old(ops)[o].key, h), o, Terminating(h))
    {
      Retire(ops[o].key, h);
      Suspend(o, Terminating(h));
    }

    /** A child retired after a failed reconfiguration is gone. */
    method Terminated(o: OpId)
      requires Valid() && Holds(o) && ops[o].pc.Terminating?
      modifies `ops, `boundary, `log
      ensures Valid() && Now() == Ended(old(Now()), o) && log == old(log) + [RaisedNow(old(Now()), o)]
    {
      assert KeyInv(Now(), ops[o].key);
      Raise(o);
    }

    /** `_replace_for_policy`: the running child names its native session. */
    method IdRead(o: OpId, reply: Reply)
      requires Valid() && Holds(o) && ops[o].pc.ReadingId?
      modifies `ops, `boundary, `log
      ensures Valid()
      ensures reply.Failed? ==> Now() == Ended(old(Now()), o) && log == old(log) + [RaisedNow(old(Now()), o)]
      ensures reply.Answered? ==>
                && old(ops)[o].pc.handle in children && log == old(log)
                && Now() == MovedTo(old(Now()), o, BoundaryToReplace(old(ops)[o].pc.handle, children[old(ops)[o].pc.handle].native))
    {
      ghost var s := Now();
      var k, h := ops[o].key, ops[o].pc.handle;
      assert KeyInv(s, k);
      if reply.Failed? {
        Raise(o);
        return;
      }
      Suspend(o, BoundaryToReplace(h, children[h].native));
      KeyStep(s, Now(), k, o);
    }

    /** `_await_turn_boundary` before a replacement, and the retirement that follows. */
    method BoundaryReadToReplace(o: OpId, reply: Reply)
      requires Valid() && Holds(o) && ops[o].pc.BoundaryToReplace?
      modifies `ops, `boundary, `log, `children, `handles
      ensures Valid()
      ensures reply.Failed? ==> Now() == Ended(old(Now()), o) && log == old(log) + [RaisedNow(old(Now()), o)]
      ensures reply.Answered? ==>
                && old(ops)[o].key !in handles && log == old(log) && old(ops)[o].pc.handle in old(children)
                && Now() == ToReplace(old(Now()), o)
    {
      hide Inv, PcInv, KeyInv, Settled, Fine;
      ghost var s := Now();
      var k, h, id := ops[o].key, ops[o].pc.handle, ops[o].pc.id;
      ToReplaceKeeps(s, o);
      if reply.Failed? {
        Raise(o);
        return;
      }
      Retire(k, h);
      ops := ops[o := ops[o].(pc := Replacing(h, id), replacing := Some(h))];
    }

    /** The old child is gone; the replacement is started, resuming its native session. */
    method Replaced(o: OpId)
      requires Valid() && Holds(o) && ops[o].pc.Replacing?
      modifies `ops
      ensures Valid() && Now() == MovedTo(old(Now()), o, Spawning(Some(old(ops)[o].pc.id), Some(old(ops)[o].pc.id)))
    {
      ghost var s := Now();
      var k, id := ops[o].key, ops[o].pc.id;
      assert KeyInv(s, k);
      if k in handles {
        assert false;
      }
      Suspend(o, Spawning(Some(id), Some(id)));
      KeyStep(s, Now(), k, o);
    }

    // ----- Exits -----

    /** A child dies: by itself, or because `stop`, `kill` or `terminate` asked it to. */
    method Exit(c: ChildId)
      requires Valid() && c in children
      modifies `children
      ensures Valid() && children == old(children)[c := old(children)[c].(exited := true)]
    {
      ghost var s := Now();
      children := children[c := children[c].(exited := true)];
      ExitKeeps(s, Now(), c);
    }

    /** `stop`: kills the registered child; its watcher does the rest. */
    method Stop(key: Key) returns (found: bool)
      requires Valid()
      modifies `children
      ensures Valid() && (found <==> key in handles) && (!found ==> children == old(children))
      ensures found ==> handles[key] in old(children) && children == old(children)[handles[key] := old(children)[handles[key]].(exited := true)]
    {
      assert KeyInv(Now(), key);
      found := key in handles;
      if found {
        HandleIsChild(Now(), key);
        Exit(handles[key]);
      }
    }

    /** `shutdown` up to its await: the flag is set, and the registered children are to be terminated. */
    method BeginShutdown() returns (stopping: set<ChildId>)
      requires Valid()
      modifies `shuttingDown
      ensures Valid() && shuttingDown && stopping == handles.Values && stopping <= children.Keys
    {
      ghost var s := Now();
      HandlesByKey(s);
      stopping := handles.Values;
      shuttingDown := true;
      FlagKeeps(s, Now());
    }

    /** The other end of its await: none of those children runs any more, and nothing else about any child differs. */
    method TerminateAll(stopping: set<ChildId>)
      requires Valid() && stopping <= children.Keys
      modifies `children
      ensures Valid() && Persist(old(children), children) && forall c <- stopping :: children[c].exited
      ensures forall c :: c in children ==> c in old(children) && children[c] == old(children)[c].(exited := old(children)[c].exited || c in stopping)
    {
      hide Inv, Fine;
      var rest := stopping;
      while rest != {}
        invariant Valid() && rest <= stopping && children.Keys == old(children).Keys
        invariant forall c :: c in children ==> children[c] == old(children)[c].(exited := old(children)[c].exited || c in stopping - rest)
      {
        var c :| c in rest;
        Exit(c);
        rest := rest - {c};
      }
    }

    /** `_watch` after the exit: only this child's own registration goes, and the exit is published unless it was a retirement or a shutdown. */
    method Watch(c: ChildId)
      requires Valid() && c in watchers && c in children && children[c].exited
      modifies `handles, `watchers, `published, `departures
      ensures Valid() && Now() == Watched(old(Now()), c)
      ensures departures == old(departures) + [Departure(c, children[c].retiring, shuttingDown)] && (old(Accounted()) ==> Accounted())
      ensures forall k :: k in old(handles) ==> (k in handles <==> old(handles)[k] != c) && (k in handles ==> handles[k] == old(handles)[k])
      ensures handles.Keys <= old(handles).Keys && c !in old(published)
    {
      hide PcInv, KeyInv, Settled, Fine, Crashes;
      ghost var s := Now();
      var k := children[c].key;
      CrashesNext(departures, Departure(c, children[c].retiring, shuttingDown));
      OwnHandle(s, c);
      WatchKeeps(s, c);
      hide Inv;
      watchers := watchers - {c};
      if k in handles && handles[k] == c {
        handles := handles - {k};
      }
      if !children[c].retiring && !shuttingDown {
        published := published + [c];
      }
      departures := departures + [Departure(c, children[c].retiring, shuttingDown)];
      assert s.published + Published(Departure(c, children[c].retiring, shuttingDown)) == published;
    }

    // ----- Any interleaving -----

    /** One event: children persist, and a watcher that runs to its end is accounted for. */
    method Happen(event: Event)
      requires Valid() && Accounted()
      modifies this
      ensures Valid() && Accounted() && Persist(old(children), children) && (old(shuttingDown) ==> shuttingDown)
      ensures departures == old(departures) ==> published == old(published) && old(watchers) <= watchers
      ensures departures != old(departures) ==>
                && event.WatcherRuns? && event.child in children && children == old(children) && watchers == old(watchers) - {event.child}
                && departures == old(departures) + [Departure(event.child, children[event.child].retiring, shuttingDown)]
                && published == old(published) + Published(Departure(event.child, children[event.child].retiring, shuttingDown))
    {
      hide Inv, Fine, PcInv, KeyInv, Settled, OnPolicy, Crashes;
      match event {
        case Arrives(o, key, request) =>
          if o !in ops {
            Arrive(o, key, request);
          }
        case Enters(o) =>
          if o in ops && ops[o].pc == Queued && ops[o].key !in boundary {
            Enter(o);
          }
        case Proceeds(o, reply) =>
          if o in ops && ops[o].pc != Queued {
            Proceed(o, reply);
          }
        case ChildExits(c) =>
          if c in children {
            Exit(c);
          }
        case WatcherRuns(c) =>
          if c in watchers && c in children && children[c].exited {
            Watch(c);
          }
        case Stops(key) =>
          var _ := Stop(key);
        case ShutsDown =>
          var _ := BeginShutdown();
      }
    }

    /** Whatever callers, children and watchers do, in any order: every operation ends as it should and no child that is being retired is registered. An exit is published exactly if its child was not being retired and the daemon not shutting down when the watcher ran, once, and never for a child retired, or a daemon shutting down, before; and a watched child stays watched until its end is accounted for. */
    method Run(schedule: seq<Event>)
      requires Valid() && Accounted()
      modifies this
      ensures Valid() && Accounted() && forall o <- log :: Fine(o)
      ensures forall k :: k in handles ==> handles[k] in children && children[handles[k]].key == k && !children[handles[k]].retiring
      ensures forall j, k :: j in handles && k in handles && handles[j] == handles[k] ==> j == k
      ensures Distinct(published)
      ensures Persist(old(children), children) && old(departures) <= departures && old(published) <= published
      ensures old(shuttingDown) ==> shuttingDown && published == old(published)
      ensures forall c <- published[|old(published)|..] :: c in old(children) ==> !old(children)[c].retiring
      ensures forall c <- old(watchers) :: c in watchers || Departed(departures, |old(departures)|, c)
    {
      hide Inv, Fine, PcInv, KeyInv, Settled, OnPolicy, Accounted, Departed;
      for n := 0 to |schedule|
        invariant Valid() && Accounted() && Persist(old(children), children)
        invariant old(departures) <= departures && old(published) <= published
        invariant old(shuttingDown) ==> shuttingDown && published == old(published)
        invariant forall c <- published[|old(published)|..] :: c in old(children) ==> !old(children)[c].retiring
        invariant forall c <- old(watchers) :: c in watchers || Departed(departures, |old(departures)|, c)
      {
        ghost var was, watched := departures, watchers;
        Happen(schedule[n]);
        if departures != was {
          DepartedNext(was, departures[|was|], |old(departures)|);
          assert departures == was + [departures[|was|]] && watchers == watched - {departures[|was|].child};
        }
      }
      HandlesByKey(Now());
      InvDistinct(Now());
    }

    /** `shutdown`, with all that happens while it waits: it publishes nothing, and in the end no child that was registered when it began still runs. */
    method Shutdown(meanwhile: seq<Event>)
      requires Valid() && Accounted()
      modifies this
      ensures Valid() && Accounted() && shuttingDown && published == old(published)
      ensures forall k :: k in old(handles) ==> old(handles)[k] in children && children[old(handles)[k]].exited
      ensures forall k :: Live(Now(), k) ==> handles[k] !in old(handles).Values
    {
      var stopping := BeginShutdown();
      Run(meanwhile);
      TerminateAll(stopping);
    }

    /** An operation gets the answer it was waiting for. */
    method Proceed(o: OpId, reply: Reply)
      requires Valid() && o in ops && ops[o].pc != Queued
      modifies `handles, `children, `boundary, `ops, `committed, `watchers, `log
      ensures Valid()
      ensures Later(old(Now()), Now())
      ensures (reply.Answered? && reply.child in old(children) && old(ops)[o].pc.Spawning?) || o !in ops || ops[o].pc != old(ops)[o].pc
    {
      InvHolds(Now(), o);
      hide Inv, Fine, PcInv, KeyInv, Settled, OnPolicy, GlobalInv;
      hide Later, Spawn, Confirmed, StartOver, Unverified, Reconfigured, Misapplied, ToReplace, Retired, Started, Ended, MovedTo;
      ghost var s := Now();
      EndedLater(s, o);
      match ops[o].pc
      case Spawning(_, _) =>
        if reply.Answered? && reply.child !in children {
          SpawnLater(s, o, reply.child, reply.native);
        }
        if reply.Failed? || reply.child !in children {
          Spawned(o, reply);
        } else {
          LaterItself(s);
        }
      case Configuring(_, _) =>
        ConfirmedLater(s, o);
        if reply.Answered? {
          StartOverLater(s, Confirmed(s, o), o, reply.commits);
        }
        Configured(o, reply);
      case Identifying(_, _) =>
        LaterItself(s);
        if reply.Answered? {
          StartOverLater(s, s, o, reply.commits);
        }
        Identified(o, reply);
      case Killing => Killed(o);
      case Boundary(h) =>
        UnverifiedLater(s, o, h);
        BoundaryRead(o, reply);
      case Applying(h) =>
        ReconfiguredLater(s, o);
        LaterItself(s);
        RetiredLater(s, s, o, h);
        RetiredLater(s, Misapplied(s, o), o, h);
        Applied(o, reply);
      case Terminating(_) => Terminated(o);
      case ReadingId(_) => IdRead(o, reply);
      case BoundaryToReplace(_, _) =>
        ToReplaceLater(s, o);
        BoundaryReadToReplace(o, reply);
      case Replacing(_, _) => Replaced(o);
    }
  }

  ghost predicate Later(s: State, t: State) {
    Persist(s.children, t.children) && s.watchers <= t.watchers
  }

  lemma LaterItself(s: State)
    ensures Later(s, s)
  {
  }

  lemma EndedLater(s: State, o: OpId)
    requires o in s.ops
    ensures Later(s, Ended(s, o)) && forall pc :: Later(s, MovedTo(s, o, pc))
  {
  }

  lemma SpawnLater(s: State, o: OpId, c: ChildId, native: Session)
    requires o in s.ops && s.ops[o].pc.Spawning? && c !in s.children
    ensures Later(s, Spawn(s, o, c, native))
  {
  }

  lemma ConfirmedLater(s: State, o: OpId)
    requires o in s.ops && s.ops[o].pc.Configuring?
    ensures Later(s, Confirmed(s, o)) && o in Confirmed(s, o).ops
  {
  }

  lemma StartOverLater(r: State, s: State, o: OpId, commits: bool)
    requires Later(r, s) && o in s.ops
    ensures Later(r, StartOver(s, o, commits))
  {
  }

  lemma UnverifiedLater(s: State, o: OpId, h: ChildId)
    requires o in s.ops
    ensures o in Unverified(s, h).ops && Later(s, MovedTo(Unverified(s, h), o, Applying(h)))
  {
    assert Later(s, Unverified(s, h));
    hide Persist, Unverified;
  }

  lemma RetiredLater(r: State, s: State, o: OpId, h: ChildId)
    requires Later(r, s) && o in s.ops
    ensures o in Retired(s, s.ops[o].key, h).ops && Later(r, MovedTo(Retired(s, s.ops[o].key, h), o, Terminating(h)))
  {
  }

  lemma ReconfiguredLater(s: State, o: OpId)
    requires o in s.ops && s.ops[o].pc.Applying?
    ensures Later(s, Ended(Reconfigured(s, o), o)) && Later(s, Misapplied(s, o)) && Misapplied(s, o).ops == s.ops
  {
  }

  lemma ToReplaceLater(s: State, o: OpId)
    requires o in s.ops && s.ops[o].pc.BoundaryToReplace?
    ensures Later(s, ToReplace(s, o))
  {
  }

  /** How operation `o` ends when it returns child `c` now. */
  function Result(s: State, o: OpId, c: ChildId): Outcome
    requires o in s.ops && c in s.children
  {
    var op := s.ops[o];
    Returned(op.key, c, s.children[c], if op.key in s.committed then Some(s.committed[op.key]) else None,
             op.request, op.before,
             if op.replacing.Some? && op.replacing.value in s.children then Some(s.children[op.replacing.value]) else None)
  }

  /** Leaving the boundary of a settled session keeps the invariant. */
  lemma Left(s: State, t: State, k: Key, o: OpId)
    requires Inv(s) && o in s.ops && s.ops[o].key == k && k in s.boundary && s.boundary[k] == o && Settled(s, k)
    requires t == s.(boundary := s.boundary - {k}, ops := s.ops - {o})
    ensures Inv(t)
  {
    assert KeyInv(t, k);
    hide KeyInv, PcInv;
    OtherKeys(s, t, k);
  }

  // ----- Why each kind of step keeps the invariant -----

  /** A step inside the boundary of session `k`, after which the operation is still there. */
  lemma KeyStep(s: State, t: State, k: Key, o: OpId)
    requires Inv(s) && SameElsewhere(s, t, k)
    requires k in s.boundary && s.boundary[k] == o && o in s.ops && s.ops[o].key == k
    requires t.boundary == s.boundary && t.watchers == s.watchers && t.published == s.published && s.children.Keys <= t.children.Keys
    requires o in t.ops && t.ops[o].key == k && t.ops[o].pc != Queued && PcInv(t, k, t.ops[o])
    requires t.ops == s.ops[o := t.ops[o]]
    ensures Inv(t)
  {
    assert KeyInv(t, k);
    hide KeyInv, PcInv;
    OtherKeys(s, t, k);
  }

  /** A last step inside the boundary of session `k`, which leaves the session settled. */
  lemma KeyLeft(s: State, t: State, k: Key, o: OpId)
    requires Inv(s) && SameElsewhere(s, t, k)
    requires k in s.boundary && s.boundary[k] == o && o in s.ops && s.ops[o].key == k
    requires t.boundary == s.boundary - {k} && t.ops == s.ops - {o}
    requires t.published == s.published && s.children.Keys <= t.children.Keys
    requires forall c :: c in t.watchers ==> c in t.children && c !in t.published
    requires Settled(t, k)
    ensures Inv(t)
  {
    assert KeyInv(t, k);
    hide KeyInv, PcInv;
    OtherKeys(s, t, k);
  }

  /** Taking the boundary of a settled session. */
  lemma Taken(s: State, t: State, k: Key, o: OpId, op: Op)
    requires Inv(s) && k !in s.boundary && o in s.ops && s.ops[o].key == op.key == k && s.ops[o].pc == Queued && op.pc != Queued
    requires t == s.(ops := s.ops[o := op], boundary := s.boundary[k := o])
    requires PcInv(t, k, op)
    ensures Inv(t)
  {
    assert KeyInv(t, k);
    hide KeyInv, PcInv;
    OtherKeys(s, t, k);
  }

  /** Ending in the segment that took the boundary. */
  lemma LeftAtOnce(s: State, t: State, k: Key, o: OpId)
    requires Inv(s) && k !in s.boundary && o in s.ops && s.ops[o].key == k && s.ops[o].pc == Queued
    requires t == s.(ops := s.ops - {o})
    ensures Inv(t)
  {
    assert KeyInv(s, k) && KeyInv(t, k);
    hide KeyInv, PcInv;
    OtherKeys(s, t, k);
  }

  lemma QueuedKeeps(s: State, t: State, o: OpId)
    requires Inv(s) && o !in s.ops && o in t.ops && t.ops[o].pc == Queued && t.ops[o].before.None? && t.ops[o].replacing.None?
    requires t == s.(ops := s.ops[o := t.ops[o]])
    ensures Inv(t)
  {
    forall k: Key
      ensures KeyInv(t, k)
    {
      assert KeyInv(s, k);
      if k in s.boundary {
        assert t.ops[t.boundary[k]] == s.ops[s.boundary[k]];
        SamePc(s, t, k, t.ops[t.boundary[k]]);
      }
    }
  }

  lemma SamePc(s: State, t: State, k: Key, op: Op)
    requires PcInv(s, k, op)
    requires t.handles == s.handles && t.children == s.children && t.committed == s.committed && t.watchers == s.watchers && t.published == s.published
    ensures PcInv(t, k, op)
  {
  }

  lemma FlagKeeps(s: State, t: State)
    requires Inv(s) && t == s.(shuttingDown := true)
    ensures Inv(t)
  {
    forall k: Key
      ensures KeyInv(t, k)
    {
      assert KeyInv(s, k);
      if k in s.boundary {
        SamePc(s, t, k, t.ops[t.boundary[k]]);
      }
    }
  }

  lemma ExitKeeps(s: State, t: State, c: ChildId)
    requires Inv(s) && c in s.children
    requires t == s.(children := s.children[c := s.children[c].(exited := true)])
    ensures Inv(t)
  {
    forall k: Key
      ensures KeyInv(t, k)
    {
      assert KeyInv(s, k);
      if k in s.boundary {
        ExitPc(s, t, k, t.ops[t.boundary[k]], c);
      }
    }
  }

  lemma ExitPc(s: State, t: State, k: Key, op: Op, c: ChildId)
    requires PcInv(s, k, op) && c in s.children
    requires t == s.(children := s.children[c := s.children[c].(exited := true)])
    ensures PcInv(t, k, op)
  {
  }

  /** A registered child is registered under its own session, is not being retired, and is watched. */
  lemma HandleIsChild(s: State, k: Key)
    requires KeyInv(s, k) && k in s.handles
    ensures s.handles[k] in s.children && s.children[s.handles[k]].key == k && !s.children[s.handles[k]].retiring
    ensures s.handles[k] in s.watchers
  {
  }

  /** No child that is being retired is registered, and no child is registered twice. */
  lemma HandlesByKey(s: State)
    requires Inv(s)
    ensures forall k :: k in s.handles ==>
              && s.handles[k] in s.children && s.children[s.handles[k]].key == k
              && !s.children[s.handles[k]].retiring && s.handles[k] in s.watchers && s.handles[k] !in s.published
    ensures forall j, k :: j in s.handles && k in s.handles && s.handles[j] == s.handles[k] ==> j == k
  {
    forall k | k in s.handles
      ensures s.handles[k] in s.children && s.children[s.handles[k]].key == k && !s.children[s.handles[k]].retiring && s.handles[k] in s.watchers
    {
      assert KeyInv(s, k);
      HandleIsChild(s, k);
    }
  }

  lemma OwnHandle(s: State, c: ChildId)
    requires Inv(s) && c in s.watchers && c in s.children
    ensures c !in s.published && forall j :: j in s.handles && s.handles[j] == c ==> j == s.children[c].key
  {
    HandlesByKey(s);
  }

  /** The state after the end of a watcher. */
  function Watched(s: State, c: ChildId): State
    requires c in s.children
  {
    var k := s.children[c].key;
    s.(watchers := s.watchers - {c}, handles := if k in s.handles && s.handles[k] == c then s.handles - {k} else s.handles,
       published := s.published + Published(Departure(c, s.children[c].retiring, s.shuttingDown)))
  }

  lemma WatchKeeps(s: State, c: ChildId)
    requires Inv(s) && c in s.watchers && c in s.children
    ensures Inv(Watched(s, c))
  {
    var t, k := Watched(s, c), s.children[c].key;
    assert KeyInv(s, k);
    assert c !in s.published;
    if k in s.boundary {
      WatchPc(s, t, k, c, s.ops[s.boundary[k]]);
    }
    assert KeyInv(t, k);
    hide KeyInv, PcInv;
    OtherKeys(s, t, k);
  }

  lemma WatchPc(s: State, t: State, k: Key, c: ChildId, op: Op)
    requires PcInv(s, k, op) && c in s.watchers
    requires t.children == s.children && t.committed == s.committed && t.watchers == s.watchers - {c}
    requires t.handles == if k in s.handles && s.handles[k] == c then s.handles - {k} else s.handles
    requires t.published == s.published || t.published == s.published + [c]
    ensures PcInv(t, k, op)
  {
  }

  lemma SettledHandle(s: State, k: Key)
    requires Inv(s) && k !in s.boundary
    ensures k in s.handles ==> s.handles[k] in s.children && OnPolicy(s, k, s.handles[k]) && Verified(s, s.handles[k])
    ensures Live(s, k) ==> k in s.committed && forall before :: Fine(Returned(k, s.handles[k], s.children[s.handles[k]], Some(s.committed[k]), Acquire, before, None))
    ensures k in s.handles ==> s.children[s.handles[k]].policy == Some(s.committed[k]) && s.children[s.handles[k]].flags == s.committed[k].auxiliary
  {
    assert KeyInv(s, k);
  }

  lemma TakenByApply(s: State, k: Key, o: OpId, op: Op)
    requires Inv(s) && k !in s.boundary && o in s.ops && s.ops[o].key == k && s.ops[o].pc == Queued && s.ops[o].request.Apply?
    requires k in s.handles && s.handles[k] in s.children
    requires var h := s.handles[k];
             && (op.pc == if s.children[h].policy.Some? && s.children[h].policy.value.auxiliary == s.ops[o].request.policy.auxiliary
                          then Boundary(h) else ReadingId(h))
             && op == s.ops[o].(pc := op.pc, before := Some(Seen(h, s.children[h].policy, s.children[h].verified)))
    ensures Inv(s.(ops := s.ops[o := op], boundary := s.boundary[k := o]))
  {
    assert KeyInv(s, k);
    Taken(s, s.(ops := s.ops[o := op], boundary := s.boundary[k := o]), k, o, op);
  }

  lemma TakenByStart(s: State, k: Key, o: OpId, op: Op)
    requires Inv(s) && k !in s.boundary && o in s.ops && s.ops[o].key == k && s.ops[o].pc == Queued && !s.ops[o].request.Acquire?
    requires k !in s.handles && op == s.ops[o].(pc := Spawning(s.ops[o].request.resume, None))
    ensures Inv(s.(ops := s.ops[o := op], boundary := s.boundary[k := o])) && op.before == LookAt(s, k)
  {
    Taken(s, s.(ops := s.ops[o := op], boundary := s.boundary[k := o]), k, o, op);
  }

  // ----- What each segment makes of the state -----

  /** The session has a handle whose child has not exited. */
  predicate Live(s: State, k: Key) {
    k in s.handles && s.handles[k] in s.children && !s.children[s.handles[k]].exited
  }

  /** Operation `o` has taken its session's boundary and stands at `pc`. */
  function Begun(s: State, o: OpId, pc: Pc): State
    requires o in s.ops
  {
    s.(ops := s.ops[o := s.ops[o].(pc := pc, before := LookAt(s, s.ops[o].key))], boundary := s.boundary[s.ops[o].key := o])
  }

  function MovedTo(s: State, o: OpId, pc: Pc): State
    requires o in s.ops
  {
    s.(ops := s.ops[o := s.ops[o].(pc := pc)])
  }

  function Ended(s: State, o: OpId): State
    requires o in s.ops
  {
    s.(boundary := s.boundary - {s.ops[o].key}, ops := s.ops - {o})
  }

  function RaisedNow(s: State, o: OpId): Outcome
    requires o in s.ops
  {
    Raised(s.ops[o].key, s.ops[o].before, LookAt(s, s.ops[o].key))
  }

  /** A new child, started with the auxiliary roles asked for. */
  function Spawn(s: State, o: OpId, c: ChildId, native: Session): State
    requires o in s.ops && s.ops[o].pc.Spawning?
  {
    var op := s.ops[o];
    if op.request.Acquire? then s
    else MovedTo(s, o, Configuring(c, op.pc.expected)).(
           children := s.children[c := Child(op.key, native, op.pc.resume, op.request.policy.auxiliary, None, None, false, false)])
  }

  /** The new child has confirmed the policy. */
  function Confirmed(s: State, o: OpId): State
    requires o in s.ops && s.ops[o].pc.Configuring?
  {
    var op := s.ops[o];
    if op.request.Acquire? || op.pc.child !in s.children then s
    else MovedTo(s, o, Identifying(op.pc.child, op.pc.expected)).(
           children := s.children[op.pc.child := s.children[op.pc.child].(verified := Some(op.request.policy))])
  }

  /** The child is the native session that was to be continued, if one was. */
  predicate Continued(s: State, o: OpId)
    requires o in s.ops && s.ops[o].pc.Identifying?
  {
    s.ops[o].pc.expected.Some? ==> s.ops[o].pc.child in s.children && s.children[s.ops[o].pc.child].native == s.ops[o].pc.expected.value
  }

  /** How a start ends, with its commit or without. */
  function StartOver(s: State, o: OpId, commits: bool): State
    requires o in s.ops
  {
    if commits then Ended(Started(s, o), o)
    else if s.ops[o].pc.Identifying? && s.ops[o].pc.child in s.children && !s.ops[o].request.Acquire?
    then MovedTo(s, o, Killing).(children := s.children[s.ops[o].pc.child := s.children[s.ops[o].pc.child].(policy := Some(s.ops[o].request.policy))])
    else s
  }

  /** Nothing is known of what the child runs until it has answered. */
  function Unverified(s: State, h: ChildId): State {
    if h in s.children then s.(children := s.children[h := s.children[h].(verified := None)]) else s
  }

  /** The child was put on the new policy in place, and that was recorded. */
  function Reconfigured(s: State, o: OpId): (t: State)
    requires o in s.ops && s.ops[o].pc.Applying?
    ensures t.ops == s.ops && t.children.Keys == s.children.Keys
  {
    var op := s.ops[o];
    if op.request.Acquire? || op.pc.handle !in s.children then s
    else s.(children := s.children[op.pc.handle := s.children[op.pc.handle].(verified := Some(op.request.policy), policy := Some(op.request.policy))],
            committed := s.committed[op.key := op.request.policy])
  }

  /** The child was put on the new policy, which could not be recorded. */
  function Misapplied(s: State, o: OpId): State
    requires o in s.ops && s.ops[o].pc.Applying?
  {
    var op := s.ops[o];
    if op.request.Acquire? || op.pc.handle !in s.children then s
    else s.(children := s.children[op.pc.handle := s.children[op.pc.handle].(verified := Some(op.request.policy))])
  }

  /** The old child is retired, and remembered as the one to continue. */
  function ToReplace(s: State, o: OpId): State
    requires o in s.ops && s.ops[o].pc.BoundaryToReplace?
  {
    var op := s.ops[o];
    if op.pc.handle !in s.children then s
    else Retired(s, op.key, op.pc.handle).(
           ops := s.ops[o := op.(pc := Replacing(op.pc.handle, op.pc.id), replacing := Some(op.pc.handle))])
  }

  /** The state after a start whose commit succeeded. */
  function Started(s: State, o: OpId): (t: State)
    requires o in s.ops
    ensures t.ops == s.ops && s.children.Keys <= t.children.Keys
  {
    if !s.ops[o].pc.Identifying? || s.ops[o].pc.child !in s.children || s.ops[o].request.Acquire? then s else
    var k, c, policy := s.ops[o].key, s.ops[o].pc.child, s.ops[o].request.policy;
    s.(children := s.children[c := s.children[c].(policy := Some(policy))], committed := s.committed[k := policy],
       handles := s.handles[k := c], watchers := s.watchers + {c})
  }

  /** Child `c` is now the session's handle, on the policy that was just committed for it. */
  ghost predicate Registered(s: State, t: State, k: Key, c: ChildId) {
    && k !in s.handles && t.handles == s.handles[k := c]
    && c in t.children && t.children[c].policy.Some? && t.committed == s.committed[k := t.children[c].policy.value]
  }

  /** A child that confirmed the policy, or is about to be killed, is still known to its start only. */
  lemma ConfirmedKeeps(s: State, o: OpId)
    requires Inv(s) && o in s.ops && s.ops[o].pc.Configuring?
    requires s.ops[o].key in s.boundary && s.boundary[s.ops[o].key] == o
    ensures s.ops[o].pc.child in s.children && !s.ops[o].request.Acquire?
    ensures Inv(Confirmed(s, o)) && Inv(MovedTo(s, o, Killing))
  {
    NotConfirmedKeeps(s, o);
    assert KeyInv(s, s.ops[o].key);
    KeyStep(s, Confirmed(s, o), s.ops[o].key, o);
  }

  lemma NotConfirmedKeeps(s: State, o: OpId)
    requires Inv(s) && o in s.ops && s.ops[o].pc.Configuring?
    requires s.ops[o].key in s.boundary && s.boundary[s.ops[o].key] == o
    ensures Inv(MovedTo(s, o, Killing))
  {
    assert KeyInv(s, s.ops[o].key);
    KeyStep(s, MovedTo(s, o, Killing), s.ops[o].key, o);
  }

  lemma SpawningMeans(s: State, o: OpId)
    requires Inv(s) && o in s.ops && s.ops[o].pc.Spawning?
    requires s.ops[o].key in s.boundary && s.boundary[s.ops[o].key] == o
    ensures s.ops[o].key !in s.handles && !s.ops[o].request.Acquire? && Settled(s, s.ops[o].key)
  {
    assert KeyInv(s, s.ops[o].key);
  }

  lemma SpawnKeeps(s: State, o: OpId, c: ChildId, native: Session)
    requires Inv(s) && o in s.ops && s.ops[o].pc.Spawning? && c !in s.children
    requires s.ops[o].key in s.boundary && s.boundary[s.ops[o].key] == o
    ensures Inv(Spawn(s, o, c, native))
  {
    assert KeyInv(s, s.ops[o].key);
    KeyStep(s, Spawn(s, o, c, native), s.ops[o].key, o);
  }

  /** A child about to be replaced is still the session's verified handle; once it is retired, the session has none. */
  lemma ToReplaceKeeps(s: State, o: OpId)
    requires Inv(s) && o in s.ops && s.ops[o].pc.BoundaryToReplace?
    requires s.ops[o].key in s.boundary && s.boundary[s.ops[o].key] == o
    ensures s.ops[o].pc.handle in s.children && Settled(s, s.ops[o].key) && LookAt(s, s.ops[o].key) in {None, s.ops[o].before}
    ensures Inv(ToReplace(s, o)) && s.ops[o].key !in ToReplace(s, o).handles
  {
    assert KeyInv(s, s.ops[o].key);
    KeyStep(s, ToReplace(s, o), s.ops[o].key, o);
  }

  lemma StartEnds(s: State, o: OpId)
    requires Inv(s) && o in s.ops && s.ops[o].pc.Identifying?
    requires s.ops[o].key in s.boundary && s.boundary[s.ops[o].key] == o
    requires s.ops[o].pc.child in s.children
    requires s.ops[o].pc.expected.Some? ==> s.children[s.ops[o].pc.child].native == s.ops[o].pc.expected.value
    ensures !s.ops[o].request.Acquire? && s.ops[o].key !in s.handles
    ensures Inv(StartOver(s, o, true)) && Fine(Result(Started(s, o), o, s.ops[o].pc.child))
  {
    var k := s.ops[o].key;
    assert KeyInv(s, k);
    var started := Started(s, o).(boundary := s.boundary - {k}, ops := s.ops - {o});
    assert Settled(started, k);
    KeyLeft(s, started, k, o);
  }

  lemma StartUnrecorded(s: State, o: OpId)
    requires Inv(s) && o in s.ops && s.ops[o].pc.Identifying?
    requires s.ops[o].key in s.boundary && s.boundary[s.ops[o].key] == o
    requires s.ops[o].pc.child in s.children && !s.ops[o].request.Acquire?
    ensures Inv(StartOver(s, o, false))
  {
    var k, c := s.ops[o].key, s.ops[o].pc.child;
    assert KeyInv(s, k);
    KeyStep(s, s.(children := s.children[c := s.children[c].(policy := Some(s.ops[o].request.policy))],
                  ops := s.ops[o := s.ops[o].(pc := Killing)]), k, o);
  }

  /** The state after a retirement. */
  function Retired(s: State, k: Key, h: ChildId): State {
    if h !in s.children then s else
    s.(children := s.children[h := s.children[h].(retiring := true)],
       handles := if k in s.handles && s.handles[k] == h then s.handles - {k} else s.handles)
  }

  lemma ApplyEnds(s: State, o: OpId)
    requires Inv(s) && o in s.ops && s.ops[o].pc.Applying?
    requires s.ops[o].key in s.boundary && s.boundary[s.ops[o].key] == o
    ensures s.ops[o].pc.handle in s.children && !s.ops[o].request.Acquire?
    ensures Inv(Ended(Reconfigured(s, o), o)) && Fine(Result(Reconfigured(s, o), o, s.ops[o].pc.handle))
  {
    var k, h := s.ops[o].key, s.ops[o].pc.handle;
    assert KeyInv(s, k);
    var policy := s.ops[o].request.policy;
    var t := s.(children := s.children[h := s.children[h].(verified := Some(policy), policy := Some(policy))],
                committed := s.committed[k := policy], boundary := s.boundary - {k}, ops := s.ops - {o});
    assert Settled(t, k);
    KeyLeft(s, t, k, o);
  }

  lemma ApplyRefused(s: State, o: OpId)
    requires Inv(s) && o in s.ops && s.ops[o].pc.Applying? && s.ops[o].pc.handle in s.children
    requires s.ops[o].key in s.boundary && s.boundary[s.ops[o].key] == o
    ensures Inv(MovedTo(Retired(s, s.ops[o].key, s.ops[o].pc.handle), o, Terminating(s.ops[o].pc.handle)))
  {
    var k, h := s.ops[o].key, s.ops[o].pc.handle;
    assert KeyInv(s, k);
    KeyStep(s, Retired(s, k, h).(ops := s.ops[o := s.ops[o].(pc := Terminating(h))]), k, o);
  }

  /** After a failed commit the policy is put back and the child retired; what omp confirmed no longer matters. */
  lemma ApplyUndone(s: State, o: OpId)
    requires Inv(s) && o in s.ops && s.ops[o].pc.Applying?
    requires s.ops[o].key in s.boundary && s.boundary[s.ops[o].key] == o
    requires s.ops[o].pc.handle in s.children && !s.ops[o].request.Acquire?
    ensures Inv(MovedTo(Retired(Misapplied(s, o), s.ops[o].key, s.ops[o].pc.handle), o, Terminating(s.ops[o].pc.handle)))
  {
    var t := MovedTo(Retired(Misapplied(s, o), s.ops[o].key, s.ops[o].pc.handle), o, Terminating(s.ops[o].pc.handle));
    assert KeyInv(s, s.ops[o].key);
    KeyStep(s, t, s.ops[o].key, o);
  }

  lemma InvDistinct(s: State)
    requires Inv(s)
    ensures Distinct(s.published)
  {
  }

  lemma InvHolds(s: State, o: OpId)
    requires Inv(s) && o in s.ops && s.ops[o].pc != Queued
    ensures s.ops[o].key in s.boundary && s.boundary[s.ops[o].key] == o
  {
  }
}
