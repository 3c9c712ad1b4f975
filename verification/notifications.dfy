/** Attention: one published entry per task, kept up to date by events. */
module Attention {
  import opened Wrappers

  type Task = nat

  datatype Tier = Silent | Badge | Notify | Interrupt

  function Rank(t: Tier): nat {
    match t
    case Silent => 0
    case Badge => 1
    case Notify => 2
    case Interrupt => 3
  }

  /** `tier_for`: unknown statuses are silent. */
  function TierFor(status: string): Tier {
    if status == "idle" || status == "retrying" then Badge
    else if status == "waiting-input" || status == "stalled" || status == "reviewing" then Notify
    else if status == "waiting-approval" || status == "failed" then Interrupt
    else Silent
  }

  /** The statuses that ask for attention, and how much. */
  const ATTENTION_OF: map<string, Tier> := map[
    "idle" := Badge, "retrying" := Badge,
    "waiting-input" := Notify, "stalled" := Notify, "reviewing" := Notify,
    "waiting-approval" := Interrupt, "failed" := Interrupt]

  /** Silent, badge, notify, interrupt, in this order. */
  predicate NoHigher(a: Tier, b: Tier) {
    a == b || a == Silent || b == Interrupt || (a == Badge && b == Notify)
  }

  /** Who raised an entry: a session, or a workflow gate. */
  datatype Source = Gate | Session(name: string)

  datatype Entry = Entry(tier: Tier, status: string, reason: string, session: Option<string>)

  datatype Live = Live(source: Source, entry: Entry)

  datatype Published = AttentionRaised(task: Task, entry: Entry) | AttentionCleared(task: Task)

  /** What the notifier is told. */
  datatype Told =
    | StatusChanged(task: Task, session: string, to: string, reason: string)
    | WorkflowStep(task: Task, status: string, message: string)
    | ClearTask(task: Task)

  // ----- What is live, by the history alone -----

  /** What one thing told says of one source of one task: nothing, or its new entry. */
  function Says(told: Told, task: Task, source: Source): Option<Option<Entry>> {
    match told
    case StatusChanged(t, session, to, reason) =>
      if t != task || source != Session(session) then None
      else if to !in ATTENTION_OF then Some(None) else Some(Some(Entry(ATTENTION_OF[to], to, reason, Some(session))))
    case WorkflowStep(t, status, message) =>
      if t != task || source != Gate then None
      else if status == "waiting" then Some(Some(Entry(Notify, "waiting", if message == "" then "workflow gate" else message, None))) else Some(None)
    case ClearTask(t) => if t != task then None else Some(None)
  }

  /** The live entry of a source: the last thing said of it. */
  function LiveEntry(history: seq<Told>, task: Task, source: Source): Option<Entry> {
    if history == [] then None
    else match Says(history[|history| - 1], task, source)
      case Some(said) => said
      case None => LiveEntry(history[..|history| - 1], task, source)
  }

  // ----- Aggregation -----

  function EntryOf(sources: seq<Live>, source: Source): Option<Entry> {
    if sources == [] then None
    else if sources[|sources| - 1].source == source then Some(sources[|sources| - 1].entry)
    else EntryOf(sources[..|sources| - 1], source)
  }

  /** A source keeps its place when its entry changes. */
  function Replaced(sources: seq<Live>, source: Source, entry: Entry): seq<Live> {
    if sources == [] then [Live(source, entry)]
    else if sources[|sources| - 1].source == source then sources[..|sources| - 1] + [Live(source, entry)]
    else if EntryOf(sources, source).None? then sources + [Live(source, entry)]
    else Replaced(sources[..|sources| - 1], source, entry) + [sources[|sources| - 1]]
  }

  function Without(sources: seq<Live>, source: Source): seq<Live> {
    if sources == [] then []
    else if sources[|sources| - 1].source == source then Without(sources[..|sources| - 1], source)
    else Without(sources[..|sources| - 1], source) + [sources[|sources| - 1]]
  }

  lemma {:induction false} EntryReplaced(sources: seq<Live>, source: Source, entry: Entry, other: Source)
    ensures EntryOf(Replaced(sources, source, entry), other) == if other == source then Some(entry) else EntryOf(sources, other)
    ensures Replaced(sources, source, entry) != []
  {
    var all := Replaced(sources, source, entry);
    if sources == [] {
      assert all[..0] == [];
    } else {
      var front, last := sources[..|sources| - 1], sources[|sources| - 1];
      if last.source == source {
        assert all[..|all| - 1] == front;
      } else if EntryOf(sources, source).None? {
        assert all[..|all| - 1] == sources;
      } else {
        EntryReplaced(front, source, entry, other);
        assert all[..|all| - 1] == Replaced(front, source, entry);
      }
    }
  }

  /** A changed entry stays where it was among the others; a new one goes last. */
  lemma {:induction false} ReplacedKeepsOrder(sources: seq<Live>, source: Source, entry: Entry)
    ensures EntryOf(sources, source).None? ==> Replaced(sources, source, entry) == sources + [Live(source, entry)]
    ensures EntryOf(sources, source).Some? ==>
              && |Replaced(sources, source, entry)| == |sources|
              && forall i: nat :: i < |sources| ==> Replaced(sources, source, entry)[i].source == sources[i].source
  {
    if sources != [] && sources[|sources| - 1].source != source && EntryOf(sources, source).Some? {
      ReplacedKeepsOrder(sources[..|sources| - 1], source, entry);
    }
  }

  lemma {:induction false} EntryWithout(sources: seq<Live>, source: Source, other: Source)
    ensures EntryOf(Without(sources, source), other) == if other == source then None else EntryOf(sources, other)
  {
    if sources != [] {
      var front, last := sources[..|sources| - 1], sources[|sources| - 1];
      var rest := Without(front, source);
      EntryWithout(front, source, other);
      if last.source != source {
        assert Without(sources, source) == rest + [last];
        hide Without;
        assert (rest + [last])[..|rest|] == rest;
      }
    }
  }

  lemma {:induction false} EntryMember(sources: seq<Live>, source: Source)
    ensures EntryOf(sources, source).Some? ==> Live(source, EntryOf(sources, source).value) in sources
    ensures EntryOf(sources, source).None? <==> forall l <- sources :: l.source != source
  {
    if sources != [] {
      var front, last := sources[..|sources| - 1], sources[|sources| - 1];
      EntryMember(front, source);
      assert forall l <- sources :: l in front || l == last;
      assert forall l <- front :: l in sources;
    }
  }

  /** The first entry of maximal tier, in the order of the sources. */
  function Worst(sources: seq<Live>): Option<Entry> {
    if sources == [] then None
    else
      var before, last := Worst(sources[..|sources| - 1]), sources[|sources| - 1].entry;
      if before.None? || Rank(last.tier) > Rank(before.value.tier) then Some(last) else before
  }

  /** Every source once. */
  ghost predicate Distinct(sources: seq<Live>) {
    forall i: nat, j: nat :: i < j < |sources| ==> sources[i].source != sources[j].source
  }

  lemma {:induction false} WorstIsMaximal(sources: seq<Live>)
    ensures Worst(sources).None? <==> sources == []
    ensures Worst(sources).Some? ==>
              (exists l <- sources :: l.entry == Worst(sources).value)
              && forall l <- sources :: Rank(l.entry.tier) <= Rank(Worst(sources).value.tier)
  {
    if sources != [] {
      var front, last := sources[..|sources| - 1], sources[|sources| - 1];
      WorstIsMaximal(front);
      assert forall l <- sources :: l in front || l == last;
      assert forall l <- front :: l in sources;
      assert last in sources;
    }
  }

  lemma {:induction false} DistinctLookup(sources: seq<Live>, l: Live)
    requires Distinct(sources) && l in sources
    ensures EntryOf(sources, l.source) == Some(l.entry)
  {
    var front, last := sources[..|sources| - 1], sources[|sources| - 1];
    if l != last {
      var i: nat :| i < |sources| && sources[i] == l;
      assert front[i] == l;
      DistinctLookup(front, l);
    }
  }

  lemma {:induction false} ReplacedDistinct(sources: seq<Live>, source: Source, entry: Entry)
    requires Distinct(sources)
    ensures Distinct(Replaced(sources, source, entry))
    ensures forall l <- Replaced(sources, source, entry) :: l.source == source || l in sources
  {
    if sources != [] {
      var front, last := sources[..|sources| - 1], sources[|sources| - 1];
      EntryMember(sources, source);
      if last.source != source && EntryOf(sources, source).Some? {
        ReplacedDistinct(front, source, entry);
        assert forall l <- front :: l.source != last.source;
        assert forall i: nat :: i < |Replaced(front, source, entry)| ==> Replaced(front, source, entry)[i] in Replaced(front, source, entry);
      }
    }
  }

  lemma {:induction false} WithoutDistinct(sources: seq<Live>, source: Source)
    requires Distinct(sources)
    ensures Distinct(Without(sources, source))
    ensures forall l <- Without(sources, source) :: l in sources
  {
    if sources != [] {
      var front, last := sources[..|sources| - 1], sources[|sources| - 1];
      WithoutDistinct(front, source);
      assert forall l <- front :: l.source != last.source;
      assert forall i: nat :: i < |Without(front, source)| ==> Without(front, source)[i] in Without(front, source);
    }
  }

  /** An entry that is not of a higher tier than all others does not displace what is published. */
  lemma NewcomerWaits(sources: seq<Live>, source: Source, entry: Entry)
    requires sources != [] && EntryOf(sources, source).None? && Rank(entry.tier) <= Rank(Worst(sources).value.tier) && Worst(sources).Some?
    ensures Worst(Replaced(sources, source, entry)) == Worst(sources)
  {
    assert sources[|sources| - 1].source != source by {
      EntryMember(sources, source);
      assert sources[|sources| - 1] in sources;
    }
    assert Replaced(sources, source, entry)[..|sources|] == sources;
  }

  // ----- What clients fold -----

  function Applied(entries: map<Task, Entry>, e: Published): map<Task, Entry> {
    match e
    case AttentionRaised(task, entry) => entries[task := entry]
    case AttentionCleared(task) => entries - {task}
  }

  function Folded(events: seq<Published>): map<Task, Entry> {
    if events == [] then map[] else Applied(Folded(events[..|events| - 1]), events[|events| - 1])
  }

  /** The sources of a task are exactly what the history leaves live. */
  ghost predicate Tracks(sources: seq<Live>, history: seq<Told>, task: Task) {
    Distinct(sources) && forall source: Source :: EntryOf(sources, source) == LiveEntry(history, task, source)
  }

  function SourcesOf(all: map<Task, seq<Live>>, task: Task): seq<Live> {
    if task in all then all[task] else []
  }

  /** `entry` is one of the task's live entries, of the highest tier among them; it is none exactly when nothing is live. */
  ghost predicate WorstLive(history: seq<Told>, task: Task, entry: Option<Entry>) {
    && (entry.None? <==> forall source: Source :: LiveEntry(history, task, source).None?)
    && (entry.Some? ==>
          && (exists source: Source :: LiveEntry(history, task, source) == entry)
          && forall source: Source :: LiveEntry(history, task, source).Some? ==>
               NoHigher(LiveEntry(history, task, source).value.tier, entry.value.tier))
  }

  lemma PublishedIsWorst(sources: seq<Live>, history: seq<Told>, task: Task)
    requires Tracks(sources, history, task)
    ensures WorstLive(history, task, Worst(sources))
  {
    WorstIsMaximal(sources);
    forall source: Source
      ensures EntryOf(sources, source).Some? ==> Live(source, EntryOf(sources, source).value) in sources
    {
      EntryMember(sources, source);
    }
    if sources != [] {
      var l :| l in sources && l.entry == Worst(sources).value;
      DistinctLookup(sources, l);
      assert LiveEntry(history, task, l.source) == Worst(sources);
    }
  }

  lemma TracksOther(sources: seq<Live>, history: seq<Told>, told: Told, task: Task)
    requires Tracks(sources, history, task) && told.task != task
    ensures Tracks(sources, history + [told], task)
  {
    assert (history + [told])[..|history|] == history;
  }

  lemma TracksUpdate(sources: seq<Live>, after: seq<Live>, history: seq<Told>, told: Told, source: Source, entry: Option<Entry>)
    requires Tracks(sources, history, told.task)
    requires forall other: Source :: Says(told, told.task, other) == if other == source then Some(entry) else None
    requires after == match entry
             case Some(e) => Replaced(sources, source, e)
             case None => Without(sources, source)
    ensures Tracks(after, history + [told], told.task)
  {
    assert (history + [told])[..|history|] == history;
    forall other: Source
      ensures EntryOf(after, other) == LiveEntry(history + [told], told.task, other)
    {
      if entry.Some? {
        EntryReplaced(sources, source, entry.value, other);
      } else {
        EntryWithout(sources, source, other);
      }
    }
    if entry.Some? {
      ReplacedDistinct(sources, source, entry.value);
    } else {
      WithoutDistinct(sources, source);
    }
  }

  lemma TracksCleared(history: seq<Told>, task: Task)
    ensures Tracks([], history + [ClearTask(task)], task)
  {
    assert (history + [ClearTask(task)])[..|history|] == history;
  }

  class AttentionNotifier {
    /** The published entries, and the per-source entries they aggregate. */
    var entries: map<Task, Entry>
    var sources: map<Task, seq<Live>>
    /** What has gone out on the hub. */
    var published: seq<Published>
    ghost var history: seq<Told>

    constructor ()
      ensures Valid() && history == [] && published == []
    {
      entries, sources, published, history := map[], map[], [], [];
      new;
      assert forall task: Task :: SourcesOf(sources, task) == [];
    }

    /** Clients that fold the events have the snapshot; every task's entry is the worst of its live sources. */
    ghost predicate Valid()
      reads this
    {
      && Folded(published) == entries
      && (forall task: Task :: Tracks(SourcesOf(sources, task), history, task))
      && (forall task: Task ::
            Worst(SourcesOf(sources, task)) == EntryFor(entries, task))
    }

    /** `snapshot` */
    function Snapshot(): (r: map<Task, Entry>)
      reads this
    {
      entries
    }

    /** `_enter`, as far as clients see it. */
    method Enter(task: Task, entry: Entry)
      requires Folded(published) == entries
      modifies `entries, `published
      ensures Folded(published) == entries == old(entries)[task := entry] && published == old(published) + [AttentionRaised(task, entry)]
    {
      entries := entries[task := entry];
      published := published + [AttentionRaised(task, entry)];
    }

    /** `_leave`, as far as clients see it: an event only if there was an entry. */
    method Leave(task: Task)
      requires Folded(published) == entries
      modifies `entries, `published
      ensures Folded(published) == entries == old(entries) - {task}
      ensures published == if task in old(entries) then old(published) + [AttentionCleared(task)] else old(published)
    {
      if task in entries {
        published := published + [AttentionCleared(task)];
      }
      entries := entries - {task};
    }

    /** `_set_source`: one source changes, and the task's entry is published again only if it changed. */
    method SetSource(task: Task, source: Source, entry: Option<Entry>, ghost told: Told)
      requires Valid() && task == told.task && !told.ClearTask?
      requires forall other: Source :: Says(told, told.task, other) == if other == source then Some(entry) else None
      modifies this
      ensures Valid() && history == old(history) + [told]
      ensures |published| <= |old(published)| + 1
      ensures EntryFor(entries, task) == EntryFor(old(entries), task) <==> published == old(published)
      ensures forall t: Task :: t != task ==> (t in entries <==> t in old(entries)) && (t in entries ==> entries[t] == old(entries)[t])
    {
      hide Worst, Replaced, Without, Tracks, Says, Folded;
      var mine := SourcesOf(sources, task);
      ghost var before := sources;
      var now := match entry
        case None => Without(mine, source)
        case Some(e) => Replaced(mine, source, e);
      TracksUpdate(mine, now, history, told, source, entry);
      sources := sources[task := now];
      forall t: Task
        ensures Tracks(SourcesOf(sources, t), history + [told], t)
      {
        if t != task {
          TracksOther(SourcesOf(before, t), history, told, t);
        }
      }
      history := history + [told];
      var worst := Worst(now);
      WorstIsMaximal(now);
      assert forall t: Task :: t != task ==> SourcesOf(sources, t) == SourcesOf(before, t);
      if worst.None? {
        sources := sources - {task};
        assert SourcesOf(sources, task) == now;
        assert forall t: Task :: t != task ==> SourcesOf(sources, t) == SourcesOf(before, t);
        Leave(task);
        return;
      }
      if task in entries && entries[task] == worst.value {
        return;
      }
      Enter(task, worst.value);
    }

    /** `clear_task` */
    method Clear(task: Task)
      requires Valid()
      modifies this
      ensures Valid() && history == old(history) + [ClearTask(task)]
      ensures task !in entries && forall t: Task :: t != task ==> (t in entries <==> t in old(entries)) && (t in entries ==> entries[t] == old(entries)[t])
    {
      hide Worst, Tracks, Folded;
      ghost var before := sources;
      sources := sources - {task};
      TracksCleared(history, task);
      WorstOfNothing();
      forall t: Task
        ensures Tracks(SourcesOf(sources, t), history + [ClearTask(task)], t)
      {
        if t != task {
          TracksOther(SourcesOf(before, t), history, ClearTask(task), t);
          assert SourcesOf(sources, t) == SourcesOf(before, t);
        } else {
          assert SourcesOf(sources, t) == [];
        }
      }
      assert forall t: Task :: t != task ==> SourcesOf(sources, t) == SourcesOf(before, t);
      history := history + [ClearTask(task)];
      Leave(task);
    }

    /** `_on_status_changed`, `_on_workflow_step` or `clear_task` */
    method Tell(told: Told)
      requires Valid()
      modifies this
      ensures Valid() && history == old(history) + [told]
    {
      if told.StatusChanged? {
        var tier := TierFor(told.to);
        SetSource(told.task, Session(told.session), if tier == Silent then None else Some(Entry(tier, told.to, told.reason, Some(told.session))), told);
      } else if told.WorkflowStep? {
        SetSource(told.task, Gate,
                  if told.status == "waiting" then Some(Entry(Notify, "waiting", if told.message == "" then "workflow gate" else told.message, None)) else None,
                  told);
      } else {
        Clear(told.task);
      }
    }

    /** After any history: folding what was published gives the snapshot, and in it every task has one of its live entries of maximal tier, or none exactly when nothing is live. */
    method Run(all: seq<Told>)
      requires Valid() && history == []
      modifies this
      ensures Valid() && Folded(published) == Snapshot()
      ensures forall task: Task :: WorstLive(all, task, EntryFor(Snapshot(), task))
    {
      hide Worst, Tracks, Folded, LiveEntry, WorstLive;
      for i := 0 to |all|
        invariant Valid() && history == all[..i]
      {
        Tell(all[i]);
        assert all[..i + 1] == all[..i] + [all[i]];
      }
      assert all[..|all|] == all;
      forall task: Task
        ensures WorstLive(all, task, EntryFor(Snapshot(), task))
      {
        PublishedIsWorst(SourcesOf(sources, task), all, task);
      }
    }
  }

  function EntryFor(entries: map<Task, Entry>, task: Task): Option<Entry> {
    if task in entries then Some(entries[task]) else None
  }

  lemma WorstOfNothing()
    ensures Worst([]) == None
  {
  }
}
