/** Owned child processes on the Windows branch (process_lifecycle.py).

    A Job is a set of processes that all die when its last handle closes. The launch gate
    makes one spawn at a time and shuts spawning out of the first part of shutdown, but every
    step inside them interleaves with other receipt writers, exits, forks and the death of
    the owner. Each step may fail. */
module ProcessOwnership {
  import opened Texts

  type Pid = int

  /** `tree` is the root process whose tree Job holds this one; `direct` marks a tool-owned
      child, as opposed to a descendant of one. */
  datatype Process = Process(direct: bool, inSession: bool, tree: Option<Pid>, resumed: bool, alive: bool)

  datatype Status = Running | ShuttingDown | Complete | WithSurvivors

  /** How far the one spawn under the launch gate has come. */
  datatype Spawn =
    | Idle
    | Preparing
    | Created(pid: Pid)
    | InSession(pid: Pid)
    | InBothJobs(pid: Pid)
    | Registered(pid: Pid)

  datatype State = State(
    status: Status, closed: bool, ownerAlive: bool,
    sessionOpen: bool, openTrees: set<Pid>, processes: map<Pid, Process>,
    entries: set<Pid>, durable: set<Pid>, snapshot: Option<set<Pid>>, survivors: set<Pid>, spawn: Spawn)

  const START := State(Running, false, true, true, {}, map[], {}, {}, None, {}, Idle)

  /** A receipt write works, fails before the file is replaced, or fails after it. */
  datatype WriteResult = Written | FailedBefore | FailedAfter

  datatype Event =
    | BeginSpawn
    | Create(pid: Pid)
    | AssignSession
    | AssignTree
    | Register(write: WriteResult)
    | Resume
    | AbortSpawn(killed: bool)
    | OtherWrite(write: WriteResult)
    | BeginShutdown(write: WriteResult)
    | TerminateTree(pid: Pid, lingering: set<Pid>)
    | TerminateSession(lingering: set<Pid>)
    | Observe
    | CloseTree(pid: Pid)
    | CloseSession
    | FinishShutdown(write: WriteResult)
    | OwnerDies
    | Exit(pid: Pid)
    | Fork(parent: Pid, pid: Pid)

  function KillTree(processes: map<Pid, Process>, root: Pid): map<Pid, Process> {
    map p | p in processes :: if processes[p].tree == Some(root) then processes[p].(alive := false) else processes[p]
  }

  function KillSession(processes: map<Pid, Process>): map<Pid, Process> {
    map p | p in processes :: if processes[p].inSession then processes[p].(alive := false) else processes[p]
  }

  /** Terminating a Job ends its members, but some may linger past the time allowed. */
  function EndTree(processes: map<Pid, Process>, root: Pid, lingering: set<Pid>): map<Pid, Process> {
    map p | p in processes ::
      if processes[p].tree == Some(root) && p !in lingering then processes[p].(alive := false) else processes[p]
  }

  function EndSession(processes: map<Pid, Process>, lingering: set<Pid>): map<Pid, Process> {
    map p | p in processes ::
      if processes[p].inSession && p !in lingering then processes[p].(alive := false) else processes[p]
  }

  /** The living members of the session Job. */
  function Living(processes: map<Pid, Process>): set<Pid> {
    set p | p in processes && processes[p].inSession && processes[p].alive
  }

  /** All handles of a dead owner close: every Job kills its members. */
  function KillJobs(processes: map<Pid, Process>): map<Pid, Process> {
    map p | p in processes ::
      if processes[p].inSession || processes[p].tree.Some? then processes[p].(alive := false) else processes[p]
  }

  /** What a receipt write leaves on disk: the whole snapshot of entries, or the old file. */
  function DurableAfter(durable: set<Pid>, entries: set<Pid>, write: WriteResult): set<Pid> {
    if write == FailedBefore then durable else entries
  }

  predicate Enabled(s: State, e: Event) {
    match e
    case OwnerDies => s.ownerAlive
    case Exit(p) => p in s.processes
    case Fork(parent, p) => parent in s.processes && s.processes[parent].resumed && s.processes[parent].alive &&
        p !in s.processes
    case _ => s.ownerAlive && OwnerStep(s, e)
  }

  predicate OwnerStep(s: State, e: Event) {
    match e
    case BeginSpawn => s.spawn.Idle? && !s.closed && s.status == Running
    case Create(p) => s.spawn.Preparing? && p !in s.processes && p !in s.openTrees
    case AssignSession => s.spawn.Created? && s.spawn.pid in s.processes && s.sessionOpen
    case AssignTree => s.spawn.InSession? && s.spawn.pid in s.processes && s.spawn.pid in s.openTrees
    case Register(_) => s.spawn.InBothJobs?
    case Resume => s.spawn.Registered? && s.spawn.pid in s.processes && s.spawn.pid in s.openTrees
    case AbortSpawn(_) => !s.spawn.Idle?
    case OtherWrite(_) => true
    case BeginShutdown(_) => s.spawn.Idle? && !s.closed
    case TerminateTree(p, _) => p in s.entries
    case TerminateSession(_) => s.snapshot.Some?
    case Observe => s.snapshot.Some?
    case CloseTree(p) => s.snapshot.Some? && p in s.snapshot.value
    case CloseSession => s.snapshot.Some? && s.status != Running && s.snapshot.value !! s.openTrees
    case FinishShutdown(_) => !s.sessionOpen
    case _ => false
  }

  function Update(s: State, p: Pid, q: Process): State {
    s.(processes := s.processes[p := q])
  }

  function Step(s: State, e: Event): State
    requires Enabled(s, e)
  {
    match e
    case BeginSpawn => s.(spawn := Preparing)
    case Create(p) =>
      var t := Update(s, p, Process(true, false, None, false, true));
      t.(spawn := Created(p), openTrees := s.openTrees + {p})
    case AssignSession =>
      var p := s.spawn.pid;
      Update(s, p, s.processes[p].(inSession := true)).(spawn := InSession(p))
    case AssignTree =>
      var p := s.spawn.pid;
      Update(s, p, s.processes[p].(tree := Some(p))).(spawn := InBothJobs(p))
    case Register(write) =>
      var p := s.spawn.pid;
      var named := DurableAfter(s.durable, s.entries + {p}, write);
      if write == Written then s.(entries := s.entries + {p}, durable := named, spawn := Registered(p))
      else s.(durable := named)
    case Resume =>
      var p := s.spawn.pid;
      Update(s, p, s.processes[p].(resumed := true)).(spawn := Idle)
    case AbortSpawn(killed) =>
      if s.spawn.Preparing? then s.(spawn := Idle)
      else
        var p := s.spawn.pid;
        var hit := if killed && p in s.processes
                   then s.processes[p := s.processes[p].(alive := false)] else s.processes;
        s.(processes := KillTree(hit, p), openTrees := s.openTrees - {p}, spawn := Idle)
    case OtherWrite(write) => s.(durable := DurableAfter(s.durable, s.entries, write))
    case BeginShutdown(write) =>
      s.(status := ShuttingDown, durable := DurableAfter(s.durable, s.entries, write),
         snapshot := if write == Written then Some(s.entries) else s.snapshot)
    case TerminateTree(p, lingering) => s.(processes := EndTree(s.processes, p, lingering))
    case TerminateSession(lingering) => s.(processes := EndSession(s.processes, lingering))
    case Observe => s.(survivors := Living(s.processes))
    case CloseTree(p) => s.(processes := KillTree(s.processes, p), openTrees := s.openTrees - {p})
    case CloseSession => s.(processes := KillSession(s.processes), sessionOpen := false)
    case FinishShutdown(write) =>
      s.(status := if s.survivors == {} then Complete else WithSurvivors, closed := true,
         durable := DurableAfter(s.durable, s.entries, write))
    case OwnerDies => s.(ownerAlive := false, sessionOpen := false, openTrees := {}, processes := KillJobs(s.processes))
    case Exit(p) => Update(s, p, s.processes[p].(alive := false))
    case Fork(parent, p) => Update(s, p, s.processes[parent].(direct := false))
  }

  // ---- The invariant ----

  /** A resumed process is in the session Job and a tree Job; a tool-owned one is registered
      and named in the durable receipt. */
  ghost predicate ResumedOwned(s: State) {
    && s.entries <= s.durable
    && forall p :: p in s.processes && s.processes[p].resumed ==>
         && s.processes[p].inSession && s.processes[p].tree.Some?
         && (s.processes[p].direct ==> p in s.entries && s.processes[p].tree == Some(p))
  }

  /** Closed Jobs have no living member. */
  ghost predicate ClosedJobsDead(s: State) {
    forall p :: p in s.processes && s.processes[p].alive ==>
      && (s.processes[p].inSession ==> s.sessionOpen)
      && (s.processes[p].tree.Some? ==> s.processes[p].tree.value in s.openTrees)
  }

  /** The spawn in progress is as far as its stage says, and not yet resumed. */
  ghost predicate SpawnStaged(s: State) {
    (!s.spawn.Idle? && !s.spawn.Preparing?) ==>
      && s.spawn.pid in s.processes && s.processes[s.spawn.pid].direct && !s.processes[s.spawn.pid].resumed
      && (s.spawn.InSession? || s.spawn.InBothJobs? || s.spawn.Registered? ==> s.processes[s.spawn.pid].inSession)
      && (s.spawn.InBothJobs? || s.spawn.Registered? ==> s.processes[s.spawn.pid].tree == Some(s.spawn.pid))
      && (s.spawn.Registered? ==> s.spawn.pid in s.entries)
      && (s.ownerAlive ==> s.sessionOpen && s.spawn.pid in s.openTrees)
  }

  /** Shutdown excludes spawning from its first step on, and fixes its snapshot. */
  ghost predicate ShutdownExclusive(s: State) {
    && (s.status != Running ==> s.spawn.Idle?)
    && (s.snapshot.Some? ==> s.status != Running && s.snapshot.value == s.entries)
    && (s.ownerAlive && !s.sessionOpen ==> s.status != Running)
    && (s.closed ==> !s.sessionOpen)
  }

  ghost predicate Owned(s: State) {
    ResumedOwned(s) && ClosedJobsDead(s) && SpawnStaged(s) && ShutdownExclusive(s)
  }

  lemma StepKeepsResumed(s: State, e: Event)
    requires Owned(s) && Enabled(s, e)
    ensures ResumedOwned(Step(s, e))
  {}

  lemma StepKeepsJobs(s: State, e: Event)
    requires Owned(s) && Enabled(s, e)
    ensures ClosedJobsDead(Step(s, e))
  {}

  lemma StepKeepsSpawn(s: State, e: Event)
    requires Owned(s) && Enabled(s, e)
    ensures SpawnStaged(Step(s, e)) && ShutdownExclusive(Step(s, e))
  {}

  lemma StepKeeps(s: State, e: Event)
    requires Owned(s) && Enabled(s, e)
    ensures Owned(Step(s, e))
  {
    StepKeepsResumed(s, e);
    StepKeepsJobs(s, e);
    StepKeepsSpawn(s, e);
  }

  // ---- All runs ----

  ghost predicate Run(trace: seq<State>, events: seq<Event>) {
    && |trace| == |events| + 1
    && trace[0] == START
    && forall i :: 0 <= i < |events| ==> Enabled(trace[i], events[i]) && trace[i + 1] == Step(trace[i], events[i])
  }

  lemma {:induction false} Reachable(trace: seq<State>, events: seq<Event>, i: nat)
    requires Run(trace, events) && i < |trace|
    ensures Owned(trace[i])
  {
    if i > 0 {
      Reachable(trace, events, i - 1);
      StepKeeps(trace[i - 1], events[i - 1]);
      assert trace[i - 1 + 1] == Step(trace[i - 1], events[i - 1]);
    }
  }

  /** A tool-owned child is resumed only once it is in both Jobs and named in the durable
      receipt, and it is still named there ever after, whoever else writes. */
  lemma ResumedOnlyWhenOwned(trace: seq<State>, events: seq<Event>, i: nat, p: Pid)
    requires Run(trace, events) && i < |trace|
    requires p in trace[i].processes && trace[i].processes[p].direct && trace[i].processes[p].resumed
    ensures trace[i].processes[p].inSession && trace[i].processes[p].tree == Some(p)
    ensures p in trace[i].durable
  {
    Reachable(trace, events, i);
  }

  lemma SnapshotKept(s: State, e: Event)
    requires Owned(s) && Enabled(s, e) && s.snapshot.Some?
    ensures Step(s, e).snapshot == s.snapshot
  {}

  lemma {:induction false} SnapshotStays(trace: seq<State>, events: seq<Event>, i: nat, j: nat)
    requires Run(trace, events) && i <= j < |trace| && trace[i].snapshot.Some?
    ensures trace[j].snapshot == trace[i].snapshot
  {
    if i < j {
      SnapshotStays(trace, events, i, j - 1);
      Reachable(trace, events, j - 1);
      SnapshotKept(trace[j - 1], events[j - 1]);
      assert trace[j - 1 + 1] == Step(trace[j - 1], events[j - 1]);
    }
  }

  /** No owned child is added after shutdown took its snapshot. */
  lemma NothingAddedAfterSnapshot(trace: seq<State>, events: seq<Event>, i: nat, j: nat)
    requires Run(trace, events) && i <= j < |trace| && trace[i].snapshot.Some?
    ensures trace[j].entries == trace[i].snapshot.value
    ensures trace[j].spawn.Idle?
  {
    SnapshotStays(trace, events, i, j);
    Reachable(trace, events, j);
  }

  lemma {:induction false} SessionStaysClosed(trace: seq<State>, events: seq<Event>, i: nat, j: nat)
    requires Run(trace, events) && i <= j < |trace| && !trace[i].sessionOpen
    ensures !trace[j].sessionOpen
  {
    if i < j {
      SessionStaysClosed(trace, events, i, j - 1);
      assert trace[j - 1 + 1] == Step(trace[j - 1], events[j - 1]);
    }
  }

  /** Once the session Job's handle is closed, by shutdown or by the death of the owner, no
      process that ever ran under this session is alive, neither child nor descendant, in that
      state or in any later one. */
  lemma NothingSurvivesTheSession(trace: seq<State>, events: seq<Event>, i: nat, j: nat)
    requires Run(trace, events) && i <= j < |trace| && !trace[i].sessionOpen
    ensures forall p :: p in trace[j].processes && trace[j].processes[p].resumed ==> !trace[j].processes[p].alive
  {
    SessionStaysClosed(trace, events, i, j);
    Reachable(trace, events, j);
  }

  // ---- What each step does, process by process ----

  /** The step ends this process. */
  predicate Ends(s: State, e: Event, p: Pid)
    requires p in s.processes
  {
    var q := s.processes[p];
    match e
    case Exit(x) => p == x
    case AbortSpawn(killed) =>
      !s.spawn.Idle? && !s.spawn.Preparing? && ((killed && p == s.spawn.pid) || q.tree == Some(s.spawn.pid))
    case TerminateTree(root, lingering) => q.tree == Some(root) && p !in lingering
    case CloseTree(root) => q.tree == Some(root)
    case TerminateSession(lingering) => q.inSession && p !in lingering
    case CloseSession => q.inSession
    case OwnerDies => q.inSession || q.tree.Some?
    case _ => false
  }

  /** A step ends exactly those processes, revives none and forgets none. */
  lemma WhoDies(s: State, e: Event, p: Pid)
    requires Enabled(s, e) && p in s.processes
    ensures p in Step(s, e).processes
    ensures Step(s, e).processes[p].alive <==> s.processes[p].alive && !Ends(s, e, p)
  {}

  /** A process changes Jobs, or is resumed, only as the child of the spawn in progress. */
  lemma WhoMoves(s: State, e: Event, p: Pid)
    requires Enabled(s, e) && p in s.processes
    ensures p in Step(s, e).processes
    ensures var q, t := s.processes[p], Step(s, e).processes[p];
            && t.direct == q.direct
            && (t.inSession <==> q.inSession || (e.AssignSession? && p == s.spawn.pid))
            && t.tree == (if e.AssignTree? && p == s.spawn.pid then Some(p) else q.tree)
  {}

  lemma WhoIsResumed(s: State, e: Event, p: Pid)
    requires Enabled(s, e) && p in s.processes
    ensures p in Step(s, e).processes
    ensures Step(s, e).processes[p].resumed <==> s.processes[p].resumed || (e.Resume? && p == s.spawn.pid)
  {}

  /** A new process is a suspended child in no Job, or the fork of a running one, in all its Jobs. */
  lemma WhoIsBorn(s: State, e: Event, p: Pid)
    requires Enabled(s, e) && p !in s.processes && p in Step(s, e).processes
    ensures var t := Step(s, e).processes[p];
            || (e == Create(p) && s.ownerAlive && t.alive && t.direct && !t.resumed && !t.inSession && t.tree.None?)
            || (&& e.Fork? && e.pid == p && e.parent in s.processes
                && s.processes[e.parent].resumed && s.processes[e.parent].alive
                && t.alive && t.resumed && !t.direct
                && t.inSession == s.processes[e.parent].inSession && t.tree == s.processes[e.parent].tree)
  {}

  /** A spawn goes through its stages in order, one child at a time, and only while nothing is shut
      down; it ends when the child is resumed, or by the exception path. */
  lemma StagesInOrder(s: State, e: Event)
    requires Enabled(s, e)
    ensures e.BeginSpawn? ==> s.spawn.Idle? && !s.closed && s.status == Running && s.ownerAlive
    ensures e.AssignSession? ==> s.spawn.Created? && s.sessionOpen
    ensures e.AssignTree? ==> s.spawn.InSession? && s.spawn.pid in s.openTrees
    ensures e.Register? ==> s.spawn.InBothJobs?
    ensures e.Resume? ==> s.spawn.Registered? && s.spawn.pid in s.openTrees
    ensures e.BeginShutdown? ==> s.spawn.Idle? && !s.closed
    ensures Step(s, e).spawn ==
              match e
              case BeginSpawn => Preparing
              case Create(p) => Created(p)
              case AssignSession => InSession(s.spawn.pid)
              case AssignTree => InBothJobs(s.spawn.pid)
              case Register(Written) => Registered(s.spawn.pid)
              case Resume => Idle
              case AbortSpawn(_) => Idle
              case _ => s.spawn
  {}

  /** Which Jobs are open after a step: a tree Job from the creation of its root until it is closed,
      the session Job until shutdown closes it, and none once the owner is dead. */
  lemma OpenJobs(s: State, e: Event, p: Pid)
    requires Enabled(s, e)
    ensures Step(s, e).sessionOpen <==> s.sessionOpen && !e.CloseSession? && !e.OwnerDies?
    ensures p in Step(s, e).openTrees <==>
              && (p in s.openTrees || e == Create(p))
              && e != CloseTree(p) && !e.OwnerDies?
              && !(e.AbortSpawn? && !s.spawn.Preparing? && p == s.spawn.pid)
    ensures e.CloseSession? ==> s.snapshot.Some? && s.status != Running && s.snapshot.value !! s.openTrees
  {}

  /** What a step leaves of the receipt and the entries: a write that replaced the file left all
      entries of the moment in it, the entry being added included; any other step leaves both. */
  lemma ReceiptMeans(s: State, e: Event)
    requires Enabled(s, e)
    ensures var t := Step(s, e);
            match e
            case Register(write) =>
              && t.durable == (if write == FailedBefore then s.durable else s.entries + {s.spawn.pid})
              && t.entries == (if write == Written then s.entries + {s.spawn.pid} else s.entries)
            case OtherWrite(write) =>
              t.durable == (if write == FailedBefore then s.durable else s.entries) && t.entries == s.entries
            case BeginShutdown(write) =>
              && t.durable == (if write == FailedBefore then s.durable else s.entries) && t.entries == s.entries
              && t.status == ShuttingDown && (write == Written ==> t.snapshot == Some(s.entries))
            case FinishShutdown(write) =>
              && t.durable == (if write == FailedBefore then s.durable else s.entries) && t.entries == s.entries
              && t.closed && (t.status == Complete <==> s.survivors == {}) &&
                  (t.status == WithSurvivors <==> s.survivors != {})
            case _ => t.durable == s.durable && t.entries == s.entries && t.status == s.status && t.closed == s.closed
  {}

  /** Shutdown looks at every process, child or descendant: those it records as survivors are the
      living ones among all that were ever resumed, and those still waiting in the session Job. */
  lemma SurvivorsAreTheLiving(trace: seq<State>, events: seq<Event>, i: nat, p: Pid)
    requires Run(trace, events) && i < |events| && events[i].Observe?
    ensures p in trace[i + 1].survivors <==>
              p in trace[i].processes && trace[i].processes[p].inSession && trace[i].processes[p].alive
    ensures p in trace[i].processes && trace[i].processes[p].resumed && trace[i].processes[p].alive ==>
              p in trace[i + 1].survivors
  {
    Reachable(trace, events, i);
  }

  /** Only another look changes what is recorded. */
  lemma SurvivorsStay(s: State, e: Event)
    requires Enabled(s, e) && !e.Observe?
    ensures Step(s, e).survivors == s.survivors
  {}

  // ---- The supervisor's own code, as steps of that system ----

  function Play(s: State, events: seq<Event>): Option<State>
    decreases |events|
  {
    if events == [] then Some(s)
    else if !Enabled(s, events[0]) then None
    else Play(Step(s, events[0]), events[1..])
  }

  lemma {:induction false} PlaySnoc(s: State, events: seq<Event>, e: Event)
    requires Play(s, events).Some? && Enabled(Play(s, events).value, e)
    ensures Play(s, events + [e]) == Some(Step(Play(s, events).value, e))
    decreases |events|
  {
    if events == [] {
      assert [] + [e] == [e] && [e][1..] == [];
    } else {
      assert (events + [e])[1..] == events[1..] + [e];
      PlaySnoc(Step(s, events[0]), events[1..], e);
    }
  }

  /** Which calls of one spawn work. */
  datatype SpawnFaults = SpawnFaults(
    creates: bool, session: bool, tree: bool, identity: bool, write: WriteResult, resumes: bool, kills: bool)

  class ProcessSupervisor {
    var status: Status
    var closed: bool
    var sessionOpen: bool
    var openTrees: set<Pid>
    var processes: map<Pid, Process>
    var entries: set<Pid>
    var durable: set<Pid>
    var snapshot: Option<set<Pid>>
    var survivors: set<Pid>
    var spawn: Spawn

    ghost function At(): State
      reads this
    {
      State(status, closed, true, sessionOpen, openTrees, processes, entries, durable, snapshot, survivors, spawn)
    }

    constructor ()
      ensures At() == START
    {
      status, closed, sessionOpen := Running, false, true;
      openTrees, processes, entries, durable := {}, map[], {}, {};
      snapshot, survivors, spawn := None, {}, Idle;
    }

    method CreateSuspended(pid: Pid)
      requires Enabled(At(), Create(pid))
      modifies this
      ensures At() == Step(old(At()), Create(pid))
    {
      processes := processes[pid := Process(true, false, None, false, true)];
      openTrees, spawn := openTrees + {pid}, Created(pid);
    }

    method AssignToSession()
      requires Enabled(At(), AssignSession)
      modifies this
      ensures At() == Step(old(At()), AssignSession)
    {
      var pid := spawn.pid;
      processes := processes[pid := processes[pid].(inSession := true)];
      spawn := InSession(pid);
    }

    method AssignToTree()
      requires Enabled(At(), AssignTree)
      modifies this
      ensures At() == Step(old(At()), AssignTree)
    {
      var pid := spawn.pid;
      processes := processes[pid := processes[pid].(tree := Some(pid))];
      spawn := InBothJobs(pid);
    }

    /** `_register_owned`: add the entry, write the receipt, and take the entry back if the
        write raises. */
    method RegisterOwned(write: WriteResult) returns (ok: bool)
      requires Enabled(At(), Register(write)) && spawn.pid !in entries
      modifies this
      ensures At() == Step(old(At()), Register(write)) && ok == (write == Written)
    {
      var pid := spawn.pid;
      entries := entries + {pid};
      durable := DurableAfter(durable, entries, write);
      ok := write == Written;
      if ok {
        spawn := Registered(pid);
      } else {
        entries := entries - {pid};
      }
    }

    method ResumeChild()
      requires Enabled(At(), Resume)
      modifies this
      ensures At() == Step(old(At()), Resume)
    {
      processes := processes[spawn.pid := processes[spawn.pid].(resumed := true)];
      spawn := Idle;
    }

    /** The exception path of a spawn: kill the child if it is there, close its tree Job. */
    method Abort(kills: bool)
      requires Enabled(At(), AbortSpawn(kills))
      modifies this
      ensures At() == Step(old(At()), AbortSpawn(kills))
    {
      if !spawn.Preparing? {
        var pid := spawn.pid;
        if kills && pid in processes {
          processes := processes[pid := processes[pid].(alive := false)];
        }
        processes, openTrees := KillTree(processes, pid), openTrees - {pid};
      }
      spawn := Idle;
    }

    /** The part of a spawn between its start and its resume, as far as the faults let it. */
    method PrepareChild(pid: Pid, f: SpawnFaults) returns (ready: bool, ghost steps: seq<Event>)
      requires Owned(At()) && spawn.Preparing? && pid !in processes && pid !in openTrees && pid !in entries &&
          sessionOpen
      modifies this
      ensures Play(old(At()), steps) == Some(At())
      ensures ready <==> f.creates && f.session && f.tree && f.identity && f.write == Written
      ensures ready ==> spawn == Registered(pid) && pid in processes && pid in openTrees
      ensures ready ==> pid in entries && pid in durable
      ensures !spawn.Idle? && (pid in processes ==> !processes[pid].resumed)
    {
      ghost var s := At();
      ready, steps := AssignJobs(pid, f);
      if !ready || !f.identity {
        return false, steps;
      }
      PlaySnoc(s, steps, Register(f.write));
      ready := RegisterOwned(f.write);
      steps := steps + [Register(f.write)];
    }

    /** Create the child suspended and put it into both Jobs. */
    method AssignJobs(pid: Pid, f: SpawnFaults) returns (ready: bool, ghost steps: seq<Event>)
      requires spawn.Preparing? && pid !in processes && pid !in openTrees && pid !in entries && sessionOpen
      modifies this
      ensures Play(old(At()), steps) == Some(At())
      ensures ready <==> f.creates && f.session && f.tree
      ensures ready ==> spawn == InBothJobs(pid) && pid in processes && pid in openTrees
      ensures pid !in entries && !spawn.Idle? && (pid in processes ==> !processes[pid].resumed)
    {
      ghost var s := At();
      steps, ready := [], false;
      if !f.creates { return; }
      PlaySnoc(s, steps, Create(pid));
      CreateSuspended(pid);
      steps := steps + [Create(pid)];
      if !f.session { return; }
      PlaySnoc(s, steps, AssignSession);
      AssignToSession();
      steps := steps + [AssignSession];
      if !f.tree { return; }
      PlaySnoc(s, steps, AssignTree);
      AssignToTree();
      steps := steps + [AssignTree];
      ready := true;
    }

    /** `_spawn_owned_locked` for a new process id, uninterrupted: its effect is that of the
        steps it takes, and it returns the child only if the child was resumed. */
    method SpawnOwned(pid: Pid, f: SpawnFaults) returns (ok: bool, ghost steps: seq<Event>)
      requires Owned(At()) && spawn.Idle? && pid !in processes && pid !in openTrees && pid !in entries
      modifies this
      ensures Play(old(At()), steps) == Some(At())
      ensures ok <==>
                && !old(closed) && old(status) == Running && f.creates && f.session && f.tree && f.identity
                && f.write == Written && f.resumes
      ensures ok ==> pid in processes && processes[pid].resumed && pid in durable && pid in entries
      ensures !ok ==> pid !in processes || !processes[pid].resumed
      ensures spawn.Idle?
    {
      steps, ok := [], false;
      ghost var s := At();
      if closed || status != Running {
        return;
      }
      spawn := Preparing;
      assert At() == Step(s, BeginSpawn);
      ghost var begun := At();
      assert Owned(begun);
      var ready;
      ready, steps := PrepareChild(pid, f);
      ghost var prepared := At();
      if ready && f.resumes {
        ResumeChild();
        PlayThen(s, BeginSpawn, steps, Resume);
        steps := [BeginSpawn] + steps + [Resume];
        ok := true;
      } else {
        Abort(f.kills);
        PlayThen(s, BeginSpawn, steps, AbortSpawn(f.kills));
        steps := [BeginSpawn] + steps + [AbortSpawn(f.kills)];
      }
    }

    /** Terminate every tree Job that still has a living member, then the session Job if it has
        one, and look who is left. */
    method TerminateAll(lingering: set<Pid>) returns (ghost steps: seq<Event>)
      requires Owned(At()) && snapshot == Some(entries)
      modifies this`processes, this`survivors
      ensures Play(old(At()), steps) == Some(At())
      ensures Owned(At()) && survivors <= lingering
      ensures forall p :: p in survivors <==> p in processes && processes[p].inSession && processes[p].alive
    {
      ghost var s := At();
      steps := TerminateTrees(lingering);
      if Living(processes) != {} {
        ghost var t := At();
        processes := EndSession(processes, lingering);
        assert At() == Step(t, TerminateSession(lingering));
        StepKeeps(t, TerminateSession(lingering));
        PlaySnoc(s, steps, TerminateSession(lingering));
        steps := steps + [TerminateSession(lingering)];
      }
      ghost var t := At();
      survivors := Living(processes);
      assert At() == Step(t, Observe);
      StepKeeps(t, Observe);
      PlaySnoc(s, steps, Observe);
      steps := steps + [Observe];
    }

    method TerminateTrees(lingering: set<Pid>) returns (ghost steps: seq<Event>)
      requires Owned(At())
      modifies this`processes
      ensures Play(old(At()), steps) == Some(At()) && Owned(At())
    {
      ghost var s := At();
      steps := [];
      var todo := entries;
      while todo != {}
        invariant todo <= entries && Owned(At()) && Play(s, steps) == Some(At())
        decreases todo
      {
        var p := Take(todo);
        if exists q :: q in processes && processes[q].tree == Some(p) && processes[q].alive {
          ghost var t := At();
          processes := EndTree(processes, p, lingering);
          assert At() == Step(t, TerminateTree(p, lingering));
          StepKeeps(t, TerminateTree(p, lingering));
          PlaySnoc(s, steps, TerminateTree(p, lingering));
          steps := steps + [TerminateTree(p, lingering)];
        }
        todo := todo - {p};
      }
    }

    /** Close the tree Job of every entry in the snapshot. */
    method CloseTrees() returns (ghost steps: seq<Event>)
      requires Owned(At()) && snapshot == Some(entries)
      modifies this`processes, this`openTrees
      ensures Play(old(At()), steps) == Some(At())
      ensures Owned(At()) && entries !! openTrees
    {
      ghost var s := At();
      steps := [];
      var todo := entries;
      while todo != {}
        invariant todo <= entries && Owned(At()) && Play(s, steps) == Some(At())
        invariant entries - todo !! openTrees
        decreases todo
      {
        var p := Take(todo);
        ghost var t := At();
        StepKeeps(t, CloseTree(p));
        PlaySnoc(s, steps, CloseTree(p));
        steps := steps + [CloseTree(p)];
        processes, openTrees, todo := KillTree(processes, p), openTrees - {p}, todo - {p};
        assert At() == Step(t, CloseTree(p));
      }
    }

    /** Close the session Job, then record the end. */
    method CloseSessionJob(last: WriteResult)
      requires Owned(At()) && Enabled(At(), CloseSession)
      modifies this
      ensures var closing := Step(old(At()), CloseSession);
              Enabled(closing, FinishShutdown(last)) && At() == Step(closing, FinishShutdown(last))
      ensures closed && !sessionOpen && snapshot == old(snapshot)
      ensures status == if old(survivors) == {} then Complete else WithSurvivors
      ensures forall p :: p in processes && processes[p].resumed ==> !processes[p].alive
    {
      processes, sessionOpen := KillSession(processes), false;
      status := if survivors == {} then Complete else WithSurvivors;
      closed, durable := true, DurableAfter(durable, entries, last);
    }

    /** The gated start of `shutdown`: refuse new spawns, then fix the snapshot of entries. */
    method StartShutdown(first: WriteResult) returns (ok: bool)
      requires Owned(At()) && Enabled(At(), BeginShutdown(first))
      modifies this
      ensures At() == Step(old(At()), BeginShutdown(first)) && Owned(At())
      ensures ok == (first == Written)
    {
      ghost var s := At();
      status, durable := ShuttingDown, DurableAfter(durable, entries, first);
      ok := first == Written;
      if ok {
        snapshot := Some(entries);
      }
      StepKeeps(s, BeginShutdown(first));
    }

    /** `shutdown`, uninterrupted: it goes through exactly when its first receipt write works or
        it already had, and then nothing that ran under this session is alive. It reports
        survivors exactly when some process outlived the termination, which then only the
        closing of the Job ends. */
    method Shutdown(
        first: WriteResult, last: WriteResult, lingering: set<Pid>) returns (done: bool, ghost steps: seq<Event>)
      requires Owned(At()) && spawn.Idle?
      modifies this
      ensures Play(old(At()), steps) == Some(At())
      ensures done <==> old(closed) || first == Written
      ensures old(closed) ==> steps == []
      ensures done ==> closed && !sessionOpen
      ensures done && !old(closed) ==> snapshot == Some(old(entries)) && survivors <= lingering
      ensures done && !old(closed) ==> status == if survivors == {} then Complete else WithSurvivors
      ensures done ==> forall p :: p in processes && processes[p].resumed ==> !processes[p].alive
    {
      ghost var s := At();
      if closed {
        return true, [];
      }
      done := StartShutdown(first);
      if !done {
        PlayOne(s, BeginShutdown(first));
        return false, [BeginShutdown(first)];
      }
      ghost var ended := FinishUp(last, lingering);
      PlayFirst(s, BeginShutdown(first), ended);
      steps := [BeginShutdown(first)] + ended;
    }

    /** All of `shutdown` behind its gate. */
    method FinishUp(last: WriteResult, lingering: set<Pid>) returns (ghost steps: seq<Event>)
      requires Owned(At()) && snapshot == Some(entries) && status == ShuttingDown
      modifies this
      ensures Play(old(At()), steps) == Some(At())
      ensures closed && !sessionOpen && snapshot == old(snapshot) && survivors <= lingering
      ensures status == if survivors == {} then Complete else WithSurvivors
      ensures forall p :: p in processes && processes[p].resumed ==> !processes[p].alive
    {
      ghost var s := At();
      steps := EndAll(lingering);
      CloseSessionJob(last);
      PlaySnoc(s, steps, CloseSession);
      PlaySnoc(s, steps + [CloseSession], FinishShutdown(last));
      steps := steps + [CloseSession] + [FinishShutdown(last)];
    }

    /** Everything between the snapshot and the closing of the session Job. */
    method EndAll(lingering: set<Pid>) returns (ghost steps: seq<Event>)
      requires Owned(At()) && snapshot == Some(entries) && status == ShuttingDown
      modifies this`processes, this`openTrees, this`survivors
      ensures Play(old(At()), steps) == Some(At())
      ensures Owned(At()) && entries !! openTrees
      ensures survivors <= lingering
    {
      ghost var s := At();
      steps := TerminateAll(lingering);
      ghost var closing := CloseTrees();
      PlayAppend(s, steps, closing);
      steps := steps + closing;
    }
  }

  lemma {:induction false} PlayAppend(s: State, a: seq<Event>, b: seq<Event>)
    requires Play(s, a).Some?
    ensures Play(s, a + b) == Play(Play(s, a).value, b)
    decreases |a|
  {
    if a == [] {
      assert a + b == b;
    } else {
      assert (a + b)[1..] == a[1..] + b;
      PlayAppend(Step(s, a[0]), a[1..], b);
    }
  }

  lemma PlayFirst(s: State, e: Event, rest: seq<Event>)
    requires Enabled(s, e)
    ensures Play(s, [e] + rest) == Play(Step(s, e), rest)
  {
    assert ([e] + rest)[1..] == rest;
  }

  lemma PlayOne(s: State, e: Event)
    requires Enabled(s, e)
    ensures Play(s, [e]) == Some(Step(s, e))
  {
    assert [e][1..] == [];
  }

  lemma PlayThen(s: State, first: Event, middle: seq<Event>, last: Event)
    requires Enabled(s, first) && Play(Step(s, first), middle).Some?
    requires Enabled(Play(Step(s, first), middle).value, last)
    ensures Play(s, [first] + middle + [last]) == Some(Step(Play(Step(s, first), middle).value, last))
  {
    assert ([first] + middle)[1..] == middle;
    PlaySnoc(s, [first] + middle, last);
  }
}
