/** The single-flight digest memo (artifact_content_key.py).

    Every lock region of the source is one method of `ConcurrentContentDigestMemo`, proved
    against a function on `MemoState`. The functions are then the steps of a transition
    system over any number of concurrent callers, and the protocol's promises are proved
    for every state of every interleaving. */
module DigestMemo {

  type Key = string

  /** A stored result. Python's `None` is a legal result, and the code treats it specially. */
  datatype Value = NoneValue | Digest(text: string)

  datatype Error = ComputeError(tag: int) | ConflictError

  datatype Outcome = Returned(value: Value) | Raised(error: Error)

  /** A `concurrent.futures.Future`, with the key it was created for. */
  datatype Future = Future(key: Key, result: FutureResult)
  datatype FutureResult = Unset | Set(outcome: Outcome)

  datatype Counts = Counts(hits: nat, misses: nat, waits: nat, seeds: nat)

  /** The memo's fields, and every future ever made: a future's number is its index. */
  datatype MemoState = MemoState(
    values: map<Key, Value>, pending: map<Key, nat>, counts: Counts, futures: seq<Future>)

  /** What a caller holds when it leaves the first lock region. */
  datatype Ticket = Hit(value: Value) | Join(future: nat) | Own(future: nat)

  const EMPTY := MemoState(map[], map[], Counts(0, 0, 0, 0), [])

  // ---- The lock regions as functions ----

  function EnterState(m: MemoState, key: Key, verified: bool): MemoState {
    if key in m.pending then
      m.(counts := m.counts.(waits := m.counts.waits + 1))
    else if !verified && key in m.values then
      m.(counts := m.counts.(hits := m.counts.hits + 1))
    else
      m.(pending := m.pending[key := |m.futures|],
         futures := m.futures + [Future(key, Unset)],
         counts := m.counts.(misses := m.counts.misses + 1))
  }

  function EnterTicket(m: MemoState, key: Key, verified: bool): Ticket {
    if key in m.pending then Join(m.pending[key])
    else if !verified && key in m.values then Hit(m.values[key])
    else Own(|m.futures|)
  }

  /** The stored value that the code compares with: `None` counts as nothing stored. */
  predicate Clashes(values: map<Key, Value>, key: Key, result: Value) {
    key in values && values[key] != NoneValue && values[key] != result
  }

  function FinishOutcome(m: MemoState, key: Key, computed: Outcome): Outcome {
    if computed.Returned? && Clashes(m.values, key, computed.value) then Raised(ConflictError) else computed
  }

  function FinishState(m: MemoState, key: Key, future: nat, computed: Outcome): MemoState
    requires future < |m.futures|
  {
    var outcome := FinishOutcome(m, key, computed);
    m.(pending := m.pending - {key},
       values := if outcome.Returned? then m.values[key := outcome.value] else m.values - {key},
       futures := m.futures[future := m.futures[future].(result := Set(outcome))])
  }

  function SeedState(m: MemoState, key: Key, value: Value): MemoState {
    if Clashes(m.values, key, value) then m
    else if key in m.values && m.values[key] != NoneValue then m
    else m.(values := m.values[key := value], counts := m.counts.(seeds := m.counts.seeds + 1))
  }

  // ---- The lock regions as the source writes them ----

  class ConcurrentContentDigestMemo {
    var values: map<Key, Value>
    var pending: map<Key, nat>
    var counts: Counts
    var futures: seq<Future>

    ghost function State(): MemoState
      reads this
    {
      MemoState(values, pending, counts, futures)
    }

    constructor ()
      ensures State() == EMPTY
    {
      values, pending, counts, futures := map[], map[], Counts(0, 0, 0, 0), [];
    }

    /** The first lock region of `get_or_compute`. */
    method Enter(key: Key) returns (ticket: Ticket)
      modifies this
      ensures State() == EnterState(old(State()), key, false)
      ensures ticket == EnterTicket(old(State()), key, false)
    {
      if key in pending {
        counts := counts.(waits := counts.waits + 1);
        ticket := Join(pending[key]);
      } else if key in values {
        counts := counts.(hits := counts.hits + 1);
        ticket := Hit(values[key]);
      } else {
        ticket := OpenFuture(key);
      }
    }

    /** The first lock region of `get_or_compute_verified`: a stored value is no authority. */
    method EnterVerified(key: Key) returns (ticket: Ticket)
      modifies this
      ensures State() == EnterState(old(State()), key, true)
      ensures ticket == EnterTicket(old(State()), key, true)
    {
      if key !in pending {
        ticket := OpenFuture(key);
      } else {
        counts := counts.(waits := counts.waits + 1);
        ticket := Join(pending[key]);
      }
    }

    method OpenFuture(key: Key) returns (ticket: Ticket)
      requires key !in pending
      modifies this
      ensures State() == EnterState(old(State()), key, true)
      ensures ticket == Own(|old(futures)|)
    {
      ticket := Own(|futures|);
      pending := pending[key := |futures|];
      futures := futures + [Future(key, Unset)];
      counts := counts.(misses := counts.misses + 1);
    }

    /** The owner's second lock region, reached with the computed result or exception. The
        requires is what `Future.set_result` demands; `Reachable` shows it always holds. */
    method Finish(key: Key, future: nat, computed: Outcome) returns (outcome: Outcome)
      requires future < |futures| && futures[future].result == Unset
      modifies this
      ensures State() == FinishState(old(State()), key, future, computed)
      ensures outcome == FinishOutcome(old(State()), key, computed)
    {
      outcome := computed;
      if computed.Raised? {
        pending := pending - {key};
        values := values - {key};
      } else {
        var existing := if key in values then values[key] else NoneValue;
        if existing != NoneValue && existing != computed.value {
          pending := pending - {key};
          values := values - {key};
          outcome := Raised(ConflictError);
        } else {
          values := values[key := computed.value];
          pending := pending - {key};
        }
      }
      futures := futures[future := futures[future].(result := Set(outcome))];
    }

    method Seed(key: Key, value: Value) returns (ok: bool)
      modifies this
      ensures State() == SeedState(old(State()), key, value)
      ensures ok == !Clashes(old(values), key, value)
    {
      var existing := if key in values then values[key] else NoneValue;
      if existing != NoneValue && existing != value {
        return false;
      }
      if existing == NoneValue {
        values := values[key := value];
        counts := counts.(seeds := counts.seeds + 1);
      }
      return true;
    }
  }

  // ---- All interleavings ----

  /** One call of `get_or_compute` or `get_or_compute_verified`, as far as it has run. */
  datatype Call =
    | Computing(key: Key, future: nat)
    | AwaitingResult(key: Key, future: nat)
    | FromFuture(key: Key, future: nat, outcome: Outcome)
    | FromMemo(key: Key, value: Value)

  datatype System = System(memo: MemoState, calls: seq<Call>)

  datatype Event =
    | Begin(key: Key, verified: bool)
    | ComputeDone(call: nat, computed: Outcome)
    | WakeUp(call: nat)
    | SeedCall(seedKey: Key, value: Value)

  predicate Enabled(s: System, e: Event) {
    match e
    case Begin(_, _) => true
    case ComputeDone(c, _) => c < |s.calls| && s.calls[c].Computing? && s.calls[c].future < |s.memo.futures|
    case WakeUp(c) =>
      && c < |s.calls| && s.calls[c].AwaitingResult? && s.calls[c].future < |s.memo.futures|
      && s.memo.futures[s.calls[c].future].result.Set?
    case SeedCall(_, _) => true
  }

  function Step(s: System, e: Event): System
    requires Enabled(s, e)
  {
    match e
    case Begin(key, verified) =>
      var call := match EnterTicket(s.memo, key, verified)
        case Hit(v) => FromMemo(key, v)
        case Join(f) => AwaitingResult(key, f)
        case Own(f) => Computing(key, f);
      System(EnterState(s.memo, key, verified), s.calls + [call])
    case ComputeDone(c, computed) =>
      var call := s.calls[c];
      System(FinishState(s.memo, call.key, call.future, computed),
             s.calls[c := FromFuture(call.key, call.future, FinishOutcome(s.memo, call.key, computed))])
    case WakeUp(c) =>
      var call := s.calls[c];
      s.(calls := s.calls[c := FromFuture(call.key, call.future, s.memo.futures[call.future].result.outcome)])
    case SeedCall(key, value) => s.(memo := SeedState(s.memo, key, value))
  }

  /** `trace` is a run: `events[i]` takes `trace[i]` to `trace[i + 1]`. */
  ghost predicate Run(trace: seq<System>, events: seq<Event>) {
    && |trace| == |events| + 1
    && trace[0] == System(EMPTY, [])
    && forall i :: 0 <= i < |events| ==> Enabled(trace[i], events[i]) && trace[i + 1] == Step(trace[i], events[i])
  }

  predicate Owns(s: System, c: nat, f: nat) {
    c < |s.calls| && s.calls[c].Computing? && s.calls[c].future == f
  }

  /** Every pending future is unset and some caller is computing it. */
  ghost predicate PendingOwned(s: System) {
    forall k :: k in s.memo.pending ==>
      && s.memo.pending[k] < |s.memo.futures|
      && s.memo.futures[s.memo.pending[k]] == Future(k, Unset)
      && exists c: nat :: Owns(s, c, s.memo.pending[k])
  }

  ghost predicate UnsetPending(s: System) {
    forall f :: 0 <= f < |s.memo.futures| && s.memo.futures[f].result.Unset? ==>
      s.memo.futures[f].key in s.memo.pending && s.memo.pending[s.memo.futures[f].key] == f
  }

  ghost predicate CallCoherent(s: System, c: nat)
    requires c < |s.calls|
  {
    var call := s.calls[c];
    !call.FromMemo? ==>
      && call.future < |s.memo.futures|
      && s.memo.futures[call.future].key == call.key
      && (call.Computing? ==> s.memo.futures[call.future].result.Unset?)
      && (call.FromFuture? ==> s.memo.futures[call.future].result == Set(call.outcome))
  }

  ghost predicate CallsCoherent(s: System) {
    forall c :: 0 <= c < |s.calls| ==> CallCoherent(s, c)
  }

  ghost predicate OwnersDistinct(s: System) {
    forall c, d :: 0 <= c < d < |s.calls| && s.calls[c].Computing? && s.calls[d].Computing? ==>
      s.calls[c].future != s.calls[d].future
  }

  /** The invariant: unset futures are exactly the pending ones, each with one computing
      owner; finished calls hold their future's outcome; the counters account for all calls. */
  ghost predicate Coherent(s: System) {
    && PendingOwned(s) && UnsetPending(s) && CallsCoherent(s) && OwnersDistinct(s)
    && s.memo.counts.hits + s.memo.counts.misses + s.memo.counts.waits == |s.calls|
    && s.memo.counts.misses == |s.memo.futures|
  }

  lemma BeginOwned(s: System, e: Event)
    requires Coherent(s) && e.Begin?
    ensures PendingOwned(Step(s, e))
  {
    var t := Step(s, e);
    forall k | k in t.memo.pending ensures exists c: nat :: Owns(t, c, t.memo.pending[k]) {
      if k in s.memo.pending {
        var c: nat :| Owns(s, c, s.memo.pending[k]);
        assert Owns(t, c, t.memo.pending[k]);
      } else {
        assert Owns(t, |s.calls|, t.memo.pending[k]);
      }
    }
  }

  lemma BeginCalls(s: System, e: Event)
    requires Coherent(s) && e.Begin?
    ensures CallsCoherent(Step(s, e))
  {
    var t := Step(s, e);
    forall c | 0 <= c < |s.calls| ensures CallCoherent(t, c) { assert CallCoherent(s, c); }
  }

  lemma BeginCoherent(s: System, e: Event)
    requires Coherent(s) && e.Begin?
    ensures Coherent(Step(s, e))
  {
    var t := Step(s, e);
    BeginCalls(s, e);
    assert OwnersDistinct(t) by {
      forall c | 0 <= c < |s.calls| && s.calls[c].Computing? ensures s.calls[c].future < |s.memo.futures| {
        assert CallCoherent(s, c);
      }
    }
    BeginOwned(s, e);
  }

  lemma DoneCoherent(s: System, e: Event)
    requires Coherent(s) && e.ComputeDone? && Enabled(s, e)
    ensures Coherent(Step(s, e))
  {
    var t := Step(s, e);
    assert CallCoherent(s, e.call);
    assert CallsCoherent(t) by {
      forall c | 0 <= c < |s.calls| ensures CallCoherent(t, c) { assert CallCoherent(s, c); }
    }
    assert PendingOwned(t) by {
      forall k | k in t.memo.pending ensures exists c: nat :: Owns(t, c, t.memo.pending[k]) {
        var c: nat :| Owns(s, c, s.memo.pending[k]);
        assert Owns(t, c, t.memo.pending[k]);
      }
    }
  }

  lemma OtherCoherent(s: System, e: Event)
    requires Coherent(s) && (e.WakeUp? || e.SeedCall?) && Enabled(s, e)
    ensures Coherent(Step(s, e))
  {
    var t := Step(s, e);
    assert CallsCoherent(t) by {
      forall c | 0 <= c < |s.calls| ensures CallCoherent(t, c) { assert CallCoherent(s, c); }
    }
    assert PendingOwned(t) by {
      forall k | k in t.memo.pending ensures exists c: nat :: Owns(t, c, t.memo.pending[k]) {
        var c: nat :| Owns(s, c, s.memo.pending[k]);
        assert Owns(t, c, t.memo.pending[k]);
      }
    }
  }

  lemma StepCoherent(s: System, e: Event)
    requires Coherent(s) && Enabled(s, e)
    ensures Coherent(Step(s, e))
  {
    match e
    case Begin(_, _) => BeginCoherent(s, e);
    case ComputeDone(_, _) => DoneCoherent(s, e);
    case WakeUp(_) => OtherCoherent(s, e);
    case SeedCall(_, _) => OtherCoherent(s, e);
  }

  lemma {:induction false} Reachable(trace: seq<System>, events: seq<Event>, i: nat)
    requires Run(trace, events) && i < |trace|
    ensures Coherent(trace[i])
  {
    if i > 0 {
      Reachable(trace, events, i - 1);
      StepCoherent(trace[i - 1], events[i - 1]);
    }
  }

  predicate ComputesFor(s: System, c: int, key: Key) {
    0 <= c < |s.calls| && s.calls[c].Computing? && s.calls[c].key == key
  }

  /** Single flight: in every state of every run a key has at most one computation in
      flight, and it has one exactly while it is pending. */
  lemma SingleFlight(trace: seq<System>, events: seq<Event>, i: nat, key: Key)
    requires Run(trace, events) && i < |trace|
    ensures forall c, d :: ComputesFor(trace[i], c, key) && ComputesFor(trace[i], d, key) ==> c == d
    ensures key in trace[i].memo.pending <==>
              exists c :: ComputesFor(trace[i], c, key)
  {
    Reachable(trace, events, i);
    var s := trace[i];
    forall c | ComputesFor(s, c, key)
      ensures key in s.memo.pending && s.memo.pending[key] == s.calls[c].future
    {
      assert CallCoherent(s, c);
    }
    if key in s.memo.pending {
      var c: nat :| Owns(s, c, s.memo.pending[key]);
      assert CallCoherent(s, c) && ComputesFor(s, c, key);
    }
  }

  /** A future, once set, keeps its outcome; a step sets at most the one it finishes. */
  lemma FutureStable(s: System, e: Event, f: nat)
    requires Coherent(s) && Enabled(s, e) && f < |s.memo.futures|
    ensures f < |Step(s, e).memo.futures|
    ensures s.memo.futures[f].result.Set? ==> Step(s, e).memo.futures[f] == s.memo.futures[f]
    ensures s.memo.futures[f].result.Unset? ==>
              (Step(s, e).memo.futures[f].result.Set? <==> e.ComputeDone? && s.calls[e.call].future == f)
    ensures e.ComputeDone? && s.calls[e.call].future == f ==> s.memo.futures[f].result.Unset?
  {
    if e.ComputeDone? { assert CallCoherent(s, e.call); }
  }

  /** How often the first `n` events complete future `f`. */
  ghost function Completions(trace: seq<System>, events: seq<Event>, f: nat, n: nat): nat
    requires Run(trace, events) && n <= |events|
  {
    if n == 0 then 0
    else
      Completions(trace, events, f, n - 1)
      + if events[n - 1].ComputeDone? && trace[n - 1].calls[events[n - 1].call].future == f then 1 else 0
  }

  /** Each future is completed exactly once: never before it is set, never again after. */
  lemma {:induction false} CompletedExactlyOnce(trace: seq<System>, events: seq<Event>, f: nat, n: nat)
    requires Run(trace, events) && n <= |events|
    ensures Completions(trace, events, f, n)
         == if f < |trace[n].memo.futures| && trace[n].memo.futures[f].result.Set? then 1 else 0
  {
    if n > 0 {
      CompletedExactlyOnce(trace, events, f, n - 1);
      Reachable(trace, events, n - 1);
      var s, e := trace[n - 1], events[n - 1];
      if f < |s.memo.futures| {
        FutureStable(s, e, f);
      } else if e.ComputeDone? {
        assert CallCoherent(s, e.call);
      }
    }
  }

  lemma {:induction false} FutureKept(trace: seq<System>, events: seq<Event>, i: nat, j: nat, f: nat)
    requires Run(trace, events) && i <= j < |trace|
    requires f < |trace[i].memo.futures| && trace[i].memo.futures[f].result.Set?
    ensures f < |trace[j].memo.futures| && trace[j].memo.futures[f] == trace[i].memo.futures[f]
  {
    if i < j {
      FutureKept(trace, events, i, j - 1, f);
      Reachable(trace, events, j - 1);
      FutureStable(trace[j - 1], events[j - 1], f);
    }
  }

  /** Everyone who shared a future, owner or waiter, in whatever states they finished, saw
      the same outcome. */
  lemma SharedOutcome(trace: seq<System>, events: seq<Event>, i: nat, j: nat, c: nat, d: nat)
    requires Run(trace, events) && i <= j < |trace|
    requires c < |trace[i].calls| && trace[i].calls[c].FromFuture?
    requires d < |trace[j].calls| && trace[j].calls[d].FromFuture?
    requires trace[i].calls[c].future == trace[j].calls[d].future
    ensures trace[i].calls[c].outcome == trace[j].calls[d].outcome
  {
    Reachable(trace, events, i);
    Reachable(trace, events, j);
    assert CallCoherent(trace[i], c) && CallCoherent(trace[j], d);
    FutureKept(trace, events, i, j, trace[i].calls[c].future);
  }

  /** Once no owner is computing, no key is pending and every future ever made is set. */
  lemma NothingLeftPending(trace: seq<System>, events: seq<Event>, i: nat)
    requires Run(trace, events) && i < |trace|
    requires forall c :: 0 <= c < |trace[i].calls| ==> !trace[i].calls[c].Computing?
    ensures trace[i].memo.pending == map[]
    ensures forall f :: 0 <= f < |trace[i].memo.futures| ==> trace[i].memo.futures[f].result.Set?
  {
    Reachable(trace, events, i);
    var s := trace[i];
    assert forall c: nat, f: nat :: !Owns(s, c, f);
    assert s.memo.pending.Keys == {};
  }

  /** The counters account for every call begun, and one future was made per miss. */
  lemma CountersBalance(trace: seq<System>, events: seq<Event>, i: nat)
    requires Run(trace, events) && i < |trace|
    ensures trace[i].memo.counts.hits + trace[i].memo.counts.misses + trace[i].memo.counts.waits == |trace[i].calls|
    ensures trace[i].memo.counts.misses == |trace[i].memo.futures|
  {
    Reachable(trace, events, i);
  }

  lemma StoredStep(s: System, e: Event, key: Key)
    requires Enabled(s, e) && key in s.memo.values && key in Step(s, e).memo.values
    ensures Step(s, e).memo.values[key] == s.memo.values[key] || s.memo.values[key] == NoneValue
  {}

  /** A stored result other than None never turns into a different one unless some state in
      between had forgotten it. */
  lemma {:induction false} StoredNeverReplaced(
      trace: seq<System>, events: seq<Event>, i: nat, j: nat, key: Key)
    requires Run(trace, events) && i <= j < |trace|
    requires key in trace[i].memo.values && trace[i].memo.values[key] != NoneValue
    requires forall n :: i <= n <= j ==> key in trace[n].memo.values
    ensures trace[j].memo.values[key] == trace[i].memo.values[key]
  {
    if i < j {
      StoredNeverReplaced(trace, events, i, j - 1, key);
      assert trace[j - 1 + 1] == Step(trace[j - 1], events[j - 1]);
      StoredStep(trace[j - 1], events[j - 1], key);
    }
  }

  /** One event replaces a stored result in place. */
  predicate Replaces(s: System, e: Event, key: Key)
    requires key in s.memo.values
  {
    && Enabled(s, e)
    && key in Step(s, e).memo.values
    && Step(s, e).memo.values[key] != s.memo.values[key]
  }

  /** A stored None is the exact exception: some event can replace a stored result in place
      if and only if that result is None. */
  lemma ReplaceableIffNone(s: System, key: Key)
    requires key in s.memo.values
    ensures (exists e :: Replaces(s, e, key)) <==> s.memo.values[key] == NoneValue
  {
    forall e | Replaces(s, e, key) ensures s.memo.values[key] == NoneValue {
      StoredStep(s, e, key);
    }
    if s.memo.values[key] == NoneValue {
      assert Replaces(s, SeedCall(key, Digest("")), key);
    }
  }

  /** A computation that returns None, and then a seed of the same key. */
  const REPLACING := [Begin("k", false), ComputeDone(0, Returned(NoneValue)), SeedCall("k", Digest("d"))]

  /** A run from the empty memo in which a stored result is replaced in place, without ever being
      forgotten. */
  lemma NoneIsReplaced() returns (trace: seq<System>)
    ensures Run(trace, REPLACING) && trace[0] == System(EMPTY, [])
    ensures "k" in trace[2].memo.values && trace[2].memo.values["k"] == NoneValue
    ensures "k" in trace[3].memo.values && trace[3].memo.values["k"] == Digest("d")
  {
    var s0 := System(EMPTY, []);
    var s1 := Step(s0, REPLACING[0]);
    var s2 := Step(s1, REPLACING[1]);
    var s3 := Step(s2, REPLACING[2]);
    trace := [s0, s1, s2, s3];
    assert forall i :: 0 <= i < 3 ==> Enabled(trace[i], REPLACING[i]) && trace[i + 1] == Step(trace[i], REPLACING[i]);
  }

  /** Call `d` waits for the future that call `c` computes. */
  predicate Joined(s: System, c: nat, d: nat)
    requires c < |s.calls| && d < |s.calls| && s.calls[c].Computing?
  {
    s.calls[d].AwaitingResult? && s.calls[d].future == s.calls[c].future
  }

  /** A changed artifact is caught: a verified read that computes something else than the
      stored digest fails, forgets the digest, and hands the failure to every waiter. */
  lemma VerifiedReadFailsClosed(s: System, c: nat, reread: Value)
    requires Coherent(s) && c < |s.calls| && s.calls[c].Computing?
    requires Clashes(s.memo.values, s.calls[c].key, reread)
    ensures Enabled(s, ComputeDone(c, Returned(reread)))
    ensures var t := Step(s, ComputeDone(c, Returned(reread)));
            && t.calls[c] == FromFuture(s.calls[c].key, s.calls[c].future, Raised(ConflictError))
            && s.calls[c].key !in t.memo.values && s.calls[c].key !in t.memo.pending
            && forall d :: 0 <= d < |s.calls| && Joined(s, c, d) ==>
                 && Enabled(t, WakeUp(d))
                 && Step(t, WakeUp(d)).calls[d].outcome == Raised(ConflictError)
  {
    assert CallCoherent(s, c);
  }

  // ---- What single calls get ----

  /** How a call begins: it waits for a pending computation; else a plain call takes a stored value
      and opens nothing; else it computes under a new future. Exactly one counter goes up. */
  lemma BeginFate(s: System, key: Key, verified: bool)
    ensures var t, m := Step(s, Begin(key, verified)), s.memo;
            var last := |s.calls|;
            && |t.calls| == last + 1 && t.calls[..last] == s.calls && t.memo.values == m.values
            && (key in m.pending ==>
                 && t.calls[last] == AwaitingResult(key, m.pending[key]) && t.memo.pending == m.pending
                 && t.memo.futures == m.futures && t.memo.counts == m.counts.(waits := m.counts.waits + 1))
            && (key !in m.pending && !verified && key in m.values ==>
                 && t.calls[last] == FromMemo(key, m.values[key]) && t.memo.pending == m.pending
                 && t.memo.futures == m.futures && t.memo.counts == m.counts.(hits := m.counts.hits + 1))
            && (key !in m.pending && (verified || key !in m.values) ==>
                 && t.calls[last] == Computing(key, |m.futures|) && t.memo.pending == m.pending[key := |m.futures|]
                 && t.memo.futures == m.futures + [Future(key, Unset)]
                 && t.memo.counts == m.counts.(misses := m.counts.misses + 1))
  {}

  /** How a computation ends. Its owner sees what it computed, and stores a result, unless a
      different digest was stored; then it sees the conflict. Any failure forgets the value. */
  lemma DoneFate(s: System, c: nat, computed: Outcome)
    requires Coherent(s) && Enabled(s, ComputeDone(c, computed))
    ensures var t, key := Step(s, ComputeDone(c, computed)), s.calls[c].key;
            var stored := key in s.memo.values && s.memo.values[key].Digest?;
            var clash := computed.Returned? && stored && s.memo.values[key] != computed.value;
            var outcome := if clash then Raised(ConflictError) else computed;
            && t.calls == s.calls[c := FromFuture(key, s.calls[c].future, outcome)]
            && t.memo.futures[s.calls[c].future] == Future(key, Set(outcome))
            && key !in t.memo.pending && (forall k :: k != key ==> (k in t.memo.pending <==> k in s.memo.pending))
            && (outcome.Returned? ==> t.memo.values == s.memo.values[key := outcome.value])
            && (outcome.Raised? ==> t.memo.values == s.memo.values - {key})
            && t.memo.counts == s.memo.counts
  {
    assert CallCoherent(s, c);
  }

  /** A seed stores its value exactly where no digest is stored, counts then, and touches nothing
      else. */
  lemma SeedFate(s: System, key: Key, v: Value)
    ensures var t, stored := Step(s, SeedCall(key, v)), key in s.memo.values && s.memo.values[key].Digest?;
            && t.calls == s.calls && t.memo.pending == s.memo.pending && t.memo.futures == s.memo.futures
            && t.memo.values == (if stored then s.memo.values else s.memo.values[key := v])
            && t.memo.counts == (if stored then s.memo.counts else s.memo.counts.(seeds := s.memo.counts.seeds + 1))
  {}

  lemma CallKept(s: System, e: Event, c: nat)
    requires Enabled(s, e) && c < |s.calls|
    ensures c < |Step(s, e).calls| && Step(s, e).calls[c].key == s.calls[c].key
    ensures s.calls[c].FromMemo? <==> Step(s, e).calls[c].FromMemo?
    ensures s.calls[c].FromMemo? ==> Step(s, e).calls[c] == s.calls[c]
  {}

  /** Every call of a run began at one event, with its key. One that ended on the memo was a plain
      call, made while the key was stored and not pending, and it got the value stored then. So a
      verified call never does. */
  lemma {:induction false} CallBegan(trace: seq<System>, events: seq<Event>, n: nat, c: nat) returns (i: nat)
    requires Run(trace, events) && n < |trace| && c < |trace[n].calls|
    ensures i < n && events[i].Begin? && |trace[i].calls| == c && events[i].key == trace[n].calls[c].key
    ensures trace[n].calls[c].FromMemo? ==>
              && !events[i].verified && events[i].key !in trace[i].memo.pending
              && events[i].key in trace[i].memo.values && trace[n].calls[c].value == trace[i].memo.values[events[i].key]
    ensures !trace[n].calls[c].FromMemo? ==>
              events[i].verified || events[i].key in trace[i].memo.pending || events[i].key !in trace[i].memo.values
  {
    assert trace[n - 1 + 1] == Step(trace[n - 1], events[n - 1]);
    if c < |trace[n - 1].calls| {
      i := CallBegan(trace, events, n - 1, c);
      CallKept(trace[n - 1], events[n - 1], c);
    } else {
      i := n - 1;
    }
  }

  /** Event `i` stored `v` for the key: a computation of that key returned it, or a seed gave it. */
  predicate Stores(trace: seq<System>, events: seq<Event>, i: nat, key: Key, v: Value)
    requires i < |events| && i < |trace| && Enabled(trace[i], events[i])
  {
    match events[i]
    case ComputeDone(c, computed) => trace[i].calls[c].key == key && computed == Returned(v)
    case SeedCall(k, w) => k == key && w == v
    case _ => false
  }

  lemma StoredBy(s: System, e: Event, key: Key)
    requires Enabled(s, e) && key in Step(s, e).memo.values
    ensures var v := Step(s, e).memo.values[key];
            || (key in s.memo.values && s.memo.values[key] == v)
            || (e.ComputeDone? && s.calls[e.call].key == key && e.computed == Returned(v))
            || e == SeedCall(key, v)
  {}

  /** Nothing is stored but what a computation of that very key returned or a seed of it gave. */
  lemma {:induction false} StoredCameFrom(trace: seq<System>, events: seq<Event>, n: nat, key: Key) returns (i: nat)
    requires Run(trace, events) && n < |trace| && key in trace[n].memo.values
    ensures i < n && Enabled(trace[i], events[i]) && Stores(trace, events, i, key, trace[n].memo.values[key])
  {
    assert Enabled(trace[n - 1], events[n - 1]) && trace[n - 1 + 1] == Step(trace[n - 1], events[n - 1]);
    StoredBy(trace[n - 1], events[n - 1], key);
    if Stores(trace, events, n - 1, key, trace[n].memo.values[key]) {
      i := n - 1;
    } else {
      i := StoredCameFrom(trace, events, n - 1, key);
    }
  }

  /** Reading through the memo: a plain call that finishes without computing got a value that some
      computation of its key had returned, or some seed of it had given, before the call began. */
  lemma HitCameFrom(trace: seq<System>, events: seq<Event>, n: nat, c: nat) returns (i: nat, j: nat)
    requires Run(trace, events) && n < |trace| && c < |trace[n].calls| && trace[n].calls[c].FromMemo?
    ensures j < i < n && |trace[i].calls| == c && events[i] == Begin(trace[n].calls[c].key, false)
    ensures Enabled(trace[j], events[j]) && Stores(trace, events, j, trace[n].calls[c].key, trace[n].calls[c].value)
  {
    i := CallBegan(trace, events, n, c);
    j := StoredCameFrom(trace, events, i, trace[n].calls[c].key);
  }
}
