/** Byte reservations under the retention mutex (artifact_retention.py).

    Each mutex region is one method, proved against a step of a transition system that also
    has the writers, the clock and the deaths of owners. The bound on managed bytes is proved
    for every interleaving. Managed bytes are split into those written under a receipt still
    on disk and the rest, `base`. */
module Reservations {
  import opened Texts

  const HARD_MAX_BYTES := 10 * 1024 * 1024 * 1024
  const HEADROOM_BYTES := 256 * 1024 * 1024
  const TARGET_BYTES := HARD_MAX_BYTES - HEADROOM_BYTES
  const MAX_AGE_SECONDS := 24 * 60 * 60

  type Owner = string

  /** A reservation receipt, with the bytes its owner has written so far. */
  datatype Receipt = Receipt(token: string, owner: Owner, created: int, expected: nat, written: nat, readable: bool)

  datatype State = State(ledger: seq<Receipt>, base: nat, alive: set<Owner>, now: int)

  predicate Active(s: State, r: Receipt) {
    r.readable && r.owner in s.alive && s.now - r.created <= MAX_AGE_SECONDS
  }

  function Expected(ledger: seq<Receipt>): nat {
    if ledger == [] then 0 else Expected(ledger[..|ledger| - 1]) + ledger[|ledger| - 1].expected
  }

  function Written(ledger: seq<Receipt>): nat {
    if ledger == [] then 0 else Written(ledger[..|ledger| - 1]) + ledger[|ledger| - 1].written
  }

  /** All bytes in managed places. */
  function Managed(s: State): nat { s.base + Written(s.ledger) }

  function ActiveOnly(s: State, ledger: seq<Receipt>): seq<Receipt> {
    if ledger == [] then []
    else ActiveOnly(s, ledger[..|ledger| - 1])
         + if Active(s, ledger[|ledger| - 1]) then [ledger[|ledger| - 1]] else []
  }

  function Without(ledger: seq<Receipt>, token: string): seq<Receipt> {
    if ledger == [] then []
    else Without(ledger[..|ledger| - 1], token)
         + if ledger[|ledger| - 1].token == token then [] else [ledger[|ledger| - 1]]
  }

  /** Drop receipts; the bytes written under them stay. */
  function WithLedger(s: State, ledger: seq<Receipt>): State
    requires Written(ledger) <= Written(s.ledger)
  {
    s.(ledger := ledger, base := s.base + (Written(s.ledger) - Written(ledger)))
  }

  lemma Snoc(ledger: seq<Receipt>, r: Receipt)
    ensures Expected(ledger + [r]) == Expected(ledger) + r.expected
    ensures Written(ledger + [r]) == Written(ledger) + r.written
  {
    assert (ledger + [r])[..|ledger|] == ledger;
  }

  lemma {:induction false} ActiveOnlyShrinks(s: State, ledger: seq<Receipt>)
    ensures Written(ActiveOnly(s, ledger)) <= Written(ledger)
    ensures forall r :: r in ActiveOnly(s, ledger) <==> r in ledger && Active(s, r)
  {
    if ledger != [] {
      var n := |ledger| - 1;
      ActiveOnlyShrinks(s, ledger[..n]);
      assert ledger == ledger[..n] + [ledger[n]];
      Snoc(ActiveOnly(s, ledger[..n]), ledger[n]);
      assert ActiveOnly(s, ledger[..n]) + [] == ActiveOnly(s, ledger[..n]);
    }
  }

  lemma {:induction false} WithoutShrinks(ledger: seq<Receipt>, token: string)
    ensures Written(Without(ledger, token)) <= Written(ledger)
    ensures forall r :: r in Without(ledger, token) <==> r in ledger && r.token != token
  {
    if ledger != [] {
      var n := |ledger| - 1;
      WithoutShrinks(ledger[..n], token);
      assert ledger == ledger[..n] + [ledger[n]];
      Snoc(Without(ledger[..n], token), ledger[n]);
      assert Without(ledger[..n], token) + [] == Without(ledger[..n], token);
    }
  }

  /** Dead, expired and unreadable receipts are unlinked. */
  function Purge(s: State): State {
    ActiveOnlyShrinks(s, s.ledger);
    WithLedger(s, ActiveOnly(s, s.ledger))
  }

  /** Safe cleanup frees some bytes, none of them under an outstanding reservation. */
  function Clean(s: State, freed: nat): State
    requires freed <= s.base
  {
    s.(base := s.base - freed)
  }

  // ---- The mutex regions and the other events ----

  datatype Event =
    | Begin(token: string, owner: Owner, expected: nat, freed: nat)
    | Finish(finished: string, freed: nat)
    | Enforce(freed: nat)
    | Write(index: nat, bytes: nat)
    | Die(owner: Owner)
    | Tick(seconds: nat)

  function BeforeBegin(s: State, freed: nat): State
    requires freed <= Purge(s).base
  {
    Clean(Purge(s), freed)
  }

  /** Re-measured bytes plus all reservations, the new one included, stay below the target. */
  predicate Granted(s: State, expected: nat, freed: nat)
    requires freed <= Purge(s).base
  {
    && expected < HARD_MAX_BYTES
    && Managed(BeforeBegin(s, freed)) + Expected(Purge(s).ledger) + expected < TARGET_BYTES
  }

  function AfterFinish(s: State, token: string): State {
    WithoutShrinks(s.ledger, token);
    Purge(WithLedger(s, Without(s.ledger, token)))
  }

  /** A step is possible: cleanup frees only what is there, and an owner grows its output only
      under a live, unexpired reservation and within the bytes it asked for. */
  predicate Enabled(s: State, e: Event) {
    match e
    case Begin(_, owner, expected, freed) => owner in s.alive && freed <= Purge(s).base
    case Finish(token, freed) => freed <= AfterFinish(s, token).base
    case Enforce(freed) => freed <= Purge(s).base
    case Write(i, bytes) => i < |s.ledger| && Active(s, s.ledger[i]) &&
        s.ledger[i].written + bytes <= s.ledger[i].expected
    case Die(_) => true
    case Tick(_) => true
  }

  function Step(s: State, e: Event): State
    requires Enabled(s, e)
  {
    match e
    case Begin(token, owner, expected, freed) =>
      if expected >= HARD_MAX_BYTES then s
      else if Granted(s, expected, freed) then
        BeforeBegin(s, freed).(ledger := Purge(s).ledger + [Receipt(token, owner, s.now, expected, 0, true)])
      else BeforeBegin(s, freed)
    case Finish(token, freed) => Clean(AfterFinish(s, token), freed)
    case Enforce(freed) => Clean(Purge(s), freed)
    case Write(i, bytes) => s.(ledger := s.ledger[i := s.ledger[i].(written := s.ledger[i].written + bytes)])
    case Die(owner) => s.(alive := s.alive - {owner})
    case Tick(seconds) => s.(now := s.now + seconds)
  }

  class ReservationLedger {
    var ledger: seq<Receipt>
    /** What the byte measurement of managed places finds outside outstanding receipts. */
    ghost var base: nat

    ghost function At(alive: set<Owner>, now: int): State
      reads this
    {
      State(ledger, base, alive, now)
    }

    constructor ()
      ensures ledger == [] && base == 0
    {
      ledger, base := [], 0;
    }

    method KeepActive(alive: set<Owner>, now: int) returns (kept: seq<Receipt>, reserved: nat)
      ensures kept == ActiveOnly(At(alive, now), ledger) && reserved == Expected(kept)
    {
      ghost var s := At(alive, now);
      var i := 0;
      kept, reserved := [], 0;
      while i < |ledger|
        invariant 0 <= i <= |ledger| && kept == ActiveOnly(s, ledger[..i]) && reserved == Expected(kept)
      {
        assert ledger[..i + 1][..i] == ledger[..i];
        var r := ledger[i];
        if r.readable && r.owner in alive && now - r.created <= MAX_AGE_SECONDS {
          Snoc(kept, r);
          kept, reserved := kept + [r], reserved + r.expected;
        } else {
          assert kept + [] == kept;
        }
        i := i + 1;
      }
      assert ledger[..i] == ledger;
    }

    /** `_active_reservations_unlocked`: unlink every receipt that is not active. */
    method ActiveReservations(alive: set<Owner>, now: int) returns (reserved: nat)
      modifies this
      ensures At(alive, now) == Purge(old(At(alive, now)))
      ensures reserved == Expected(ledger)
    {
      var kept;
      kept, reserved := KeepActive(alive, now);
      ActiveOnlyShrinks(At(alive, now), ledger);
      base := base + (Written(ledger) - Written(kept));
      ledger := kept;
    }

    /** `_begin_output_reservation`. The cleanup frees `freed` bytes; `measured` is what the
        verification pass then finds. */
    method BeginReservation(
        token: string, owner: Owner, expected: nat, alive: set<Owner>, now: int, freed: nat, measured: nat)
        returns (granted: bool)
      requires Enabled(At(alive, now), Begin(token, owner, expected, freed))
      requires measured == Managed(BeforeBegin(At(alive, now), freed))
      modifies this
      ensures At(alive, now) == Step(old(At(alive, now)), Begin(token, owner, expected, freed))
      ensures granted <==> old(Granted(At(alive, now), expected, freed))
    {
      if expected >= HARD_MAX_BYTES {
        return false;
      }
      var others := ActiveReservations(alive, now);
      base := base - freed;
      if measured + (others + expected) >= TARGET_BYTES {
        return false;
      }
      ledger := ledger + [Receipt(token, owner, now, expected, 0, true)];
      return true;
    }

    /** `_finish_output_reservation`; it raises when the measured bytes and all remaining
        reservations together reach the hard limit. */
    method FinishReservation(
        token: string, alive: set<Owner>, now: int, freed: nat, measured: nat) returns (raised: bool)
      requires Enabled(At(alive, now), Finish(token, freed))
      requires measured == Managed(Step(At(alive, now), Finish(token, freed)))
      modifies this
      ensures At(alive, now) == Step(old(At(alive, now)), Finish(token, freed))
      ensures raised <==> Managed(At(alive, now)) + Expected(ledger) >= HARD_MAX_BYTES
    {
      UnlinkReceipt(token, alive, now);
      var reserved := ActiveReservations(alive, now);
      base := base - freed;
      raised := measured + reserved >= HARD_MAX_BYTES;
    }

    method OtherReceipts(token: string) returns (kept: seq<Receipt>)
      ensures kept == Without(ledger, token)
    {
      kept := [];
      var i := 0;
      while i < |ledger|
        invariant 0 <= i <= |ledger| && kept == Without(ledger[..i], token)
      {
        assert ledger[..i + 1][..i] == ledger[..i];
        if ledger[i].token != token {
          kept := kept + [ledger[i]];
        }
        i := i + 1;
      }
      assert ledger[..i] == ledger;
    }

    method UnlinkReceipt(token: string, ghost alive: set<Owner>, ghost now: int)
      modifies this
      ensures Written(Without(old(ledger), token)) <= Written(old(ledger))
      ensures At(alive, now) == WithLedger(old(At(alive, now)), Without(old(ledger), token))
    {
      var kept := OtherReceipts(token);
      WithoutShrinks(ledger, token);
      base := base + (Written(ledger) - Written(kept));
      ledger := kept;
    }
  }

  // ---- The bound, over every interleaving ----

  /** No owner has written more than it reserved. */
  ghost predicate WithinExpected(s: State) {
    forall i :: 0 <= i < |s.ledger| ==> s.ledger[i].written <= s.ledger[i].expected
  }

  /** The invariant: other bytes plus everything promised stay below the target. */
  ghost predicate Bounded(s: State) {
    WithinExpected(s) && s.base + Expected(s.ledger) < TARGET_BYTES
  }

  lemma {:induction false} WrittenAtMostExpected(ledger: seq<Receipt>)
    requires forall i :: 0 <= i < |ledger| ==> ledger[i].written <= ledger[i].expected
    ensures Written(ledger) <= Expected(ledger)
  {
    if ledger != [] { WrittenAtMostExpected(ledger[..|ledger| - 1]); }
  }

  lemma BoundedManaged(s: State)
    requires Bounded(s)
    ensures Managed(s) < TARGET_BYTES
  {
    WrittenAtMostExpected(s.ledger);
  }

  /** Dropping receipts that kept within their bytes never raises base plus promises. */
  lemma {:induction false} PurgeLowers(s: State, ledger: seq<Receipt>)
    requires forall i :: 0 <= i < |ledger| ==> ledger[i].written <= ledger[i].expected
    ensures Written(ActiveOnly(s, ledger)) <= Written(ledger)
    ensures Written(ledger) - Written(ActiveOnly(s, ledger)) + Expected(ActiveOnly(s, ledger)) <= Expected(ledger)
  {
    if ledger != [] {
      var n := |ledger| - 1;
      PurgeLowers(s, ledger[..n]);
      var kept := ActiveOnly(s, ledger[..n]);
      Snoc(kept, ledger[n]);
      assert kept + [] == kept;
    }
  }

  lemma {:induction false} WithoutLowers(ledger: seq<Receipt>, token: string)
    requires forall i :: 0 <= i < |ledger| ==> ledger[i].written <= ledger[i].expected
    ensures Written(Without(ledger, token)) <= Written(ledger)
    ensures Written(ledger) - Written(Without(ledger, token)) + Expected(Without(ledger, token)) <= Expected(ledger)
  {
    if ledger != [] {
      var n := |ledger| - 1;
      WithoutLowers(ledger[..n], token);
      var kept := Without(ledger[..n], token);
      Snoc(kept, ledger[n]);
      assert kept + [] == kept;
    }
  }

  lemma PurgeKeeps(s: State)
    ensures WithinExpected(s) ==> WithinExpected(Purge(s))
    ensures Bounded(s) ==> Bounded(Purge(s))
  {
    ActiveOnlyShrinks(s, s.ledger);
    if WithinExpected(s) {
      PurgeLowers(s, s.ledger);
      forall i | 0 <= i < |Purge(s).ledger| ensures Purge(s).ledger[i].written <= Purge(s).ledger[i].expected {
        assert Purge(s).ledger[i] in s.ledger;
      }
    }
  }

  lemma WithoutKeeps(s: State, token: string)
    ensures Written(Without(s.ledger, token)) <= Written(s.ledger)
    ensures WithinExpected(s) ==> WithinExpected(WithLedger(s, Without(s.ledger, token)))
    ensures Bounded(s) ==> Bounded(WithLedger(s, Without(s.ledger, token)))
  {
    WithoutShrinks(s.ledger, token);
    if WithinExpected(s) {
      WithoutLowers(s.ledger, token);
      var kept := Without(s.ledger, token);
      forall i | 0 <= i < |kept| ensures kept[i].written <= kept[i].expected {
        assert kept[i] in s.ledger;
      }
    }
  }

  lemma {:induction false} WriteSums(ledger: seq<Receipt>, i: nat, r: Receipt)
    requires i < |ledger| && r.expected == ledger[i].expected
    ensures Expected(ledger[i := r]) == Expected(ledger)
  {
    var n := |ledger| - 1;
    if i < n {
      assert ledger[i := r][..n] == ledger[..n][i := r];
      WriteSums(ledger[..n], i, r);
    } else {
      assert ledger[i := r][..n] == ledger[..n];
    }
  }

  lemma StepKeeps(s: State, e: Event)
    requires Enabled(s, e) && WithinExpected(s)
    ensures WithinExpected(Step(s, e))
    ensures Bounded(s) ==> Bounded(Step(s, e))
    ensures e.Begin? && Granted(s, e.expected, e.freed) ==> Bounded(Step(s, e))
  {
    match e
    case Begin(token, owner, expected, freed) =>
      PurgeKeeps(s);
      Snoc(Purge(s).ledger, Receipt(token, owner, s.now, expected, 0, true));
    case Finish(token, freed) =>
      WithoutKeeps(s, token);
      PurgeKeeps(WithLedger(s, Without(s.ledger, token)));
    case Enforce(freed) => PurgeKeeps(s);
    case Write(i, bytes) => WriteSums(s.ledger, i, Step(s, e).ledger[i]);
    case Die(_) =>
    case Tick(_) =>
  }

  ghost predicate Run(trace: seq<State>, events: seq<Event>) {
    && |trace| == |events| + 1
    && WithinExpected(trace[0])
    && forall i :: 0 <= i < |events| ==> Enabled(trace[i], events[i]) && trace[i + 1] == Step(trace[i], events[i])
  }

  lemma {:induction false} RunKeepsExpected(trace: seq<State>, events: seq<Event>, i: nat)
    requires Run(trace, events) && i < |trace|
    ensures WithinExpected(trace[i])
  {
    if i > 0 {
      RunKeepsExpected(trace, events, i - 1);
      StepKeeps(trace[i - 1], events[i - 1]);
      assert trace[i - 1 + 1] == Step(trace[i - 1], events[i - 1]);
    }
  }

  lemma {:induction false} BoundedFrom(trace: seq<State>, events: seq<Event>, i: nat, j: nat)
    requires Run(trace, events) && i <= j < |trace| && Bounded(trace[i])
    ensures Bounded(trace[j])
  {
    if i < j {
      BoundedFrom(trace, events, i, j - 1);
      StepKeeps(trace[j - 1], events[j - 1]);
      assert trace[j - 1 + 1] == Step(trace[j - 1], events[j - 1]);
    }
  }

  /** The reservation bound: from any start, in every interleaving of reservations, writes,
      finishes, deaths, delays and cleanups, managed bytes are strictly below the target in
      every state after the first granted reservation. */
  lemma ManagedStaysBelowTarget(trace: seq<State>, events: seq<Event>, i: nat, j: nat)
    requires Run(trace, events) && i < j < |trace|
    requires events[i].Begin? && Granted(trace[i], events[i].expected, events[i].freed)
    ensures Managed(trace[j]) < TARGET_BYTES
    ensures trace[j].base + Expected(trace[j].ledger) < TARGET_BYTES
  {
    RunKeepsExpected(trace, events, i);
    StepKeeps(trace[i], events[i]);
    BoundedFrom(trace, events, i + 1, j);
    BoundedManaged(trace[j]);
  }

  // ---- What each region does, in bytes and receipts ----

  /** Which receipts a region finds in force: readable ones of living owners, up to a day old. All
      others are unlinked, and what was written under them is still managed. */
  lemma PurgeMeans(s: State)
    ensures forall r :: r in Purge(s).ledger <==>
              r in s.ledger && r.readable && r.owner in s.alive && s.now - r.created <= 86_400
    ensures Managed(Purge(s)) == Managed(s) && Purge(s).alive == s.alive && Purge(s).now == s.now
  {
    ActiveOnlyShrinks(s, s.ledger);
    PurgeBytes(s);
  }

  lemma PurgeBytes(s: State)
    ensures Managed(Purge(s)) == Managed(s) && Purge(s).alive == s.alive && Purge(s).now == s.now
  {
    ActiveOnlyShrinks(s, s.ledger);
  }

  /** The receipts that stay keep their order and number. */
  lemma PurgeLast(s: State)
    requires s.ledger != []
    ensures var n, r := |s.ledger| - 1, s.ledger[|s.ledger| - 1];
            Purge(s).ledger == Purge(s.(ledger := s.ledger[..n])).ledger + if r in Purge(s).ledger then [r] else []
  {
    var n := |s.ledger| - 1;
    ActiveOnlyShrinks(s, s.ledger);
    ActiveOnlyShrinks(s.(ledger := s.ledger[..n]), s.ledger[..n]);
    ActiveOnlyAlike(s, s.(ledger := s.ledger[..n]), s.ledger[..n]);
    assert s.ledger[n] in s.ledger;
    assert ActiveOnly(s, s.ledger[..n]) + [] == ActiveOnly(s, s.ledger[..n]);
  }

  /** A reservation is granted exactly when all managed bytes but those just freed, all that is in
      force and what is asked for stay below 9.75 GiB; then it is in force from this moment on. */
  lemma BeginFate(s: State, token: string, owner: Owner, expected: nat, freed: nat)
    requires Enabled(s, Begin(token, owner, expected, freed))
    ensures var t, kept := Step(s, Begin(token, owner, expected, freed)), Purge(s).ledger;
            && t.alive == s.alive && t.now == s.now
            && (expected >= 10_737_418_240 ==> t == s)
            && (expected < 10_737_418_240 ==>
                 && Managed(t) == Managed(s) - freed
                 && t.ledger == if Managed(s) - freed + Expected(kept) + expected < 10_468_982_784
                                then kept + [Receipt(token, owner, s.now, expected, 0, true)] else kept)
  {
    PurgeBytes(s);
    Snoc(Purge(s).ledger, Receipt(token, owner, s.now, expected, 0, true));
  }

  /** Finishing takes the token's receipts out of the ledger, and a cleanup region none in force;
      bytes leave only by the cleanup. */
  lemma FinishFate(s: State, token: string, freed: nat)
    requires Enabled(s, Finish(token, freed))
    ensures var t := Step(s, Finish(token, freed));
            && (forall r :: r in t.ledger <==> r in Purge(s).ledger && r.token != token)
            && Managed(t) == Managed(s) - freed && t.alive == s.alive && t.now == s.now
  {
    FinishFinds(s, token, freed);
    PurgeMeans(s);
    WithoutShrinks(s.ledger, token);
    ActiveOnlyShrinks(s, Without(s.ledger, token));
  }

  lemma EnforceFate(s: State, freed: nat)
    requires Enabled(s, Enforce(freed))
    ensures var t := Step(s, Enforce(freed));
            t.ledger == Purge(s).ledger && Managed(t) == Managed(s) - freed && t.alive == s.alive && t.now == s.now
  {
    PurgeBytes(s);
  }

  /** The world between the regions: writing adds bytes under one receipt in force, owners die, and
      time passes. */
  lemma WorldFate(s: State, e: Event)
    requires Enabled(s, e)
    ensures e.Write? ==>
              var t, r := Step(s, e), s.ledger[e.index];
              && Managed(t) == Managed(s) + e.bytes && t.alive == s.alive && t.now == s.now && r in Purge(s).ledger
              && t.ledger == s.ledger[e.index := r.(written := r.written + e.bytes)] &&
                  r.written + e.bytes <= r.expected
    ensures e.Die? ==> Step(s, e) == s.(alive := s.alive - {e.owner})
    ensures e.Tick? ==> Step(s, e) == s.(now := s.now + e.seconds)
  {
    if e.Write? {
      PurgeMeans(s);
      assert s.ledger[e.index] in s.ledger;
      WriteAdds(s.ledger, e.index, e.bytes);
    }
  }

  lemma {:induction false} WriteAdds(ledger: seq<Receipt>, i: nat, bytes: nat)
    requires i < |ledger|
    ensures Written(ledger[i := ledger[i].(written := ledger[i].written + bytes)]) == Written(ledger) + bytes
  {
    var n := |ledger| - 1;
    var more := ledger[i := ledger[i].(written := ledger[i].written + bytes)];
    if i < n {
      assert more[..n] == ledger[..n][i := ledger[..n][i].(written := ledger[..n][i].written + bytes)];
      WriteAdds(ledger[..n], i, bytes);
    } else {
      assert more[..n] == ledger[..n];
    }
  }

  // ---- A granted reservation stays in force ----

  /** The receipt of a grant, whatever was written under it since. */
  predicate Holds(s: State, token: string, owner: Owner, created: int, expected: nat) {
    exists r :: r in s.ledger && r.readable
      && r.token == token && r.owner == owner && r.created == created && r.expected == expected
  }

  /** One step of a run in which the owner lives, the token is not finished and the day is not over. */
  lemma HoldsOn(s: State, e: Event, token: string, owner: Owner, created: int, expected: nat)
    requires Enabled(s, e) && Holds(s, token, owner, created, expected)
    requires owner in s.alive && s.now - created <= 86_400 && (e.Finish? ==> e.finished != token)
    ensures Holds(Step(s, e), token, owner, created, expected)
  {
    var r :| r in s.ledger && r.readable
      && r.token == token && r.owner == owner && r.created == created && r.expected == expected;
    PurgeMeans(s);
    match e
    case Begin(a, b, c, d) => BeginFate(s, a, b, c, d);
    case Finish(a, b) => FinishFate(s, a, b);
    case Enforce(a) => EnforceFate(s, a);
    case Write(i, bytes) =>
      var k :| 0 <= k < |s.ledger| && s.ledger[k] == r;
      assert Step(s, e).ledger[k] in Step(s, e).ledger;
    case Die(_) =>
    case Tick(_) =>
  }

  /** A grant made by event `i` is in force in state `j`: its owner is alive, nobody finished it, and
      at most a day has passed. */
  ghost predicate InForce(trace: seq<State>, events: seq<Event>, i: nat, j: nat)
    requires Run(trace, events) && i < j < |trace|
  {
    && events[i].Begin? && Granted(trace[i], events[i].expected, events[i].freed)
    && events[i].owner in trace[j].alive && trace[j].now - trace[i].now <= 86_400
    && forall k :: i < k < j ==> !(events[k].Finish? && events[k].finished == events[i].token)
  }

  lemma AliveBefore(s: State, e: Event)
    requires Enabled(s, e)
    ensures Step(s, e).alive <= s.alive && Step(s, e).now >= s.now
  {}

  /** A granted reservation counts for as long as it is in force: its receipt stays in the ledger
      with all that it expects, stamped with the moment of the grant. */
  lemma {:induction false} GrantStays(trace: seq<State>, events: seq<Event>, i: nat, j: nat)
    requires Run(trace, events) && i < j < |trace| && InForce(trace, events, i, j)
    ensures Holds(trace[j], events[i].token, events[i].owner, trace[i].now, events[i].expected)
  {
    var e := events[i];
    if j == i + 1 {
      BeginFate(trace[i], e.token, e.owner, e.expected, e.freed);
      var r := Receipt(e.token, e.owner, trace[i].now, e.expected, 0, true);
      assert trace[j].ledger[|trace[j].ledger| - 1] == r;
    } else {
      assert trace[j - 1 + 1] == Step(trace[j - 1], events[j - 1]);
      AliveBefore(trace[j - 1], events[j - 1]);
      assert InForce(trace, events, i, j - 1);
      GrantStays(trace, events, i, j - 1);
      HoldsOn(trace[j - 1], events[j - 1], e.token, e.owner, trace[i].now, e.expected);
    }
  }

  predicate AreBegins(events: seq<Event>, grants: seq<nat>) {
    forall k :: 0 <= k < |grants| ==> grants[k] < |events| && events[grants[k]].Begin?
  }

  predicate DistinctTokens(events: seq<Event>, grants: seq<nat>)
    requires AreBegins(events, grants)
  {
    forall a, b :: 0 <= a < b < |grants| ==> events[grants[a]].token != events[grants[b]].token
  }

  /** What all these reservations asked for. */
  function Asked(events: seq<Event>, grants: seq<nat>): nat
    requires AreBegins(events, grants)
  {
    if grants == [] then 0 else Asked(events, grants[..|grants| - 1]) + events[grants[|grants| - 1]].expected
  }

  /** Receipts of different tokens that are all in a ledger add up to no more than it. */
  lemma {:induction false} DistinctSum(ledger: seq<Receipt>, r: Receipt)
    ensures Expected(Without(ledger, r.token)) + (if r in ledger then r.expected else 0) <= Expected(ledger)
  {
    if ledger != [] {
      var n := |ledger| - 1;
      DistinctSum(ledger[..n], r);
      assert r in ledger ==> r in ledger[..n] || r == ledger[n];
      WithoutLast(ledger, r.token);
    }
  }

  lemma WithoutLast(ledger: seq<Receipt>, token: string)
    requires ledger != []
    ensures var n := |ledger| - 1;
            Expected(Without(ledger, token)) ==
                Expected(Without(ledger[..n], token)) + if ledger[n].token == token then 0 else ledger[n].expected
  {
    var n := |ledger| - 1;
    Snoc(Without(ledger[..n], token), ledger[n]);
    assert Without(ledger[..n], token) + [] == Without(ledger[..n], token);
  }

  predicate Kept(ledger: seq<Receipt>, events: seq<Event>, g: nat)
    requires g < |events| && events[g].Begin?
  {
    exists r :: r in ledger && r.token == events[g].token && r.expected == events[g].expected
  }

  lemma {:induction false} HeldSum(ledger: seq<Receipt>, events: seq<Event>, grants: seq<nat>)
    requires AreBegins(events, grants) && DistinctTokens(events, grants)
    requires forall k :: 0 <= k < |grants| ==> Kept(ledger, events, grants[k])
    ensures Asked(events, grants) <= Expected(ledger)
    decreases |grants|
  {
    if grants != [] {
      var n := |grants| - 1;
      assert Kept(ledger, events, grants[n]);
      var r :| r in ledger && r.token == events[grants[n]].token && r.expected == events[grants[n]].expected;
      DistinctSum(ledger, r);
      WithoutShrinks(ledger, r.token);
      forall k | 0 <= k < n ensures Kept(Without(ledger, r.token), events, grants[k]) {
        assert Kept(ledger, events, grants[k]) && events[grants[k]].token != events[grants[n]].token;
      }
      HeldSum(Without(ledger, r.token), events, grants[..n]);
    }
  }

  /** However many grants are in force at once, from whatever starting state and time, what they
      asked for adds up to less than the target. Tokens are drawn afresh, so they differ. */
  lemma GrantsInForceFit(trace: seq<State>, events: seq<Event>, grants: seq<nat>, j: nat)
    requires Run(trace, events) && j < |trace| && grants != []
    requires AreBegins(events, grants) && DistinctTokens(events, grants)
    requires forall k :: 0 <= k < |grants| ==> grants[k] < j && InForce(trace, events, grants[k], j)
    ensures Asked(events, grants) < 10_468_982_784
  {
    forall k | 0 <= k < |grants| ensures Kept(trace[j].ledger, events, grants[k]) {
      GrantStays(trace, events, grants[k], j);
    }
    HeldSum(trace[j].ledger, events, grants);
    ManagedStaysBelowTarget(trace, events, grants[0], j);
  }

  // ---- When finishing raises ----

  lemma {:induction false} ActiveOnlyAlike(s: State, t: State, ledger: seq<Receipt>)
    requires s.alive == t.alive && s.now == t.now
    ensures ActiveOnly(s, ledger) == ActiveOnly(t, ledger)
  {
    if ledger != [] { ActiveOnlyAlike(s, t, ledger[..|ledger| - 1]); }
  }

  /** The receipts that count when `token` finishes: every other active one. */
  function Others(s: State, token: string): seq<Receipt> {
    ActiveOnly(s, Without(s.ledger, token))
  }

  /** Finishing only drops receipts and frees bytes, so what it will find can be read off the
      state before the call. */
  lemma FinishFinds(s: State, token: string, freed: nat)
    requires Enabled(s, Finish(token, freed))
    ensures var t := Step(s, Finish(token, freed));
            t.ledger == Others(s, token) && Managed(t) == Managed(s) - freed
  {
    WithoutShrinks(s.ledger, token);
    var u := WithLedger(s, Without(s.ledger, token));
    ActiveOnlyShrinks(u, u.ledger);
    ActiveOnlyAlike(s, u, u.ledger);
  }

  /** When finishing raises, from the state before the call: exactly when all managed bytes but
      those the cleanup frees, plus all that the other active owners expected, reach the hard
      limit. Bytes the others have written are in both sums. With the bound in force that
      takes others who wrote more than the headroom. */
  lemma FinishRaisesIff(s: State, token: string, freed: nat)
    requires Enabled(s, Finish(token, freed))
    ensures var t := Step(s, Finish(token, freed));
            && (Managed(t) + Expected(t.ledger) >= HARD_MAX_BYTES <==>
                 Managed(s) - freed + Expected(Others(s, token)) >= HARD_MAX_BYTES)
            && (Bounded(s) && Written(Others(s, token)) <= HEADROOM_BYTES ==>
                Managed(t) + Expected(t.ledger) < HARD_MAX_BYTES)
  {
    FinishFinds(s, token, freed);
    if Bounded(s) { StepKeeps(s, Finish(token, freed)); }
  }

  const HALF := 4608 * 1024 * 1024

  const OWNERS: set<Owner> := {"a", "b", "c"}
  const CROWD := [Filled("a", HALF), Filled("b", HALF), Filled("c", 0)]

  function Filled(token: string, bytes: nat): Receipt { Receipt(token, token, 0, bytes, bytes, true) }

  function Fresh(token: string, bytes: nat): Receipt { Receipt(token, token, 0, bytes, 0, true) }

  /** The state with this ledger, nothing else managed, and all three owners alive. */
  function Holding(ledger: seq<Receipt>): State { State(ledger, 0, OWNERS, 0) }

  lemma SumOfTwo(a: Receipt, b: Receipt)
    ensures Expected([a]) == a.expected && Written([a]) == a.written
    ensures Expected([a, b]) == a.expected + b.expected && Written([a, b]) == a.written + b.written
  {
    Snoc([], a);
    Snoc([a], b);
    assert [] + [a] == [a] && [a] + [b] == [a, b];
  }

  lemma SumOfThree(a: Receipt, b: Receipt, c: Receipt)
    ensures Expected([a, b, c]) == a.expected + b.expected + c.expected &&
        Written([a, b, c]) == a.written + b.written + c.written
  {
    SumOfTwo(a, b);
    Snoc([a, b], c);
    assert [a, b] + [c] == [a, b, c];
  }

  lemma {:induction false} AllActive(ledger: seq<Receipt>)
    requires forall r :: r in ledger ==> r.readable && r.owner in OWNERS && r.created == 0
    ensures ActiveOnly(Holding(ledger), ledger) == ledger && Purge(Holding(ledger)) == Holding(ledger)
    decreases |ledger|
  {
    if ledger != [] {
      var n := |ledger| - 1;
      AllActive(ledger[..n]);
      ActiveOnlyAlike(Holding(ledger), Holding(ledger[..n]), ledger[..n]);
      assert ledger == ledger[..n] + [ledger[n]];
    }
  }

  /** The state after some events, if each is enabled in turn. */
  function Play(s: State, events: seq<Event>): Option<State> {
    if events == [] then Some(s)
    else
      var before, last := Play(s, events[..|events| - 1]), events[|events| - 1];
      if before.Some? && Enabled(before.value, last) then Some(Step(before.value, last)) else None
  }

  lemma PlaySnoc(s: State, events: seq<Event>, e: Event, t: State)
    requires Play(s, events).Some? && Enabled(Play(s, events).value, e) && t == Step(Play(s, events).value, e)
    ensures Play(s, events + [e]) == Some(t)
  {
    assert (events + [e])[..|events|] == events;
  }

  lemma BeginStep(ledger: seq<Receipt>, token: string, expected: nat)
    requires forall r :: r in ledger ==> r.readable && r.owner in OWNERS && r.created == 0
    requires token in OWNERS && expected < HARD_MAX_BYTES &&
        Written(ledger) + Expected(ledger) + expected < TARGET_BYTES
    ensures Enabled(Holding(ledger), Begin(token, token, expected, 0)) && Granted(Holding(ledger), expected, 0)
    ensures Step(Holding(ledger), Begin(token, token, expected, 0)) == Holding(ledger + [Fresh(token, expected)])
  {
    AllActive(ledger);
  }

  lemma WriteStep(ledger: seq<Receipt>, i: nat, full: seq<Receipt>)
    requires i < |ledger| && ledger[i].readable && ledger[i].owner in OWNERS && ledger[i].created == 0 &&
        ledger[i].written == 0
    requires full == ledger[i := ledger[i].(written := ledger[i].expected)]
    ensures Enabled(Holding(ledger), Write(i, ledger[i].expected)) &&
        Step(Holding(ledger), Write(i, ledger[i].expected)) == Holding(full)
  {}

  lemma BeginSnoc(
      s: State, events: seq<Event>, ledger: seq<Receipt>, token: string, expected: nat) returns (more: seq<Event>)
    requires Play(s, events) == Some(Holding(ledger))
    requires forall r :: r in ledger ==> r.readable && r.owner in OWNERS && r.created == 0
    requires token in OWNERS && expected < HARD_MAX_BYTES &&
        Written(ledger) + Expected(ledger) + expected < TARGET_BYTES
    ensures Play(s, more) == Some(Holding(ledger + [Fresh(token, expected)]))
  {
    BeginStep(ledger, token, expected);
    more := events + [Begin(token, token, expected, 0)];
    PlaySnoc(s, events, Begin(token, token, expected, 0), Holding(ledger + [Fresh(token, expected)]));
  }

  lemma WriteSnoc(
      s: State, events: seq<Event>, ledger: seq<Receipt>, i: nat, full: seq<Receipt>) returns (more: seq<Event>)
    requires Play(s, events) == Some(Holding(ledger))
    requires i < |ledger| && ledger[i].readable && ledger[i].owner in OWNERS && ledger[i].created == 0 &&
        ledger[i].written == 0
    requires full == ledger[i := ledger[i].(written := ledger[i].expected)]
    ensures Play(s, more) == Some(Holding(full))
  {
    WriteStep(ledger, i, full);
    more := events + [Write(i, ledger[i].expected)];
    PlaySnoc(s, events, Write(i, ledger[i].expected), Holding(full));
  }

  lemma TwoReserve(s: State, x: string, y: string, z: string, bytes: nat) returns (events: seq<Event>)
    requires s == Holding([]) && x in OWNERS && y in OWNERS && z in OWNERS && 2 * bytes < TARGET_BYTES
    ensures Play(s, events) == Some(Holding([Fresh(x, bytes), Fresh(y, bytes), Fresh(z, 0)]))
  {
    var a, b, c := Fresh(x, bytes), Fresh(y, bytes), Fresh(z, 0);
    SumOfTwo(a, b);
    assert [] + [a] == [a] && [a] + [b] == [a, b] && [a, b] + [c] == [a, b, c];
    events := BeginSnoc(s, [], [], x, bytes);
    events := BeginSnoc(s, events, [a], y, bytes);
    events := BeginSnoc(s, events, [a, b], z, 0);
  }

  lemma TwoWrite(s: State, x: string, y: string, z: string, bytes: nat) returns (events: seq<Event>)
    requires s == Holding([]) && x in OWNERS && y in OWNERS && z in OWNERS && 2 * bytes < TARGET_BYTES
    ensures Play(s, events) == Some(Holding([Filled(x, bytes), Filled(y, bytes), Fresh(z, 0)]))
  {
    var a, b, c, fa, fb := Fresh(x, bytes), Fresh(y, bytes), Fresh(z, 0), Filled(x, bytes), Filled(y, bytes);
    events := TwoReserve(s, x, y, z, bytes);
    assert [a, b, c][0 := fa] == [fa, b, c] && [fa, b, c][1 := fb] == [fa, fb, c];
    events := WriteSnoc(s, events, [a, b, c], 0, [fa, b, c]);
    events := WriteSnoc(s, events, [fa, b, c], 1, [fa, fb, c]);
  }

  /** The crowded state is reached from an empty ledger: two owners reserve 4.5 GiB each, a
      third one nothing, and the two write all they reserved. */
  lemma CrowdIsReached() returns (events: seq<Event>)
    ensures Play(Holding([]), events) == Some(Holding(CROWD))
  {
    events := TwoWrite(Holding([]), "a", "b", "c", HALF);
  }

  lemma CrowdWithoutThird()
    ensures Others(Holding(CROWD), "c") == CROWD[..2]
  {
    var a, b, c := Filled("a", HALF), Filled("b", HALF), Filled("c", 0);
    assert CROWD == [a, b, c] && [a, b, c][..2] == [a, b] && [a, b][..1] == [a] && [a][..0] == [];
    assert "a" != "c" && "b" != "c";
    assert Without([a], "c") == [a];
    assert Without([a, b], "c") == [a, b];
    assert Without(CROWD, "c") == [a, b];
    AllActive([a, b]);
    ActiveOnlyAlike(Holding(CROWD), Holding([a, b]), [a, b]);
  }

  /** It can happen within the bound: in that state the third owner's finish raises, with 9 GiB
      managed and nothing over the target. */
  lemma FinishCanRaiseBelowTarget()
    ensures Bounded(Holding(CROWD)) && Enabled(Holding(CROWD), Finish("c", 0))
    ensures var t := Step(Holding(CROWD), Finish("c", 0));
            Managed(t) < TARGET_BYTES && Managed(t) + Expected(t.ledger) >= HARD_MAX_BYTES
  {
    SumOfTwo(Filled("a", HALF), Filled("b", HALF));
    SumOfThree(Filled("a", HALF), Filled("b", HALF), Filled("c", 0));
    CrowdWithoutThird();
    assert CROWD[..2] == [Filled("a", HALF), Filled("b", HALF)];
    FinishFinds(Holding(CROWD), "c", 0);
  }
}
