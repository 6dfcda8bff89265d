/**
  The webhook receiver (internal/webhook): the semaphore in front of triggered syncs and the
  per-project debounce of TriggerManager, as a transition system. A delivery that is accepted starts a
  handler goroutine; its atomic sections are the events below, and they interleave freely.
 */
module Webhook {
  import opened Util
  import opened ProjectPath
  import opened Splitting

  // ----- deliveries -----

  /** A request as the handler sees it; token comparison and JSON decoding are oracles. */
  datatype Request = Request(isPost: bool, tokenMatches: bool, bodyReadable: bool, project: Option<string>)

  datatype Outcome =
    | MethodNotAllowed | InvalidToken | UnreadableBody | NoProject | InvalidProject | LimitReached | Accepted

  function Status(o: Outcome): int {
    match o
    case MethodNotAllowed => 405
    case InvalidToken => 401
    case UnreadableBody => 400
    case LimitReached => 503
    case _ => 200
  }

  /** The tests that a request meets before the semaphore: a POST with the token, naming a project by its route. */
  predicate PassesScreen(r: Request) {
    r.isPost && r.tokenMatches && r.bodyReadable && r.project.Some? && IsRoute(SplitOn(r.project.value, '/'))
  }

  const MAX_SYNCS := 8

  /** The debounce delay, in clock units. */
  const DEBOUNCE := 2000

  function OutcomeOf(r: Request, slots: nat): Outcome {
    if !r.isPost then MethodNotAllowed
    else if !r.tokenMatches then InvalidToken
    else if !r.bodyReadable then UnreadableBody
    else if r.project.None? || r.project.value == "" then NoProject
    else if Validate(r.project.value).Some? then InvalidProject
    else if slots >= MAX_SYNCS then LimitReached
    else Accepted
  }

  /** What the sender is told, by the request and the slots in use. */
  lemma Answers(r: Request, slots: nat)
    ensures OutcomeOf(r, slots) == Accepted <==> PassesScreen(r) && slots < 8
    ensures Status(OutcomeOf(r, slots))
            == if !r.isPost then 405
               else if !r.tokenMatches then 401
               else if !r.bodyReadable then 400
               else if PassesScreen(r) && slots >= 8 then 503
               else 200
  {
    if r.project.Some? {
      ValidateIff(r.project.value);
      assert r.project.value == "" ==> SplitOn(r.project.value, '/')[0] == "";
    }
  }

  // ----- states -----

  /**
    Where a handler goroutine stands: slot taken but Trigger not yet registered; waiting in the select;
    inside the fetch; returned, with the deferred calls ahead; map cleaned up; own context cancelled;
    slot given back.
   */
  datatype Phase = Starting | Debouncing | Fetching | Returned | Cleaned | Released | Done

  /** Whether the fetch was started, when, and whether its context was still live then. */
  datatype Fetch = NotStarted | Live(at: nat) | Cancelled(at: nat)

  /**
    One invocation. `preempted` is the cancel call of a later trigger; `parentDone` the parent context
    timing out or shutting down. `order` and `registeredAt` record its turn at the pending map.
   */
  datatype Trig = Trig(
    project: string, phase: Phase, preempted: bool, parentDone: bool, order: nat, registeredAt: nat, fetch: Fetch)
  {
    predicate Registered() { phase != Starting }

    /** Registered and not yet cleaned up. */
    predicate Holding() { phase == Debouncing || phase == Fetching || phase == Returned }

    predicate PastCleanup() { phase == Cleaned || phase == Released || phase == Done }

    predicate ContextDone() { preempted || parentDone || phase == Released || phase == Done }
  }

  datatype State = State(pending: map<string, nat>, trigs: seq<Trig>, registrations: nat, clock: nat, slots: nat)

  const START := State(map[], [], 0, 0, 0)

  // ----- events -----

  datatype Event =
    | Deliver(r: Request)
    | Register(i: nat)
    | TimerFires(i: nat)
    | CancelSeen(i: nat)
    | FetchReturns(i: nat)
    | Cleanup(i: nat)
    | SelfCancel(i: nat)
    | FreeSlot(i: nat)
    | ParentDone(i: nat)
    | Tick(d: nat)

  predicate InPhase(s: State, i: nat, p: Phase) { i < |s.trigs| && s.trigs[i].phase == p }

  predicate Enabled(s: State, e: Event) {
    match e
    case Deliver(_) => true
    case Register(i) => InPhase(s, i, Starting)
    case TimerFires(i) => InPhase(s, i, Debouncing) && s.clock >= s.trigs[i].registeredAt + DEBOUNCE
    case CancelSeen(i) => InPhase(s, i, Debouncing) && s.trigs[i].ContextDone()
    case FetchReturns(i) => InPhase(s, i, Fetching)
    case Cleanup(i) => InPhase(s, i, Returned)
    case SelfCancel(i) => InPhase(s, i, Cleaned)
    case FreeSlot(i) => InPhase(s, i, Released) && s.slots > 0
    case ParentDone(i) => i < |s.trigs| && s.trigs[i].phase != Done
    case Tick(_) => true
  }

  function Move(s: State, i: nat, p: Phase): State
    requires i < |s.trigs|
  {
    s.(trigs := s.trigs[i := s.trigs[i].(phase := p)])
  }

  /** The locked section of Trigger: cancel the predecessor, take its place. */
  function Registering(s: State, i: nat): State
    requires i < |s.trigs|
  {
    var p := s.trigs[i].project;
    var self := s.trigs[i].(phase := Debouncing, order := s.registrations, registeredAt := s.clock);
    var trigs :=
      if p in s.pending && s.pending[p] < |s.trigs| then
        s.trigs[s.pending[p] := s.trigs[s.pending[p]].(preempted := true)]
      else s.trigs;
    s.(pending := s.pending[p := i], trigs := trigs[i := self], registrations := s.registrations + 1)
  }

  /** The locked section of the deferred cleanup: only the trigger's own entry is removed. */
  function CleaningUp(s: State, i: nat): State
    requires i < |s.trigs|
  {
    var p := s.trigs[i].project;
    var pending := if p in s.pending && s.pending[p] == i then s.pending - {p} else s.pending;
    Move(s, i, Cleaned).(pending := pending)
  }

  function StartFetch(s: State, i: nat): State
    requires i < |s.trigs|
  {
    var t := s.trigs[i];
    s.(trigs := s.trigs[i := t.(phase := Fetching, fetch := if t.ContextDone() then Cancelled(s.clock) else Live(s.clock))])
  }

  function NewTrig(project: string): Trig { Trig(project, Starting, false, false, 0, 0, NotStarted) }

  /** A slot is taken and a goroutine started. */
  function Admitting(s: State, t: Trig): State { s.(trigs := s.trigs + [t], slots := s.slots + 1) }

  function Next(s: State, e: Event): State
    requires Enabled(s, e)
  {
    match e
    case Deliver(r) =>
      if OutcomeOf(r, s.slots) == Accepted then Admitting(s, NewTrig(r.project.value)) else s
    case Register(i) => Registering(s, i)
    case TimerFires(i) => StartFetch(s, i)
    case CancelSeen(i) => Move(s, i, Returned)
    case FetchReturns(i) => Move(s, i, Returned)
    case Cleanup(i) => CleaningUp(s, i)
    case SelfCancel(i) => Move(s, i, Released)
    case FreeSlot(i) => Move(s, i, Done).(slots := s.slots - 1)
    case ParentDone(i) => s.(trigs := s.trigs[i := s.trigs[i].(parentDone := true)])
    case Tick(d) => s.(clock := s.clock + d)
  }

  // ----- invariants -----

  /** The map holds exactly the registered, uncleaned triggers whose context no successor cancelled. */
  ghost predicate MapInv(s: State) {
    && (forall p :: p in s.pending ==> s.pending[p] < |s.trigs| && Owns(s, s.pending[p]) && s.trigs[s.pending[p]].project == p)
    && (forall i :: 0 <= i < |s.trigs| && Owns(s, i) ==> s.trigs[i].project in s.pending && s.pending[s.trigs[i].project] == i)
  }

  predicate Owns(s: State, i: nat)
    requires i < |s.trigs|
  {
    s.trigs[i].Holding() && !s.trigs[i].preempted
  }

  /** Registrations are numbered in the order of the clock. */
  ghost predicate OrderInv(s: State) {
    && (forall i :: 0 <= i < |s.trigs| && s.trigs[i].Registered() ==>
          s.trigs[i].order < s.registrations && s.trigs[i].registeredAt <= s.clock)
    && (forall i, j :: 0 <= i < |s.trigs| && 0 <= j < |s.trigs| && i != j && s.trigs[i].Registered() && s.trigs[j].Registered() ==>
          s.trigs[i].order != s.trigs[j].order
          && (s.trigs[i].order < s.trigs[j].order ==> s.trigs[i].registeredAt <= s.trigs[j].registeredAt))
  }

  /** `b` registered for the same project after `a`. */
  predicate Succeeds(a: Trig, b: Trig) {
    a.Registered() && b.Registered() && a.project == b.project && a.order < b.order
  }

  /** A trigger with a successor was pre-empted by it, unless it had already cleaned up. */
  ghost predicate SuccessorInv(s: State) {
    forall i, j :: 0 <= i < |s.trigs| && 0 <= j < |s.trigs| && Succeeds(s.trigs[i], s.trigs[j]) ==>
      (s.trigs[i].preempted || s.trigs[i].PastCleanup())
      && (s.trigs[i].fetch.Live? ==> s.trigs[i].fetch.at <= s.trigs[j].registeredAt)
  }

  ghost predicate HasSuccessor(s: State, i: nat)
    requires i < |s.trigs|
  {
    exists j :: 0 <= j < |s.trigs| && Succeeds(s.trigs[i], s.trigs[j])
  }

  ghost predicate PreemptedInv(s: State) {
    forall i :: 0 <= i < |s.trigs| && s.trigs[i].preempted ==> HasSuccessor(s, i)
  }

  /** What one trigger's own history amounts to. */
  predicate History(t: Trig, clock: nat) {
    && (t.phase == Starting || t.phase == Debouncing ==> t.fetch == NotStarted)
    && (t.phase == Fetching ==> t.fetch != NotStarted)
    && (t.phase == Returned || t.PastCleanup() ==> t.fetch != NotStarted || t.preempted || t.parentDone)
    && (t.fetch != NotStarted ==> t.registeredAt + DEBOUNCE <= t.fetch.at <= clock)
    && (t.fetch.Cancelled? ==> t.preempted || t.parentDone)
    && (t.phase == Starting ==> !t.preempted)
  }

  ghost predicate HistoryInv(s: State) {
    forall i :: 0 <= i < |s.trigs| ==> History(s.trigs[i], s.clock)
  }

  /** The handler goroutines between taking a slot and giving it back. */
  function InFlight(trigs: seq<Trig>): nat {
    if trigs == [] then 0
    else InFlight(trigs[..|trigs| - 1]) + (if trigs[|trigs| - 1].phase == Done then 0 else 1)
  }

  ghost predicate SlotInv(s: State) { s.slots == InFlight(s.trigs) && s.slots <= MAX_SYNCS }

  /** All that does not concern the semaphore. */
  ghost predicate Core(s: State) {
    MapInv(s) && OrderInv(s) && SuccessorInv(s) && PreemptedInv(s) && HistoryInv(s)
  }

  ghost predicate Inv(s: State) { Core(s) && SlotInv(s) }

  // ----- preservation: one trigger changes -----

  lemma {:induction false} InFlightUpdate(trigs: seq<Trig>, i: nat, t: Trig)
    requires i < |trigs|
    ensures InFlight(trigs[i := t])
            == InFlight(trigs) - (if trigs[i].phase == Done then 0 else 1) + (if t.phase == Done then 0 else 1)
    decreases |trigs|
  {
    var n := |trigs| - 1;
    if i < n {
      assert trigs[i := t][..n] == trigs[..n][i := t];
      InFlightUpdate(trigs[..n], i, t);
    } else {
      assert trigs[i := t][..n] == trigs[..n];
    }
  }

  /** A change that keeps what the ordering facts talk about. */
  predicate SameIdentity(a: Trig, b: Trig) {
    a.project == b.project && a.order == b.order && a.registeredAt == b.registeredAt && a.preempted == b.preempted
    && a.Registered() == b.Registered()
  }

  lemma UpdateKeepsOrder(s: State, i: nat, t: Trig)
    requires OrderInv(s) && i < |s.trigs| && SameIdentity(s.trigs[i], t)
    ensures OrderInv(s.(trigs := s.trigs[i := t]))
  {
  }

  lemma UpdateKeepsPreempted(s: State, i: nat, t: Trig)
    requires PreemptedInv(s) && i < |s.trigs| && SameIdentity(s.trigs[i], t)
    ensures PreemptedInv(s.(trigs := s.trigs[i := t]))
  {
    var u := s.(trigs := s.trigs[i := t]);
    forall k | 0 <= k < |u.trigs| && u.trigs[k].preempted ensures HasSuccessor(u, k) {
      assert HasSuccessor(s, k);
      var j :| 0 <= j < |s.trigs| && Succeeds(s.trigs[k], s.trigs[j]);
      assert Succeeds(u.trigs[k], u.trigs[j]);
    }
  }

  lemma UpdateKeepsSuccessor(s: State, i: nat, t: Trig)
    requires SuccessorInv(s) && i < |s.trigs| && SameIdentity(s.trigs[i], t)
    requires s.trigs[i].PastCleanup() ==> t.PastCleanup()
    requires t.fetch == s.trigs[i].fetch || !t.fetch.Live? || !(s.trigs[i].preempted || s.trigs[i].PastCleanup())
    ensures SuccessorInv(s.(trigs := s.trigs[i := t]))
  {
    var u := s.(trigs := s.trigs[i := t]);
    forall a, b | 0 <= a < |u.trigs| && 0 <= b < |u.trigs| && Succeeds(u.trigs[a], u.trigs[b])
      ensures (u.trigs[a].preempted || u.trigs[a].PastCleanup())
              && (u.trigs[a].fetch.Live? ==> u.trigs[a].fetch.at <= u.trigs[b].registeredAt)
    {
      assert Succeeds(s.trigs[a], s.trigs[b]);
    }
  }

  lemma UpdateKeepsHistory(s: State, i: nat, t: Trig)
    requires HistoryInv(s) && i < |s.trigs| && History(t, s.clock)
    ensures HistoryInv(s.(trigs := s.trigs[i := t]))
  {
  }

  lemma UpdateKeepsMap(s: State, i: nat, t: Trig)
    requires MapInv(s) && i < |s.trigs| && SameIdentity(s.trigs[i], t) && t.Holding() == s.trigs[i].Holding()
    ensures MapInv(s.(trigs := s.trigs[i := t]))
  {
    var u := s.(trigs := s.trigs[i := t]);
    assert forall k :: 0 <= k < |s.trigs| ==> Owns(u, k) == Owns(s, k) && u.trigs[k].project == s.trigs[k].project;
  }

  /** A step that moves one trigger on without touching its place in the order. */
  lemma UpdateKeepsRest(s: State, i: nat, t: Trig)
    requires Core(s) && i < |s.trigs| && SameIdentity(s.trigs[i], t)
    requires s.trigs[i].PastCleanup() ==> t.PastCleanup()
    requires t.fetch == s.trigs[i].fetch || !t.fetch.Live? || !(s.trigs[i].preempted || s.trigs[i].PastCleanup())
    requires History(t, s.clock)
    ensures var u := s.(trigs := s.trigs[i := t]);
            OrderInv(u) && SuccessorInv(u) && PreemptedInv(u) && HistoryInv(u)
  {
    UpdateKeepsOrder(s, i, t);
    UpdateKeepsSuccessor(s, i, t);
    UpdateKeepsPreempted(s, i, t);
    UpdateKeepsHistory(s, i, t);
  }

  lemma UpdateKeeps(s: State, i: nat, t: Trig)
    requires Inv(s) && i < |s.trigs| && SameIdentity(s.trigs[i], t) && t.Holding() == s.trigs[i].Holding()
    requires s.trigs[i].PastCleanup() ==> t.PastCleanup()
    requires t.fetch == s.trigs[i].fetch || !t.fetch.Live? || !(s.trigs[i].preempted || s.trigs[i].PastCleanup())
    requires History(t, s.clock) && (t.phase == Done <==> s.trigs[i].phase == Done)
    ensures Inv(s.(trigs := s.trigs[i := t]))
  {
    UpdateKeepsMap(s, i, t);
    UpdateKeepsRest(s, i, t);
    InFlightUpdate(s.trigs, i, t);
  }

  lemma TimerKeeps(s: State, i: nat)
    requires Inv(s) && Enabled(s, TimerFires(i))
    ensures Inv(Next(s, TimerFires(i)))
  {
    assert History(s.trigs[i], s.clock);
    UpdateKeeps(s, i, StartFetch(s, i).trigs[i]);
  }

  lemma ReturnKeeps(s: State, i: nat)
    requires Inv(s) && (Enabled(s, CancelSeen(i)) || Enabled(s, FetchReturns(i)))
    ensures Inv(Move(s, i, Returned))
  {
    assert History(s.trigs[i], s.clock);
    UpdateKeeps(s, i, s.trigs[i].(phase := Returned));
  }

  lemma SelfCancelKeeps(s: State, i: nat)
    requires Inv(s) && Enabled(s, SelfCancel(i))
    ensures Inv(Next(s, SelfCancel(i)))
  {
    assert History(s.trigs[i], s.clock);
    UpdateKeeps(s, i, s.trigs[i].(phase := Released));
  }

  lemma ParentDoneKeeps(s: State, i: nat)
    requires Inv(s) && Enabled(s, ParentDone(i))
    ensures Inv(Next(s, ParentDone(i)))
  {
    assert History(s.trigs[i], s.clock);
    UpdateKeeps(s, i, s.trigs[i].(parentDone := true));
  }

  /** The rest does not depend on the slots. */
  lemma SlotsOnly(s: State, slots: nat)
    requires Core(s)
    ensures Core(s.(slots := slots))
  {
    var u := s.(slots := slots);
    assert forall i :: 0 <= i < |s.trigs| ==> Owns(u, i) == Owns(s, i);
    forall k | 0 <= k < |u.trigs| && u.trigs[k].preempted ensures HasSuccessor(u, k) { assert HasSuccessor(s, k); }
  }

  lemma FinishingKeeps(s: State, i: nat, t: Trig)
    requires Core(s) && Enabled(s, FreeSlot(i)) && t == s.trigs[i].(phase := Done)
    ensures Core(s.(trigs := s.trigs[i := t]))
  {
    assert History(s.trigs[i], s.clock);
    UpdateKeepsMap(s, i, t);
    UpdateKeepsRest(s, i, t);
  }

  lemma SlotsSet(s: State, slots: nat)
    requires Core(s) && slots == InFlight(s.trigs) && slots <= MAX_SYNCS
    ensures Inv(s.(slots := slots))
  {
    SlotsOnly(s, slots);
  }

  lemma FinishedFlight(s: State, i: nat, t: Trig)
    requires SlotInv(s) && Enabled(s, FreeSlot(i)) && t == s.trigs[i].(phase := Done)
    ensures s.slots - 1 == InFlight(s.trigs[i := t]) <= MAX_SYNCS
    ensures Next(s, FreeSlot(i)) == s.(trigs := s.trigs[i := t]).(slots := s.slots - 1)
  {
    InFlightUpdate(s.trigs, i, t);
  }

  lemma FreeSlotKeeps(s: State, i: nat)
    requires Inv(s) && Enabled(s, FreeSlot(i))
    ensures Inv(Next(s, FreeSlot(i)))
  {
    var t := s.trigs[i].(phase := Done);
    FinishingKeeps(s, i, t);
    FinishedFlight(s, i, t);
    SlotsSet(s.(trigs := s.trigs[i := t]), s.slots - 1);
  }

  lemma TickKeepsMap(s: State, d: nat)
    requires MapInv(s) && PreemptedInv(s)
    ensures MapInv(s.(clock := s.clock + d)) && PreemptedInv(s.(clock := s.clock + d))
  {
    var u := s.(clock := s.clock + d);
    assert forall i :: 0 <= i < |s.trigs| ==> Owns(u, i) == Owns(s, i);
    forall k | 0 <= k < |u.trigs| && u.trigs[k].preempted ensures HasSuccessor(u, k) {
      assert HasSuccessor(s, k);
    }
  }

  lemma TickKeepsTimes(s: State, d: nat)
    requires OrderInv(s) && SuccessorInv(s) && HistoryInv(s)
    ensures var u := s.(clock := s.clock + d); OrderInv(u) && SuccessorInv(u) && HistoryInv(u)
  {
    assert forall i :: 0 <= i < |s.trigs| ==> History(s.trigs[i], s.clock);
  }

  lemma TickKeepsCore(s: State, d: nat, u: State)
    requires Core(s) && u == s.(clock := s.clock + d)
    ensures Core(u)
  {
    TickKeepsMap(s, d);
    TickKeepsTimes(s, d);
  }

  lemma TickKeeps(s: State, d: nat)
    requires Inv(s)
    ensures Inv(Next(s, Tick(d)))
  {
    TickKeepsCore(s, d, Next(s, Tick(d)));
  }

  // ----- preservation: cleanup -----

  lemma CleanupMap(s: State, i: nat)
    requires MapInv(s) && Enabled(s, Cleanup(i))
    ensures MapInv(CleaningUp(s, i))
  {
    var u, p := CleaningUp(s, i), s.trigs[i].project;
    assert forall k :: 0 <= k < |s.trigs| ==> u.trigs[k].project == s.trigs[k].project;
    assert forall k :: 0 <= k < |s.trigs| && k != i ==> Owns(u, k) == Owns(s, k);
    assert !Owns(u, i);
    forall q | q in u.pending
      ensures u.pending[q] < |u.trigs| && Owns(u, u.pending[q]) && u.trigs[u.pending[q]].project == q
    {
      assert q in s.pending && u.pending[q] == s.pending[q];
      assert u.pending[q] != i;
    }
    forall k | 0 <= k < |u.trigs| && Owns(u, k)
      ensures u.trigs[k].project in u.pending && u.pending[u.trigs[k].project] == k
    {
      assert Owns(s, k);
    }
  }

  lemma CleanupKeeps(s: State, i: nat)
    requires Inv(s) && Enabled(s, Cleanup(i))
    ensures Inv(Next(s, Cleanup(i)))
  {
    var t := s.trigs[i].(phase := Cleaned);
    assert History(s.trigs[i], s.clock);
    CleanupMap(s, i);
    UpdateKeepsOrder(s, i, t);
    UpdateKeepsSuccessor(s, i, t);
    UpdateKeepsPreempted(s, i, t);
    UpdateKeepsHistory(s, i, t);
    InFlightUpdate(s.trigs, i, t);
    CleanupRest(s, i);
  }

  lemma CleanupRest(s: State, i: nat)
    requires i < |s.trigs|
    requires var m := Move(s, i, Cleaned); OrderInv(m) && SuccessorInv(m) && PreemptedInv(m) && HistoryInv(m)
    ensures var u := CleaningUp(s, i); OrderInv(u) && SuccessorInv(u) && PreemptedInv(u) && HistoryInv(u)
  {
    var m, u := Move(s, i, Cleaned), CleaningUp(s, i);
    assert u.trigs == m.trigs;
    forall k | 0 <= k < |u.trigs| && u.trigs[k].preempted ensures HasSuccessor(u, k) { assert HasSuccessor(m, k); }
  }

  // ----- preservation: registration -----

  /** The trigger that registration pre-empts, if there is one. */
  function Predecessor(s: State, i: nat): Option<nat>
    requires i < |s.trigs|
  {
    var p := s.trigs[i].project;
    if p in s.pending && s.pending[p] < |s.trigs| then Some(s.pending[p]) else None
  }

  /** How registration changes each trigger. */
  lemma RegisteredTrigs(s: State, i: nat)
    requires MapInv(s) && Enabled(s, Register(i))
    ensures var u := Registering(s, i);
            && |u.trigs| == |s.trigs|
            && u.trigs[i] == s.trigs[i].(phase := Debouncing, order := s.registrations, registeredAt := s.clock)
            && (Predecessor(s, i).Some? ==> Predecessor(s, i).value != i)
            && (forall k :: 0 <= k < |s.trigs| && k != i ==>
                  u.trigs[k] == if Predecessor(s, i) == Some(k) then s.trigs[k].(preempted := true) else s.trigs[k])
  {
    assert !Owns(s, i);
  }

  lemma RegisterMap(s: State, i: nat)
    requires MapInv(s) && HistoryInv(s) && Enabled(s, Register(i))
    ensures MapInv(Registering(s, i))
  {
    var u, p := Registering(s, i), s.trigs[i].project;
    RegisteredTrigs(s, i);
    assert History(s.trigs[i], s.clock);
    forall q | q in u.pending
      ensures u.pending[q] < |u.trigs| && Owns(u, u.pending[q]) && u.trigs[u.pending[q]].project == q
    {
      if q != p {
        var k := s.pending[q];
        assert Owns(s, k) && s.trigs[k].project == q;
        assert Predecessor(s, i) != Some(k);
      }
    }
    forall k | 0 <= k < |u.trigs| && Owns(u, k)
      ensures u.trigs[k].project in u.pending && u.pending[u.trigs[k].project] == k
    {
      if k != i {
        assert Owns(s, k);
        assert s.trigs[k].project != p;
      }
    }
  }

  lemma RegisterOrder(s: State, i: nat)
    requires MapInv(s) && OrderInv(s) && Enabled(s, Register(i))
    ensures OrderInv(Registering(s, i))
  {
    RegisteredTrigs(s, i);
  }

  lemma RegisterHistory(s: State, i: nat)
    requires MapInv(s) && HistoryInv(s) && Enabled(s, Register(i))
    ensures HistoryInv(Registering(s, i))
  {
    var u := Registering(s, i);
    RegisteredTrigs(s, i);
    forall k | 0 <= k < |u.trigs| ensures History(u.trigs[k], u.clock) {
      assert History(s.trigs[k], s.clock);
      if Predecessor(s, i) == Some(k) { assert Owns(s, k); }
    }
  }

  lemma RegisterPreempted(s: State, i: nat)
    requires MapInv(s) && OrderInv(s) && HistoryInv(s) && PreemptedInv(s) && Enabled(s, Register(i))
    ensures PreemptedInv(Registering(s, i))
  {
    var u := Registering(s, i);
    RegisteredTrigs(s, i);
    assert History(s.trigs[i], s.clock);
    forall k | 0 <= k < |u.trigs| && u.trigs[k].preempted ensures HasSuccessor(u, k) {
      if Predecessor(s, i) == Some(k) {
        assert Owns(s, k) && s.trigs[k].project == s.trigs[i].project;
        assert Succeeds(u.trigs[k], u.trigs[i]);
      } else {
        assert k != i && HasSuccessor(s, k);
        var j :| 0 <= j < |s.trigs| && Succeeds(s.trigs[k], s.trigs[j]);
        assert j != i;
        assert Succeeds(u.trigs[k], u.trigs[j]);
      }
    }
  }

  /** An older trigger of the project still in the map is the predecessor; the others are past cleanup. */
  lemma RegisterSuccessor(s: State, i: nat)
    requires MapInv(s) && OrderInv(s) && HistoryInv(s) && SuccessorInv(s) && Enabled(s, Register(i))
    ensures SuccessorInv(Registering(s, i))
  {
    var u := Registering(s, i);
    RegisteredTrigs(s, i);
    forall a, b | 0 <= a < |u.trigs| && 0 <= b < |u.trigs| && Succeeds(u.trigs[a], u.trigs[b])
      ensures (u.trigs[a].preempted || u.trigs[a].PastCleanup())
              && (u.trigs[a].fetch.Live? ==> u.trigs[a].fetch.at <= u.trigs[b].registeredAt)
    {
      assert u.trigs[b].order <= s.registrations == u.trigs[i].order;
      assert History(s.trigs[a], s.clock);
      if b == i {
        if s.trigs[a].Holding() && !s.trigs[a].preempted {
          assert Owns(s, a);
          assert Predecessor(s, i) == Some(a);
        }
      } else {
        assert Succeeds(s.trigs[a], s.trigs[b]);
      }
    }
  }

  lemma RegisterInFlight(s: State, i: nat)
    requires MapInv(s) && Enabled(s, Register(i))
    ensures InFlight(Registering(s, i).trigs) == InFlight(s.trigs)
  {
    var self := s.trigs[i].(phase := Debouncing, order := s.registrations, registeredAt := s.clock);
    var prev := Predecessor(s, i);
    if prev.Some? {
      var k := prev.value;
      var marked := s.trigs[k].(preempted := true);
      assert Owns(s, k);
      InFlightUpdate(s.trigs, k, marked);
      InFlightUpdate(s.trigs[k := marked], i, self);
    } else {
      InFlightUpdate(s.trigs, i, self);
    }
  }

  lemma RegisterKeeps(s: State, i: nat)
    requires Inv(s) && Enabled(s, Register(i))
    ensures Inv(Next(s, Register(i)))
  {
    RegisterMap(s, i);
    RegisterOrder(s, i);
    RegisterHistory(s, i);
    RegisterPreempted(s, i);
    RegisterSuccessor(s, i);
    RegisterInFlight(s, i);
  }

  // ----- preservation: delivery -----

  lemma AppendMap(s: State, t: Trig)
    requires MapInv(s) && t.phase == Starting
    ensures MapInv(s.(trigs := s.trigs + [t]))
  {
    var u := s.(trigs := s.trigs + [t]);
    assert forall i :: 0 <= i < |s.trigs| ==> u.trigs[i] == s.trigs[i] && Owns(u, i) == Owns(s, i);
    assert !Owns(u, |s.trigs|);
  }

  lemma AppendOrder(s: State, t: Trig)
    requires OrderInv(s) && SuccessorInv(s) && t.phase == Starting
    ensures var u := s.(trigs := s.trigs + [t]); OrderInv(u) && SuccessorInv(u)
  {
    var u := s.(trigs := s.trigs + [t]);
    assert forall i :: 0 <= i < |s.trigs| ==> u.trigs[i] == s.trigs[i];
    assert !u.trigs[|s.trigs|].Registered();
  }

  lemma AppendHistory(s: State, t: Trig)
    requires PreemptedInv(s) && HistoryInv(s) && History(t, s.clock) && !t.preempted
    ensures var u := s.(trigs := s.trigs + [t]); PreemptedInv(u) && HistoryInv(u)
  {
    var u := s.(trigs := s.trigs + [t]);
    assert forall i :: 0 <= i < |s.trigs| ==> u.trigs[i] == s.trigs[i];
    forall k | 0 <= k < |u.trigs| && u.trigs[k].preempted ensures HasSuccessor(u, k) {
      assert HasSuccessor(s, k);
      var j :| 0 <= j < |s.trigs| && Succeeds(s.trigs[k], s.trigs[j]);
      assert Succeeds(u.trigs[k], u.trigs[j]);
    }
  }

  lemma InFlightAppend(trigs: seq<Trig>, t: Trig)
    requires t.phase != Done
    ensures InFlight(trigs + [t]) == InFlight(trigs) + 1
  {
    assert (trigs + [t])[..|trigs|] == trigs;
  }

  lemma AppendCore(s: State, t: Trig)
    requires Core(s) && t.phase == Starting && !t.preempted && History(t, s.clock)
    ensures Core(s.(trigs := s.trigs + [t]))
  {
    AppendMap(s, t);
    AppendOrder(s, t);
    AppendHistory(s, t);
  }

  lemma AdmittedFlight(s: State, t: Trig)
    requires SlotInv(s) && t.phase == Starting && s.slots < MAX_SYNCS
    ensures s.slots + 1 == InFlight(s.trigs + [t]) <= MAX_SYNCS
    ensures Admitting(s, t) == s.(trigs := s.trigs + [t]).(slots := s.slots + 1)
  {
    InFlightAppend(s.trigs, t);
  }

  lemma AdmittingKeeps(s: State, t: Trig)
    requires Inv(s) && t.phase == Starting && !t.preempted && History(t, s.clock) && s.slots < MAX_SYNCS
    ensures Inv(Admitting(s, t))
  {
    AdmittedFlight(s, t);
    AppendCore(s, t);
    SlotsSet(s.(trigs := s.trigs + [t]), s.slots + 1);
  }

  lemma SpawnKeeps(s: State, project: string)
    requires Inv(s) && s.slots < MAX_SYNCS
    ensures Inv(Admitting(s, NewTrig(project)))
  {
    AdmittingKeeps(s, NewTrig(project));
  }

  lemma DeliverKeeps(s: State, r: Request)
    requires Inv(s)
    ensures Inv(Next(s, Deliver(r)))
  {
    if OutcomeOf(r, s.slots) == Accepted { SpawnKeeps(s, r.project.value); }
  }

  /** Every event of every interleaving keeps the invariant. */
  lemma NextKeeps(s: State, e: Event)
    requires Inv(s) && Enabled(s, e)
    ensures Inv(Next(s, e))
  {
    match e
    case Deliver(r) => DeliverKeeps(s, r);
    case Register(i) => RegisterKeeps(s, i);
    case TimerFires(i) => TimerKeeps(s, i);
    case CancelSeen(i) => ReturnKeeps(s, i);
    case FetchReturns(i) => ReturnKeeps(s, i);
    case Cleanup(i) => CleanupKeeps(s, i);
    case SelfCancel(i) => SelfCancelKeeps(s, i);
    case FreeSlot(i) => FreeSlotKeeps(s, i);
    case ParentDone(i) => ParentDoneKeeps(s, i);
    case Tick(d) => TickKeeps(s, d);
  }

  // ----- runs -----

  /** The state after the events of `run`, in order, if each was possible. */
  function After(run: seq<Event>): Option<State>
    decreases |run|
  {
    if run == [] then Some(START)
    else
      var before := After(Init(run));
      if before.Some? && Enabled(before.value, Last(run)) then Some(Next(before.value, Last(run))) else None
  }

  predicate Reaches(run: seq<Event>, s: State) { After(run) == Some(s) }

  lemma {:induction false} ReachesInv(run: seq<Event>, s: State)
    requires Reaches(run, s)
    ensures Inv(s)
    decreases |run|
  {
    if run != [] {
      var before := After(Init(run)).value;
      ReachesInv(Init(run), before);
      NextKeeps(before, Last(run));
    }
  }

  lemma ReachesStep(run: seq<Event>, s: State, e: Event)
    requires Reaches(run, s) && Enabled(s, e)
    ensures Reaches(run + [e], Next(s, e))
  {
    assert Init(run + [e]) == run && Last(run + [e]) == e;
  }

  // ----- what a run records -----

  /** The slots given back. */
  function Freed(run: seq<Event>): nat {
    if run == [] then 0 else Freed(Init(run)) + if Last(run).FreeSlot? then 1 else 0
  }

  /** The projects of the deliveries that pass the tests while fewer than eight goroutines are in flight, in order. */
  function AcceptedProjects(run: seq<Event>): seq<string> {
    if run == [] then []
    else
      var before, e := AcceptedProjects(Init(run)), Last(run);
      if e.Deliver? && PassesScreen(e.r) && |before| < Freed(Init(run)) + 8 then before + [e.r.project.value] else before
  }

  function Elapsed(run: seq<Event>): nat {
    if run == [] then 0 else Elapsed(Init(run)) + if Last(run).Tick? then Last(run).d else 0
  }

  lemma DeliverStep(s: State, r: Request)
    ensures var u := Next(s, Deliver(r));
            if PassesScreen(r) && s.slots < 8
            then u.slots == s.slots + 1 && u.clock == s.clock && u.trigs == s.trigs + [NewTrig(r.project.value)]
            else u == s
  {
    Answers(r, s.slots);
  }

  predicate SameProjects(s: State, u: State) {
    |u.trigs| == |s.trigs| && forall i :: 0 <= i < |s.trigs| ==> u.trigs[i].project == s.trigs[i].project
  }

  lemma RegisterProjects(s: State, i: nat)
    requires MapInv(s) && Enabled(s, Register(i))
    ensures SameProjects(s, Registering(s, i))
  {
    RegisteredTrigs(s, i);
  }

  lemma OtherStep(s: State, e: Event)
    requires MapInv(s) && Enabled(s, e) && !e.Deliver?
    ensures SameProjects(s, Next(s, e)) && Next(s, e).slots + (if e.FreeSlot? then 1 else 0) == s.slots
  {
    match e
    case Register(i) => RegisterProjects(s, i);
    case _ =>
  }

  /**
    In every run there is one trigger for each accepted delivery, in order and for its project, and a slot
    in use for each but those that gave theirs back.
   */
  lemma {:induction false} DeliveriesAreTriggers(run: seq<Event>, s: State)
    requires Reaches(run, s)
    ensures |s.trigs| == |AcceptedProjects(run)| == s.slots + Freed(run)
    ensures forall i :: 0 <= i < |s.trigs| ==> s.trigs[i].project == AcceptedProjects(run)[i]
    ensures s.clock == Elapsed(run)
    decreases |run|
  {
    if run != [] {
      var before, e := After(Init(run)).value, Last(run);
      DeliveriesAreTriggers(Init(run), before);
      ReachesInv(Init(run), before);
      if e.Deliver? { DeliverStep(before, e.r); } else { OtherStep(before, e); }
    }
  }

  predicate RegisteredAt(run: seq<Event>, i: nat, t: nat)
    decreases |run|
  {
    run != [] && ((Last(run) == Register(i) && t == Elapsed(Init(run))) || RegisteredAt(Init(run), i, t))
  }

  /** The timer of trigger `i` fired, and it called the fetch; live only if its parent had not ended before. */
  predicate Began(run: seq<Event>, i: nat, f: Fetch)
    decreases |run|
  {
    run != []
    && ((Last(run) == TimerFires(i)
         && (f == Cancelled(Elapsed(Init(run))) || (f == Live(Elapsed(Init(run))) && ParentDone(i) !in Init(run))))
        || Began(Init(run), i, f))
  }

  /** What the record of trigger `i` says is what happened to it. */
  ghost predicate IsRecord(run: seq<Event>, i: nat, t: Trig) {
    && (t.parentDone <==> ParentDone(i) in run)
    && (t.Registered() <==> Register(i) in run) && (t.Registered() ==> RegisteredAt(run, i, t.registeredAt))
    && (t.fetch != NotStarted <==> TimerFires(i) in run) && (t.fetch != NotStarted ==> Began(run, i, t.fetch))
  }

  /** How one event changes the record of one trigger. */
  lemma RecordStep(s: State, e: Event, i: nat)
    requires MapInv(s) && Enabled(s, e) && i < |s.trigs|
    ensures i < |Next(s, e).trigs|
    ensures var t, u := s.trigs[i], Next(s, e).trigs[i];
            && u.parentDone == (t.parentDone || e == ParentDone(i))
            && u.Registered() == (t.Registered() || e == Register(i))
            && u.registeredAt == (if e == Register(i) then s.clock else t.registeredAt)
            && u.fetch == (if e != TimerFires(i) then t.fetch
                           else if t.preempted || t.parentDone then Cancelled(s.clock) else Live(s.clock))
  {
    match e
    case Register(j) => RegisteredTrigs(s, j);
    case _ =>
  }

  lemma InSnoc<T>(s: seq<T>, x: T, y: T)
    ensures y in s + [x] <==> y in s || y == x
  {
  }

  /** Nothing happens to a trigger that is not there yet. */
  lemma {:induction false} NoneYet(run: seq<Event>, s: State, i: nat)
    requires Reaches(run, s) && |s.trigs| <= i
    ensures ParentDone(i) !in run && Register(i) !in run && TimerFires(i) !in run
    decreases |run|
  {
    if run != [] {
      var before, e := After(Init(run)).value, Last(run);
      ReachesInv(Init(run), before);
      if e.Deliver? { DeliverStep(before, e.r); } else { OtherStep(before, e); }
      NoneYet(Init(run), before, i);
      assert run == Init(run) + [e];
    }
  }

  lemma RecordExtends(run: seq<Event>, s: State, e: Event, i: nat)
    requires Reaches(run, s) && Inv(s) && Enabled(s, e) && i < |s.trigs| && IsRecord(run, i, s.trigs[i])
    ensures i < |Next(s, e).trigs| && IsRecord(run + [e], i, Next(s, e).trigs[i])
  {
    var all := run + [e];
    assert Init(all) == run && Last(all) == e;
    RecordStep(s, e, i);
    DeliveriesAreTriggers(run, s);
    InSnoc(run, e, ParentDone(i));
    InSnoc(run, e, Register(i));
    InSnoc(run, e, TimerFires(i));
  }

  /** The record of every trigger, in every run: its parent's end, its registration and its fetch, with their times. */
  lemma {:induction false} Recorded(run: seq<Event>, s: State, i: nat)
    requires Reaches(run, s) && i < |s.trigs|
    ensures IsRecord(run, i, s.trigs[i])
    decreases |run|
  {
    if run != [] {
      var before, e := After(Init(run)).value, Last(run);
      assert run == Init(run) + [e];
      ReachesInv(Init(run), before);
      if i < |before.trigs| {
        Recorded(Init(run), before, i);
        RecordExtends(Init(run), before, e, i);
      } else {
        NoneYet(Init(run), before, i);
        if e.Deliver? { DeliverStep(before, e.r); } else { OtherStep(before, e); }
        assert s.trigs[i] == NewTrig(s.trigs[i].project);
      }
    }
  }

  // ----- safety -----

  /**
    In every interleaving a registered trigger that has not cleaned up and was not pre-empted is the
    map's entry for its project, and the map has no other entries.
   */
  lemma PendingIsLive(run: seq<Event>, s: State, i: nat)
    requires Reaches(run, s) && i < |s.trigs|
    ensures Owns(s, i) <==> s.trigs[i].project in s.pending && s.pending[s.trigs[i].project] == i
  {
    ReachesInv(run, s);
  }

  /** So two uncleaned triggers of one project never both have a context that the manager left live. */
  lemma OneLivePerProject(run: seq<Event>, s: State, i: nat, j: nat)
    requires Reaches(run, s) && i < |s.trigs| && j < |s.trigs|
    requires Owns(s, i) && Owns(s, j) && s.trigs[i].project == s.trigs[j].project
    ensures i == j
  {
    ReachesInv(run, s);
  }

  /** And of all fetches of a project that are under way, at most one has a live context. */
  lemma OneLiveFetch(run: seq<Event>, s: State, i: nat, j: nat)
    requires Reaches(run, s) && InPhase(s, i, Fetching) && InPhase(s, j, Fetching)
    requires s.trigs[i].project == s.trigs[j].project && !s.trigs[i].ContextDone() && !s.trigs[j].ContextDone()
    ensures i == j
  {
    OneLivePerProject(run, s, i, j);
  }

  /** Two live contexts of one project: one of the two is between its cleanup and the cancel of its own context. */
  lemma TwoLiveContexts(run: seq<Event>, s: State, i: nat, j: nat)
    requires Reaches(run, s) && i < |s.trigs| && j < |s.trigs| && i != j
    requires s.trigs[i].Registered() && s.trigs[j].Registered() && s.trigs[i].project == s.trigs[j].project
    requires !s.trigs[i].ContextDone() && !s.trigs[j].ContextDone()
    ensures s.trigs[i].phase == Cleaned || s.trigs[j].phase == Cleaned
  {
    if s.trigs[i].Holding() && s.trigs[j].Holding() { OneLivePerProject(run, s, i, j); }
  }

  /** A cleanup takes away no entry but its own, and its own only if no newer trigger replaced it. */
  lemma CleanupSparesNewer(run: seq<Event>, s: State, i: nat)
    requires Reaches(run, s) && Enabled(s, Cleanup(i))
    ensures var u, p := Next(s, Cleanup(i)), s.trigs[i].project;
            && (forall q :: q in u.pending <==> q in s.pending && (q == p ==> s.trigs[i].preempted))
            && (forall q :: q in u.pending ==> u.pending[q] == s.pending[q] != i)
  {
    ReachesInv(run, s);
    assert Owns(s, i) <==> !s.trigs[i].preempted;
    if s.trigs[i].preempted {
      assert HasSuccessor(s, i);
      PreemptedHasEntry(s, i);
    }
  }

  /** A pre-empted trigger is no longer its project's entry. */
  lemma PreemptedHasEntry(s: State, i: nat)
    requires Inv(s) && i < |s.trigs| && s.trigs[i].preempted
    ensures s.trigs[i].project in s.pending ==> s.pending[s.trigs[i].project] != i
  {
  }

  // ----- no push is lost -----

  /** Trigger `j` is the last of the project of `i`, and its context is untouched by the manager. */
  ghost predicate Stands(s: State, i: nat, j: nat)
    requires i < |s.trigs|
  {
    && j < |s.trigs| && s.trigs[j].Registered() && s.trigs[j].project == s.trigs[i].project
    && s.trigs[i].order <= s.trigs[j].order && !HasSuccessor(s, j) && !s.trigs[j].preempted
  }

  /**
    Trigger `j` answers for the push of trigger `i`: same project, registered no earlier, nothing follows it
    and nothing pre-empted it; it fetched under a live context at least the debounce delay after `i`
    registered, or its parent context is done.
   */
  ghost predicate Serves(s: State, i: nat, j: nat)
    requires i < |s.trigs|
  {
    && Stands(s, i, j)
    && (s.trigs[j].parentDone
        || (s.trigs[j].fetch.Live? && s.trigs[i].registeredAt + 2000 <= s.trigs[j].fetch.at))
  }

  /** The trigger of the k-th accepted delivery, which was for `project`, has one that answers for it. */
  ghost predicate Served(s: State, k: nat, project: string) {
    k < |s.trigs| && exists j: nat :: Serves(s, k, j) && s.trigs[j].project == project
  }

  ghost predicate Undisturbed(s: State) {
    forall i :: 0 <= i < |s.trigs| ==> !s.trigs[i].parentDone
  }

  ghost predicate Settled(s: State) {
    forall i :: 0 <= i < |s.trigs| ==> s.trigs[i].PastCleanup()
  }

  lemma {:induction false} LastOf(s: State, i: nat) returns (j: nat)
    requires Inv(s) && i < |s.trigs| && s.trigs[i].Registered()
    ensures Stands(s, i, j)
    decreases s.registrations - s.trigs[i].order
  {
    if HasSuccessor(s, i) {
      var k :| 0 <= k < |s.trigs| && Succeeds(s.trigs[i], s.trigs[k]);
      j := LastOf(s, k);
    } else {
      j := i;
    }
  }

  /** The last trigger of a project is never pre-empted, and fetches under a live context unless its parent is done. */
  lemma LastFetchesLive(run: seq<Event>, s: State, i: nat)
    requires Reaches(run, s) && i < |s.trigs| && !HasSuccessor(s, i)
    requires s.trigs[i].phase == Returned || s.trigs[i].PastCleanup()
    ensures !s.trigs[i].preempted && (s.trigs[i].fetch.Live? || s.trigs[i].parentDone)
  {
    ReachesInv(run, s);
    assert History(s.trigs[i], s.clock);
  }

  /** At every moment of every run, a registered push is being waited for or served by the last trigger of its project. */
  lemma PushCovered(run: seq<Event>, s: State, i: nat) returns (j: nat)
    requires Reaches(run, s) && i < |s.trigs| && s.trigs[i].Registered()
    ensures Stands(s, i, j) && (s.trigs[j].phase == Debouncing || Serves(s, i, j))
  {
    ReachesInv(run, s);
    j := LastOf(s, i);
    assert History(s.trigs[j], s.clock);
  }

  /**
    No push is lost: in every run, once all triggers have finished the map is empty, and each accepted
    delivery is served by the last trigger of its project: no other trigger cancelled it before or during its
    fetch, and it fetched under a live context unless its own parent ended.
   */
  lemma NoPushLost(run: seq<Event>, s: State)
    requires Reaches(run, s) && Settled(s)
    ensures s.pending == map[]
    ensures forall k :: 0 <= k < |AcceptedProjects(run)| ==> Served(s, k, AcceptedProjects(run)[k])
  {
    ReachesInv(run, s);
    DeliveriesAreTriggers(run, s);
    assert forall i :: 0 <= i < |s.trigs| ==> !Owns(s, i);
    forall k | 0 <= k < |s.trigs| ensures Served(s, k, AcceptedProjects(run)[k]) {
      var j := PushCovered(run, s, k);
    }
  }

  // ----- coalescing -----

  /** A trigger followed within the debounce delay never starts a fetch under a live context. */
  lemma FollowedNeverLive(run: seq<Event>, s: State, i: nat, j: nat)
    requires Reaches(run, s) && i < |s.trigs| && j < |s.trigs|
    requires Succeeds(s.trigs[i], s.trigs[j]) && s.trigs[j].registeredAt < s.trigs[i].registeredAt + 2000
    ensures !s.trigs[i].fetch.Live?
  {
    ReachesInv(run, s);
    assert History(s.trigs[i], s.clock);
  }

  /** Each registered trigger of the project but the last is followed within the debounce delay. */
  ghost predicate IsBurst(s: State, project: string) {
    forall i :: 0 <= i < |s.trigs| && s.trigs[i].Registered() && s.trigs[i].project == project && HasSuccessor(s, i) ==>
      exists j :: 0 <= j < |s.trigs| && Succeeds(s.trigs[i], s.trigs[j])
                  && s.trigs[j].registeredAt < s.trigs[i].registeredAt + 2000
  }

  /** Trigger `j` ran the fetch of a project under a live context. */
  predicate LiveFetchOf(s: State, project: string, j: nat) {
    j < |s.trigs| && s.trigs[j].Registered() && s.trigs[j].project == project && s.trigs[j].fetch.Live?
  }

  /** Whichever way the races in the selects go, only the triggers that end a burst fetch under a live context. */
  lemma LiveIffLast(run: seq<Event>, s: State, i: nat)
    requires Reaches(run, s) && i < |s.trigs| && s.trigs[i].Registered() && IsBurst(s, s.trigs[i].project)
    requires Undisturbed(s) && Settled(s)
    ensures s.trigs[i].fetch.Live? <==> !HasSuccessor(s, i)
    ensures s.trigs[i].fetch.Live? ==> !s.trigs[i].preempted
  {
    if HasSuccessor(s, i) {
      var j :| 0 <= j < |s.trigs| && Succeeds(s.trigs[i], s.trigs[j])
               && s.trigs[j].registeredAt < s.trigs[i].registeredAt + 2000;
      FollowedNeverLive(run, s, i, j);
    } else {
      LastFetchesLive(run, s, i);
    }
  }

  /** A burst runs exactly one live fetch, that of the trigger nothing succeeds and nothing pre-empts. */
  lemma BurstFetchesOnce(run: seq<Event>, s: State, i: nat) returns (last: nat)
    requires Reaches(run, s) && i < |s.trigs| && s.trigs[i].Registered() && IsBurst(s, s.trigs[i].project)
    requires Undisturbed(s) && Settled(s)
    ensures LiveFetchOf(s, s.trigs[i].project, last) && !HasSuccessor(s, last) && !s.trigs[last].preempted
    ensures forall k: nat :: LiveFetchOf(s, s.trigs[i].project, k) ==> k == last
  {
    ReachesInv(run, s);
    last := LastOf(s, i);
    LiveIffLast(run, s, last);
    forall k: nat | LiveFetchOf(s, s.trigs[i].project, k) ensures k == last {
      LiveIffLast(run, s, k);
      assert !Succeeds(s.trigs[k], s.trigs[last]) && !Succeeds(s.trigs[last], s.trigs[k]);
    }
  }

  // ----- what the debounce does not exclude -----

  /** A delivery comes in and its trigger registers. */
  lemma Arrival(r: Request, run: seq<Event>, s: State) returns (more: seq<Event>, u: State)
    requires Reaches(run, s) && OutcomeOf(r, s.slots) == Accepted
    ensures Reaches(more, u) && u == Registering(Next(s, Deliver(r)), |s.trigs|)
  {
    var t, n := Next(s, Deliver(r)), |s.trigs|;
    u, more := Next(t, Register(n)), run + [Deliver(r)] + [Register(n)];
    ReachesStep(run, s, Deliver(r));
    ReachesStep(run + [Deliver(r)], t, Register(n));
  }

  /** The debounce delay passes and the select of trigger `i` picks its timer. */
  lemma TimeOut(run: seq<Event>, s: State, i: nat) returns (more: seq<Event>, u: State)
    requires Reaches(run, s) && InPhase(s, i, Debouncing) && s.trigs[i].registeredAt <= s.clock
    ensures Reaches(more, u) && u == StartFetch(s.(clock := s.clock + DEBOUNCE), i)
  {
    var t := Next(s, Tick(DEBOUNCE));
    u, more := Next(t, TimerFires(i)), run + [Tick(DEBOUNCE)] + [TimerFires(i)];
    ReachesStep(run, s, Tick(DEBOUNCE));
    ReachesStep(run + [Tick(DEBOUNCE)], t, TimerFires(i));
  }

  /** Two fetches of one project are under way. */
  ghost predicate Overlap(s: State) {
    exists i, j :: 0 <= i < |s.trigs| && 0 <= j < |s.trigs| && i != j && OverlapAt(s.trigs[i], s.trigs[j])
  }

  predicate OverlapAt(a: Trig, b: Trig) { a.phase == Fetching && b.phase == Fetching && a.project == b.project }

  /**
    When it can happen: the older trigger has been pre-empted for at least the debounce delay, because the
    newer one has waited that long before its own fetch.
   */
  lemma OverlapNeedsDelay(run: seq<Event>, s: State, i: nat, j: nat)
    requires Reaches(run, s) && i < |s.trigs| && j < |s.trigs|
    requires OverlapAt(s.trigs[i], s.trigs[j]) && s.trigs[i].order < s.trigs[j].order
    ensures s.trigs[i].preempted && s.trigs[j].fetch != NotStarted
    ensures s.clock >= s.trigs[j].fetch.at >= s.trigs[j].registeredAt + 2000
  {
    ReachesInv(run, s);
    assert Succeeds(s.trigs[i], s.trigs[j]) && History(s.trigs[j], s.clock);
  }

  /** A pre-empted trigger is out of its select and its fetch at most `latency` after any successor registered. */
  ghost predicate OnTime(s: State, latency: nat) {
    forall i, j :: 0 <= i < |s.trigs| && 0 <= j < |s.trigs| && Succeeds(s.trigs[i], s.trigs[j])
                   && (s.trigs[i].phase == Debouncing || s.trigs[i].phase == Fetching) ==>
      s.clock <= s.trigs[j].registeredAt + latency
  }

  /** At every moment of the run. */
  ghost predicate Prompt(run: seq<Event>, latency: nat)
    decreases |run|
  {
    run == [] || (Prompt(Init(run), latency) && (After(run).Some? ==> OnTime(After(run).value, latency)))
  }

  lemma OverlapIsLate(run: seq<Event>, s: State, latency: nat)
    requires Reaches(run, s) && Prompt(run, latency) && Overlap(s)
    ensures DEBOUNCE <= latency
  {
    var i, j :| 0 <= i < |s.trigs| && 0 <= j < |s.trigs| && i != j && OverlapAt(s.trigs[i], s.trigs[j]);
    ReachesInv(run, s);
    assert s.trigs[i].order != s.trigs[j].order;
    var a, b := if s.trigs[i].order < s.trigs[j].order then i else j, if s.trigs[i].order < s.trigs[j].order then j else i;
    OverlapNeedsDelay(run, s, a, b);
    PromptIsOnTime(run, s, latency);
    assert Succeeds(s.trigs[a], s.trigs[b]);
  }

  lemma PromptIsOnTime(run: seq<Event>, s: State, latency: nat)
    requires Reaches(run, s) && Prompt(run, latency)
    ensures OnTime(s, latency)
  {
  }

  lemma PromptStep(run: seq<Event>, s: State, e: Event, latency: nat)
    requires Reaches(run, s) && Prompt(run, latency) && Enabled(s, e) && OnTime(Next(s, e), latency)
    ensures Reaches(run + [e], Next(s, e)) && Prompt(run + [e], latency)
  {
    ReachesStep(run, s, e);
    assert Init(run + [e]) == run;
  }

  /**
    Pre-emption cancels a fetch, it does not wait for it: if pre-empted fetches may take the debounce delay
    to return, two fetches of any one project can be under way, the older one under a cancelled context.
   */
  lemma FetchesCanOverlap(r: Request, latency: nat) returns (run: seq<Event>, s: State)
    requires OutcomeOf(r, 0) == Accepted && latency >= DEBOUNCE
    ensures Reaches(run, s) && Prompt(run, latency) && Overlap(s)
    ensures |s.trigs| == 2 && s.trigs[0].project == s.trigs[1].project == r.project.value
    ensures InPhase(s, 0, Fetching) && s.trigs[0].fetch.Live? && s.trigs[0].ContextDone()
    ensures InPhase(s, 1, Fetching) && s.trigs[1].fetch.Live? && !s.trigs[1].ContextDone()
  {
    run, s := FirstFetch(r, latency);
    var p := r.project.value;
    var first := Trig(p, Fetching, true, false, 0, 0, Live(DEBOUNCE));
    run, s := Extend(run, s, Deliver(r), latency, State(
      map[p := 0], [first.(preempted := false), NewTrig(p)], 1, DEBOUNCE, 2));
    var second := Trig(p, Debouncing, false, false, 1, DEBOUNCE, NotStarted);
    run, s := Extend(run, s, Register(1), latency, State(map[p := 1], [first, second], 2, DEBOUNCE, 2));
    run, s := Extend(run, s, Tick(DEBOUNCE), latency, State(map[p := 1], [first, second], 2, 2 * DEBOUNCE, 2));
    var fetching := second.(phase := Fetching, fetch := Live(2 * DEBOUNCE));
    run, s := Extend(run, s, TimerFires(1), latency, State(map[p := 1], [first, fetching], 2, 2 * DEBOUNCE, 2));
    assert OverlapAt(s.trigs[0], s.trigs[1]);
  }

  /** One more event of a prompt run, whose next state is known. */
  lemma Extend(run: seq<Event>, s: State, e: Event, latency: nat, u: State) returns (more: seq<Event>, v: State)
    requires Reaches(run, s) && Prompt(run, latency) && Enabled(s, e) && u == Next(s, e) && OnTime(u, latency)
    ensures more == run + [e] && v == u && Reaches(more, u) && Prompt(more, latency)
  {
    PromptStep(run, s, e, latency);
    more, v := run + [e], u;
  }

  lemma AloneOnTime(s: State, latency: nat)
    requires |s.trigs| <= 1
    ensures OnTime(s, latency)
  {
  }

  lemma FirstDelivered(r: Request)
    requires OutcomeOf(r, 0) == Accepted
    ensures Next(START, Deliver(r)) == State(map[], [NewTrig(r.project.value)], 0, 0, 1)
  {
  }

  /** The first trigger waiting out its delay. */
  function Waiting(p: string, clock: nat): State {
    State(map[p := 0], [Trig(p, Debouncing, false, false, 0, 0, NotStarted)], 1, clock, 1)
  }

  lemma FirstRegistered(p: string)
    ensures Registering(State(map[], [NewTrig(p)], 0, 0, 1), 0) == Waiting(p, 0)
  {
  }

  /** A single trigger that has come to its fetch. */
  lemma FirstFetch(r: Request, latency: nat) returns (run: seq<Event>, s: State)
    requires OutcomeOf(r, 0) == Accepted
    ensures Reaches(run, s) && Prompt(run, latency)
    ensures s == State(map[r.project.value := 0],
                       [Trig(r.project.value, Fetching, false, false, 0, 0, Live(DEBOUNCE))], 1, DEBOUNCE, 1)
  {
    var p := r.project.value;
    FirstDelivered(r);
    var arrived := State(map[], [NewTrig(p)], 0, 0, 1);
    AloneOnTime(arrived, latency);
    run, s := Extend([], START, Deliver(r), latency, arrived);
    FirstRegistered(p);
    AloneOnTime(Waiting(p, 0), latency);
    run, s := Extend(run, s, Register(0), latency, Waiting(p, 0));
    run, s := FirstTimeOut(run, s, p, latency);
  }

  lemma FirstTimeOut(run: seq<Event>, s: State, p: string, latency: nat) returns (more: seq<Event>, u: State)
    requires Reaches(run, s) && Prompt(run, latency) && s == Waiting(p, 0)
    ensures Reaches(more, u) && Prompt(more, latency)
    ensures u == State(map[p := 0], [Trig(p, Fetching, false, false, 0, 0, Live(DEBOUNCE))], 1, DEBOUNCE, 1)
  {
    AloneOnTime(Waiting(p, DEBOUNCE), latency);
    more, u := Extend(run, s, Tick(DEBOUNCE), latency, Waiting(p, DEBOUNCE));
    var fetching := StartFetch(Waiting(p, DEBOUNCE), 0);
    AloneOnTime(fetching, latency);
    more, u := Extend(more, u, TimerFires(0), latency, fetching);
  }

  lemma SomeRequest() returns (r: Request)
    ensures OutcomeOf(r, 0) == Accepted
  {
    RoutesAccepted(["a"]);
    r := Request(true, true, true, Some("a"));
    assert Join(["a"], "/") == "a";
  }

  /**
    The debounce keeps the fetches of every project apart, in all runs, if and only if pre-empted triggers
    let go within less than the debounce delay.
   */
  lemma NoOverlapIff(latency: nat)
    ensures (forall run, s :: Reaches(run, s) && Prompt(run, latency) ==> !Overlap(s)) <==> latency < 2000
  {
    if latency < DEBOUNCE {
      forall run, s | Reaches(run, s) && Prompt(run, latency) ensures !Overlap(s) {
        if Overlap(s) { OverlapIsLate(run, s, latency); }
      }
    } else {
      var r := SomeRequest();
      var run, s := FetchesCanOverlap(r, latency);
    }
  }

  /** The select may pick the timer although a successor has cancelled: the fetch then starts cancelled. */
  lemma CancelledMayStillFetch(r: Request) returns (run: seq<Event>, s: State)
    requires OutcomeOf(r, 0) == Accepted
    ensures Reaches(run, s) && |s.trigs| == 2 && InPhase(s, 0, Fetching) && s.trigs[0].fetch.Cancelled?
  {
    run, s := Arrival(r, [], START);
    run, s := Arrival(r, run, s);
    run, s := TimeOut(run, s, 0);
  }

  // ----- the semaphore -----

  /** Registered, uncleaned triggers are in flight. */
  function Holders(trigs: seq<Trig>): set<nat> { set i | 0 <= i < |trigs| && trigs[i].Holding() }

  lemma {:induction false} HoldersInFlight(trigs: seq<Trig>)
    ensures |Holders(trigs)| <= InFlight(trigs)
  {
    if trigs == [] {
      assert Holders(trigs) == {};
    } else {
      var n := |trigs| - 1;
      HoldersInFlight(trigs[..n]);
      assert Holders(trigs) == Holders(trigs[..n]) + if trigs[n].Holding() then {n} else {};
    }
  }

  lemma {:induction false} ValuesCount(m: map<string, nat>, holders: set<nat>)
    requires forall p :: p in m ==> m[p] in holders
    requires forall p, q :: p in m && q in m && p != q ==> m[p] != m[q]
    ensures |m| <= |holders|
    decreases |m|
  {
    if m != map[] {
      var p :| p in m;
      var rest := m - {p};
      assert |rest| == |m| - 1 by { assert rest.Keys == m.Keys - {p}; }
      ValuesCount(rest, holders - {m[p]});
    }
  }

  /**
    Slots in use are exactly the handler goroutines that took one and have not given it back, never
    more than eight; so are, therefore, the entries of the map.
   */
  lemma SlotsConserved(run: seq<Event>, s: State)
    requires Reaches(run, s)
    ensures s.slots == InFlight(s.trigs) <= 8
    ensures |s.pending| <= s.slots
  {
    ReachesInv(run, s);
    HoldersInFlight(s.trigs);
    forall p | p in s.pending ensures s.pending[p] in Holders(s.trigs) { assert Owns(s, s.pending[p]); }
    ValuesCount(s.pending, Holders(s.trigs));
  }

  /**
    A delivery that passes the tests is turned away with 503 exactly if eight handler goroutines are in
    flight, and accepted otherwise, as one more trigger of its own project. Any outcome but acceptance leaves
    the whole receiver as it was.
   */
  lemma DeliveryEffect(run: seq<Event>, s: State, r: Request)
    requires Reaches(run, s)
    ensures var o, u := OutcomeOf(r, s.slots), Next(s, Deliver(r));
            && (Status(o) == 503 <==> PassesScreen(r) && InFlight(s.trigs) == 8)
            && (o == Accepted <==> PassesScreen(r) && InFlight(s.trigs) < 8)
            && (o != Accepted ==> u == s)
            && (o == Accepted ==> u.pending == s.pending && |u.trigs| == |s.trigs| + 1 && u.trigs[..|s.trigs|] == s.trigs)
            && (o == Accepted ==> Last(u.trigs).project == r.project.value && InFlight(u.trigs) == InFlight(s.trigs) + 1)
  {
    ReachesInv(run, s);
    Answers(r, s.slots);
    if OutcomeOf(r, s.slots) == Accepted { InFlightAppend(s.trigs, NewTrig(r.project.value)); }
  }

  // ----- draining -----

  function Rank(p: Phase): nat {
    match p
    case Starting => 6
    case Debouncing => 5
    case Fetching => 4
    case Returned => 3
    case Cleaned => 2
    case Released => 1
    case Done => 0
  }

  /** Steps that the triggers still have to take. */
  function Work(trigs: seq<Trig>): nat {
    if trigs == [] then 0 else Work(trigs[..|trigs| - 1]) + Rank(trigs[|trigs| - 1].phase)
  }

  lemma {:induction false} WorkUpdate(trigs: seq<Trig>, i: nat, t: Trig)
    requires i < |trigs|
    ensures Work(trigs[i := t]) == Work(trigs) - Rank(trigs[i].phase) + Rank(t.phase)
    decreases |trigs|
  {
    var n := |trigs| - 1;
    if i < n {
      assert trigs[i := t][..n] == trigs[..n][i := t];
      WorkUpdate(trigs[..n], i, t);
    } else {
      assert trigs[i := t][..n] == trigs[..n];
    }
  }

  /** The events that trigger goroutines take by themselves. */
  predicate IsOwnStep(e: Event) { !e.Deliver? && !e.ParentDone? && !e.Tick? }

  lemma RegisterWork(s: State, i: nat)
    requires MapInv(s) && Enabled(s, Register(i))
    ensures Work(Registering(s, i).trigs) == Work(s.trigs) - 1
  {
    var self := s.trigs[i].(phase := Debouncing, order := s.registrations, registeredAt := s.clock);
    var prev := Predecessor(s, i);
    if prev.Some? {
      var k := prev.value;
      var marked := s.trigs[k].(preempted := true);
      assert Owns(s, k) && k != i;
      WorkUpdate(s.trigs, k, marked);
      WorkUpdate(s.trigs[k := marked], i, self);
    } else {
      WorkUpdate(s.trigs, i, self);
    }
  }

  lemma MoveWork(s: State, i: nat, p: Phase)
    requires i < |s.trigs| && Rank(p) < Rank(s.trigs[i].phase)
    ensures Work(Move(s, i, p).trigs) < Work(s.trigs)
  {
    WorkUpdate(s.trigs, i, s.trigs[i].(phase := p));
  }

  /** Each of them lowers the work. */
  lemma OwnStepsDrain(s: State, e: Event)
    requires MapInv(s) && Enabled(s, e) && IsOwnStep(e)
    ensures Work(Next(s, e).trigs) < Work(s.trigs)
  {
    match e
    case Register(i) => RegisterWork(s, i);
    case TimerFires(i) => WorkUpdate(s.trigs, i, StartFetch(s, i).trigs[i]);
    case CancelSeen(i) => MoveWork(s, i, Returned);
    case FetchReturns(i) => MoveWork(s, i, Returned);
    case Cleanup(i) => MoveWork(s, i, Cleaned);
    case SelfCancel(i) => MoveWork(s, i, Released);
    case FreeSlot(i) => MoveWork(s, i, Done);
  }

  /** Time and the parents leave it alone. */
  lemma OthersLeaveWork(s: State, e: Event)
    requires Enabled(s, e) && (e.Tick? || e.ParentDone?)
    ensures Work(Next(s, e).trigs) == Work(s.trigs)
  {
    if e.ParentDone? { WorkUpdate(s.trigs, e.i, Next(s, e).trigs[e.i]); }
  }

  function OwnSteps(run: seq<Event>): nat
    decreases |run|
  {
    if run == [] then 0 else OwnSteps(Init(run)) + if IsOwnStep(Last(run)) then 1 else 0
  }

  ghost predicate AllDone(s: State) {
    forall i :: 0 <= i < |s.trigs| ==> s.trigs[i].phase == Done
  }

  /**
    Every schedule drains: however a run goes on without deliveries, each own step uses up work, so there
    are no more of them than there was work.
   */
  lemma {:induction false} SchedulesDrain(run: seq<Event>, s: State, more: seq<Event>, end: State)
    requires Reaches(run, s) && Reaches(run + more, end)
    requires forall k :: 0 <= k < |more| ==> !more[k].Deliver?
    ensures OwnSteps(more) + Work(end.trigs) <= Work(s.trigs)
    decreases |more|
  {
    if more == [] {
      assert run + [] == run;
    } else {
      var e := Last(more);
      assert more == Init(more) + [e] && !e.Deliver?;
      assert Init(run + more) == run + Init(more) && Last(run + more) == e;
      var before := After(run + Init(more)).value;
      SchedulesDrain(run, s, Init(more), before);
      ReachesInv(run + Init(more), before);
      if IsOwnStep(e) { OwnStepsDrain(before, e); } else { OthersLeaveWork(before, e); }
    }
  }

  lemma {:induction false} UnfinishedWork(trigs: seq<Trig>, i: nat)
    requires i < |trigs| && trigs[i].phase != Done
    ensures Work(trigs) > 0
  {
    if i < |trigs| - 1 { UnfinishedWork(trigs[..|trigs| - 1], i); }
  }

  lemma {:induction false} InFlightPositive(trigs: seq<Trig>, i: nat)
    requires i < |trigs| && trigs[i].phase != Done
    ensures InFlight(trigs) > 0
  {
    if i < |trigs| - 1 { InFlightPositive(trigs[..|trigs| - 1], i); }
  }

  /** The step a trigger can take next, at the latest after the debounce delay. */
  function OwnStep(s: State, i: nat): Event
    requires i < |s.trigs|
  {
    match s.trigs[i].phase
    case Starting => Register(i)
    case Debouncing => TimerFires(i)
    case Fetching => FetchReturns(i)
    case Returned => Cleanup(i)
    case Cleaned => SelfCancel(i)
    case _ => FreeSlot(i)
  }

  lemma OwnStepEnabled(s: State, i: nat)
    requires Inv(s) && i < |s.trigs| && s.trigs[i].phase != Done
    ensures Enabled(s, Tick(DEBOUNCE))
    ensures Enabled(Next(s, Tick(DEBOUNCE)), OwnStep(s, i)) && IsOwnStep(OwnStep(s, i))
  {
    if s.trigs[i].phase == Released { InFlightPositive(s.trigs, i); }
  }

  /**
    So no schedule goes on for ever with triggers left: while one is, fewer own steps were taken than there
    was work, and one more is possible after the debounce delay at the latest.
   */
  lemma NeverStuck(run: seq<Event>, s: State, more: seq<Event>, end: State) returns (i: nat)
    requires Reaches(run, s) && Reaches(run + more, end) && !AllDone(end)
    requires forall k :: 0 <= k < |more| ==> !more[k].Deliver?
    ensures OwnSteps(more) < Work(s.trigs)
    ensures i < |end.trigs| && IsOwnStep(OwnStep(end, i)) && Enabled(Next(end, Tick(DEBOUNCE)), OwnStep(end, i))
  {
    i :| 0 <= i < |end.trigs| && end.trigs[i].phase != Done;
    SchedulesDrain(run, s, more, end);
    UnfinishedWork(end.trigs, i);
    ReachesInv(run + more, end);
    OwnStepEnabled(end, i);
  }

  /** The triggers' own steps and the passing of time. */
  ghost predicate Unaided(run: seq<Event>) { forall k :: 0 <= k < |run| ==> IsOwnStep(run[k]) || run[k].Tick? }

  lemma UnaidedConcat(a: seq<Event>, b: seq<Event>)
    requires Unaided(a) && Unaided(b)
    ensures Unaided(a + b)
  {
  }

  lemma TwoSteps(run: seq<Event>, s: State, a: Event, b: Event)
    requires Reaches(run, s) && Enabled(s, a) && Enabled(Next(s, a), b)
    ensures Reaches(run + [a, b], Next(Next(s, a), b))
  {
    ReachesStep(run, s, a);
    ReachesStep(run + [a], Next(s, a), b);
    Regroup(run, [a], [b]);
    assert [a] + [b] == [a, b];
  }

  /** After the debounce delay an unfinished trigger can take its step, and there is less work to do then. */
  lemma StepWork(run: seq<Event>, s: State, i: nat, t: State)
    requires Reaches(run, s) && i < |s.trigs| && s.trigs[i].phase != Done && t == Next(s, Tick(DEBOUNCE))
    ensures Enabled(t, OwnStep(s, i)) && IsOwnStep(OwnStep(s, i))
    ensures Work(Next(t, OwnStep(s, i)).trigs) < Work(s.trigs)
  {
    ReachesInv(run, s);
    OwnStepEnabled(s, i);
    TickKeeps(s, DEBOUNCE);
    OwnStepsDrain(t, OwnStep(s, i));
  }

  /** An unfinished trigger takes its next step, once enough time has passed. */
  lemma OneStep(run: seq<Event>, s: State, i: nat) returns (more: seq<Event>, u: State)
    requires Reaches(run, s) && i < |s.trigs| && s.trigs[i].phase != Done
    ensures Reaches(run + more, u) && Work(u.trigs) < Work(s.trigs) && Unaided(more)
  {
    var a, b := Tick(DEBOUNCE), OwnStep(s, i);
    StepWork(run, s, i, Next(s, a));
    TwoSteps(run, s, a, b);
    more, u := [a, b], Next(Next(s, a), b);
  }

  /**
    The receiver drains: from any reachable state, without new deliveries, the triggers' own steps and
    the passing of time lead to a state in which all are done and every slot is free.
   */
  lemma {:induction false} Drains(run: seq<Event>, s: State) returns (more: seq<Event>, end: State)
    requires Reaches(run, s)
    ensures Reaches(run + more, end) && AllDone(end) && end.slots == 0 && end.pending == map[]
    ensures Unaided(more)
    decreases Work(s.trigs)
  {
    if AllDone(s) {
      more, end := [], s;
      assert run + [] == run;
      DoneIsEmpty(run, s);
    } else {
      var i :| 0 <= i < |s.trigs| && s.trigs[i].phase != Done;
      var round, u := OneStep(run, s, i);
      var rest;
      rest, end := Drains(run + round, u);
      more := round + rest;
      Regroup(run, round, rest);
      UnaidedConcat(round, rest);
    }
  }

  lemma DoneIsEmpty(run: seq<Event>, s: State)
    requires Reaches(run, s) && AllDone(s)
    ensures s.slots == 0 && s.pending == map[]
  {
    ReachesInv(run, s);
    NoneInFlight(s.trigs);
    NoneOwned(s);
  }

  lemma NoneOwned(s: State)
    requires MapInv(s) && AllDone(s)
    ensures s.pending == map[]
  {
    assert forall i :: 0 <= i < |s.trigs| ==> !Owns(s, i);
  }

  lemma {:induction false} NoneInFlight(trigs: seq<Trig>)
    requires forall i :: 0 <= i < |trigs| ==> trigs[i].phase == Done
    ensures InFlight(trigs) == 0
  {
    if trigs != [] { NoneInFlight(trigs[..|trigs| - 1]); }
  }

  // ----- the receiver as it updates its state -----

  /**
    Server and TriggerManager over their shared state. Each method is one atomic section: a request
    handled, the code between Lock and Unlock, or a step that touches one goroutine only.
   */
  class Receiver {
    var pending: map<string, nat>
    var trigs: seq<Trig>
    var registrations: nat
    var clock: nat
    var slots: nat

    ghost function View(): State
      reads this
    {
      State(pending, trigs, registrations, clock, slots)
    }

    ghost predicate Valid()
      reads this
    {
      Inv(View())
    }

    constructor ()
      ensures Valid() && View() == START
    {
      pending, trigs, registrations, clock, slots := map[], [], 0, 0, 0;
    }

    /** The tests before the semaphore; no status means the request passes them. */
    static method Screen(r: Request) returns (status: Option<int>)
      ensures status.None? <==> PassesScreen(r)
      ensures status.Some? ==>
                status.value == if !r.isPost then 405 else if !r.tokenMatches then 401 else if !r.bodyReadable then 400 else 200
    {
      Answers(r, 0);
      if !r.isPost { return Some(405); }
      if !r.tokenMatches { return Some(401); }
      if !r.bodyReadable { return Some(400); }
      if r.project.None? || r.project.value == "" { return Some(200); }
      if Validate(r.project.value).Some? { return Some(200); }
      return None;
    }

    /** An accepted delivery leaves one more trigger, of its own project; any other leaves everything as it was. */
    method HandleWebhook(r: Request) returns (status: int)
      requires Valid()
      modifies this
      ensures Valid() && View() == Next(old(View()), Deliver(r))
      ensures status == if !r.isPost then 405
                        else if !r.tokenMatches then 401
                        else if !r.bodyReadable then 400
                        else if PassesScreen(r) && old(slots) >= 8 then 503
                        else 200
      ensures PassesScreen(r) && old(slots) < 8 ==>
                && |trigs| == |old(trigs)| + 1 && trigs[..|old(trigs)|] == old(trigs) && slots == old(slots) + 1
                && Last(trigs).project == r.project.value && Last(trigs).phase == Starting && pending == old(pending)
      ensures !(PassesScreen(r) && old(slots) < 8) ==> View() == old(View())
    {
      Answers(r, slots);
      var rejected := Screen(r);
      if rejected.Some? {
        return rejected.value;
      }
      var admitted := Admit(r.project.value);
      status := if admitted then 200 else 503;
    }

    /** Try the semaphore without blocking; with a slot in hand, start the trigger's goroutine. */
    method Admit(project: string) returns (admitted: bool)
      requires Valid()
      modifies this
      ensures Valid() && (admitted <==> old(slots) < MAX_SYNCS)
      ensures View() == if admitted then Admitting(old(View()), NewTrig(project)) else old(View())
    {
      if slots >= MAX_SYNCS { return false; }
      ghost var before := View();
      slots := slots + 1;
      trigs := trigs + [NewTrig(project)];
      assert View() == Admitting(before, NewTrig(project));
      SpawnKeeps(before, project);
      return true;
    }

    /** Cancel whatever is pending for the project and become its entry. */
    method Trigger(i: nat)
      requires Valid() && Enabled(View(), Register(i))
      modifies this
      ensures Valid() && View() == Next(old(View()), Register(i))
    {
      ghost var before := View();
      PredecessorIsOther(before, i);
      var project := trigs[i].project;
      if project in pending {
        var previous := pending[project];
        trigs := trigs[previous := trigs[previous].(preempted := true)];
      }
      pending := pending[project := i];
      trigs := trigs[i := trigs[i].(phase := Debouncing, order := registrations, registeredAt := clock)];
      registrations := registrations + 1;
      assert View() == Registering(before, i);
      RegisterKeeps(before, i);
    }

    /** The select with its timer due: the fetch starts under whatever the context is by now. */
    method Fetch(i: nat)
      requires Valid() && Enabled(View(), TimerFires(i))
      modifies this
      ensures Valid() && View() == Next(old(View()), TimerFires(i))
    {
      ghost var before := View();
      var fetch := if trigs[i].ContextDone() then Cancelled(clock) else Live(clock);
      trigs := trigs[i := trigs[i].(phase := Fetching, fetch := fetch)];
      assert View() == StartFetch(before, i);
      TimerKeeps(before, i);
    }

    /** The select with its context done, or the fetch itself, returns. */
    method Return(i: nat)
      requires Valid() && (Enabled(View(), CancelSeen(i)) || Enabled(View(), FetchReturns(i)))
      modifies this
      ensures Valid() && View() == Move(old(View()), i, Returned)
    {
      ghost var before := View();
      trigs := trigs[i := trigs[i].(phase := Returned)];
      assert View() == Move(before, i, Returned);
      ReturnKeeps(before, i);
    }

    /** The deferred cleanup: the entry goes only if it is still this trigger's. */
    method CleanUp(i: nat)
      requires Valid() && Enabled(View(), Cleanup(i))
      modifies this
      ensures Valid() && View() == Next(old(View()), Cleanup(i))
    {
      ghost var before := View();
      var project := trigs[i].project;
      if project in pending && pending[project] == i { pending := pending - {project}; }
      trigs := trigs[i := trigs[i].(phase := Cleaned)];
      assert View() == CleaningUp(before, i);
      CleanupKeeps(before, i);
    }

    /** The deferred cancel of the trigger's own context. */
    method CancelSelf(i: nat)
      requires Valid() && Enabled(View(), SelfCancel(i))
      modifies this
      ensures Valid() && View() == Next(old(View()), SelfCancel(i))
    {
      ghost var before := View();
      trigs := trigs[i := trigs[i].(phase := Released)];
      assert View() == Move(before, i, Released);
      SelfCancelKeeps(before, i);
    }

    /** The handler goroutine's deferred receive from the semaphore. */
    method Release(i: nat)
      requires Valid() && Enabled(View(), FreeSlot(i))
      modifies this
      ensures Valid() && View() == Next(old(View()), FreeSlot(i))
    {
      ghost var after := Next(View(), FreeSlot(i));
      FreeSlotKeeps(View(), i);
      slots := slots - 1;
      trigs := trigs[i := trigs[i].(phase := Done)];
      assert View() == after;
    }
  }

  /** A pending entry is never the trigger about to register. */
  lemma PredecessorIsOther(s: State, i: nat)
    requires MapInv(s) && InPhase(s, i, Starting)
    ensures forall p :: p in s.pending ==> s.pending[p] != i && s.pending[p] < |s.trigs|
  {
    assert !Owns(s, i);
  }
}
