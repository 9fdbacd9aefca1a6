/**
 The invocation state machine under contention. Any number of workers hold states they once read; every write names the
 state it believes the row is in, and the database compares before it sets. A transaction is any sequence of these
 writes, committed whole or rolled back whole.
 */
module InvocationMachine {
  import opened Base

  datatype State =
    | Requested | Rejected | Authorized | AwaitingApproval | Approved | Denied | Ready | Executing | Executed
    | Validating | Succeeded | ValidationFailed | Failed | TimedOut | ExecutionIndeterminate | Expired | Cancelled
    | Superseded

  predicate Terminal(s: State) {
    s.Rejected? || s.Denied? || s.Expired? || s.Cancelled? || s.Failed? || s.TimedOut? || s.ExecutionIndeterminate?
    || s.Succeeded? || s.ValidationFailed? || s.Superseded?
  }

  /** LEGAL_TRANSITIONS; any state that is not terminal may also be superseded. */
  predicate Legal(a: State, b: State) {
    (b.Superseded? && !Terminal(a))
    || match a
       case Requested => b.Rejected? || b.Authorized?
       case Authorized => b.AwaitingApproval? || b.Ready?
       case AwaitingApproval => b.Approved? || b.Denied? || b.Expired? || b.Cancelled?
       case Approved => b.Ready?
       case Ready => b.Executing? || b.Expired? || b.Cancelled?
       case Executing => b.Executed? || b.Expired? || b.Failed? || b.TimedOut? || b.ExecutionIndeterminate?
       case Executed => b.Succeeded? || b.Validating?
       case Validating => b.Succeeded? || b.ValidationFailed?
       case _ => false
  }

  /** The states in which a worker holds a lease. */
  predicate Leased(s: State) { s.Executing? || s.Validating? }

  type Time = int

  datatype Lease = Lease(id: string, expires: Time)

  datatype GateRecord = GateRecord(allowed: bool, event: nat)

  /** The columns a transition may write. */
  datatype Row = Row(state: State, lease: Option<Lease>, attempts: nat, gate: Option<GateRecord>)

  datatype Event = Event(sequence: nat, from: Option<State>, to: State)

  datatype Machine = Machine(row: Row, events: seq<Event>)

  /** A new invocation: its row, and the event that says so. */
  const CREATED := Machine(Row(Requested, None, 0, None), [Event(1, None, Requested)])

  /** A lease exists exactly while a worker holds the row. */
  predicate LeaseChecks(r: Row) { Leased(r.state) <==> r.lease.Some? }

  datatype Error = InvalidStateTransition | StaleTransition | IntegrityError

  datatype Attempt = Ok(machine: Machine) | Lost(machine: Machine) | Raised(error: Error)

  /** append_event: MAX + 1 over the events this session sees, which may miss the last `unseen` of them; the unique
      constraint refuses a number already taken. */
  function Append(m: Machine, from: Option<State>, to: State, unseen: nat): Option<Machine> {
    var sequence := if unseen < |m.events| then |m.events| - unseen + 1 else 1;
    if exists i :: 0 <= i < |m.events| && m.events[i].sequence == sequence then None
    else Some(m.(events := m.events + [Event(sequence, from, to)]))
  }

  datatype LeaseWrite = Keep | Clear | Hold(lease: Lease)

  function WriteLease(old_: Option<Lease>, w: LeaseWrite): Option<Lease> {
    match w case Keep => old_ case Clear => None case Hold(lease) => Some(lease)
  }

  function Appended(m: Option<Machine>): Attempt {
    match m case Some(machine) => Ok(machine) case None => Raised(IntegrityError)
  }

  /** The winner's write: state, lease and event together. */
  function Swapped(m: Machine, to: State, lease: LeaseWrite, unseen: nat): Attempt {
    var row := m.row.(state := to, lease := WriteLease(m.row.lease, lease));
    if !LeaseChecks(row) then Raised(IntegrityError) else Appended(Append(m.(row := row), Some(m.row.state), to, unseen))
  }

  /** The loser's: an event that moves nothing and names the state its refresh read. The refresh and the append are two
      statements of a transaction that holds no lock on the row, so the row may have moved on in between. */
  function Outpaced(m: Machine, refreshed: State, unseen: nat): Attempt {
    match Append(m, Some(refreshed), refreshed, unseen)
    case Some(noted) => Lost(noted)
    case None => Raised(IntegrityError)
  }

  /** The row is still what the caller read: in the state it holds, and under the lease it expects if it names one. */
  predicate Matches(row: Row, held: State, expected: Option<Lease>) {
    row.state == held && (expected.None? || row.lease == expected)
  }

  /** transition: compare and set. `refreshed` is the state a refresh after a lost compare reads. */
  function CompareAndSet(m: Machine, held: State, to: State, expected: Option<Lease>, lease: LeaseWrite,
                         refreshed: State, unseen: nat): Attempt
  {
    if !Legal(held, to) then Raised(InvalidStateTransition)
    else if Matches(m.row, held, expected) then Swapped(m, to, lease, unseen)
    else Outpaced(m, refreshed, unseen)
  }

  /** claim_for_execution: one statement from READY to EXECUTING, the attempt counted with it. */
  function Claim(m: Machine, lease: Lease, unseen: nat): Attempt {
    if !m.row.state.Ready? then Lost(m)
    else
      var row := m.row.(state := Executing, lease := Some(lease), attempts := m.row.attempts + 1);
      Appended(Append(m.(row := row), Some(Ready), Executing, unseen))
  }

  /** This very lease holds the row for execution and has not run out. */
  predicate Owns(row: Row, leaseId: string, now: Time) {
    row.state.Executing? && row.lease.Some? && row.lease.value.id == leaseId && row.lease.value.expires > now
  }

  /** record_final_gate_if_owned: written only while the lease is still the caller's. */
  function RecordGate(m: Machine, leaseId: string, now: Time, gate: GateRecord): Attempt {
    if !Owns(m.row, leaseId, now) then Lost(m)
    else if !(exists i :: 0 <= i < |m.events| && m.events[i].sequence == gate.event) then Raised(IntegrityError)
    else Ok(m.(row := m.row.(gate := Some(gate))))
  }

  // ---- Transactions and runs ----

  /** `unseen` is how many of the latest events the writer's session does not see. A caller may catch a lost transition
      and commit the no-op event it left. A final-gate evaluation is noted with the state its worker last read, whatever
      the row says. */
  datatype Write =
    | DoTransition(held: State, to: State, expected: Option<Lease>, lease: LeaseWrite, refreshed: State, unseen: nat,
                   catches: bool)
    | DoClaim(claimed: Lease, unseen: nat)
    | DoNote(observed: State, unseen: nat)
    | DoRecordGate(leaseId: string, now: Time, gate: GateRecord)

  function Apply(m: Machine, w: Write): Attempt {
    match w
    case DoTransition(held, to, expected, lease, refreshed, unseen, catches) =>
      (match CompareAndSet(m, held, to, expected, lease, refreshed, unseen)
       case Lost(noted) => if catches then Lost(noted) else Raised(StaleTransition)
       case attempt => attempt)
    case DoClaim(lease, unseen) => Claim(m, lease, unseen)
    case DoNote(observed, unseen) => Appended(Append(m, Some(observed), observed, unseen))
    case DoRecordGate(leaseId, now, gate) => RecordGate(m, leaseId, now, gate)
  }

  /** The writes of one transaction; None when one raises, and nothing is kept. */
  function Transaction(m: Machine, ws: seq<Write>): Option<Machine> {
    if ws == [] then Some(m)
    else
      match Transaction(m, ws[..|ws| - 1])
      case None => None
      case Some(before) =>
        match Apply(before, ws[|ws| - 1])
        case Raised(_) => None
        case attempt => Some(attempt.machine)
  }

  function Commit(m: Machine, ws: seq<Write>): Machine {
    match Transaction(m, ws) case Some(after) => after case None => m
  }

  function Run(m: Machine, ts: seq<seq<Write>>): Machine {
    if ts == [] then m else Commit(Run(m, ts[..|ts| - 1]), ts[|ts| - 1])
  }

  // ---- The history an event log tells ----

  /** The states the log says the row has been in, in order: events that move nothing leave no trace. */
  function Trail(events: seq<Event>): seq<State> {
    if events == [] then []
    else
      var last := events[|events| - 1];
      var earlier := Trail(events[..|events| - 1]);
      if last.from == Some(last.to) then earlier else earlier + [last.to]
  }

  ghost predicate GapFree(events: seq<Event>) { forall i :: 0 <= i < |events| ==> events[i].sequence == i + 1 }

  predicate Moves(e: Event) { e.from != Some(e.to) }

  /** Event i, if it moves the row, starts where the events before it left off, and moves legally. */
  ghost predicate ChainedAt(events: seq<Event>, i: nat)
    requires i < |events|
  {
    Moves(events[i]) ==>
      && Trail(events[..i]) != [] && events[i].from == Some(Last(Trail(events[..i])))
      && Legal(Last(Trail(events[..i])), events[i].to)
  }

  ghost predicate Chained(events: seq<Event>) {
    && events != [] && events[0] == Event(1, None, Requested)
    && forall i :: 1 <= i < |events| ==> ChainedAt(events, i)
  }

  function Last(s: seq<State>): State
    requires s != []
  {
    s[|s| - 1]
  }

  /** The path the invocation has taken: from REQUESTED by legal moves. */
  ghost predicate LegalPath(path: seq<State>) {
    && path != [] && path[0].Requested?
    && forall i, j :: 0 <= i < j < |path| && j == i + 1 ==> Legal(path[i], path[j])
  }

  ghost predicate Inv(m: Machine) {
    && GapFree(m.events) && Chained(m.events)
    && LegalPath(Trail(m.events)) && m.row.state == Last(Trail(m.events))
    && LeaseChecks(m.row)
    && m.row.attempts <= (if Executing in Trail(m.events) then 1 else 0)
    && (m.row.gate.Some? ==> 1 <= m.row.gate.value.event <= |m.events| && Executing in Trail(m.events))
  }

  lemma TrailAppend(events: seq<Event>, e: Event)
    ensures Trail(events + [e]) == if Moves(e) then Trail(events) + [e.to] else Trail(events)
  {
    assert (events + [e])[..|events|] == events;
  }

  /** The one number the unique constraint leaves a writer is the next: one that misses an event is refused. */
  lemma SequenceIsForced(m: Machine, from: Option<State>, to: State, unseen: nat)
    requires GapFree(m.events) && m.events != []
    ensures Append(m, from, to, unseen).Some? <==> unseen == 0
    ensures unseen == 0 ==> Append(m, from, to, unseen).value.events == m.events + [Event(|m.events| + 1, from, to)]
  {
    if unseen > 0 {
      var k := if unseen < |m.events| then |m.events| - unseen else 0;
      assert m.events[k].sequence == k + 1;
    }
  }

  lemma ChainedAppend(events: seq<Event>, e: Event)
    requires Chained(events) && Trail(events) != []
    requires Moves(e) ==> e.from == Some(Last(Trail(events))) && Legal(Last(Trail(events)), e.to)
    ensures Chained(events + [e])
  {
    var more := events + [e];
    forall i | 1 <= i < |more| ensures ChainedAt(more, i) {
      if i < |events| {
        assert more[..i] == events[..i] && ChainedAt(events, i);
      } else {
        assert more[..i] == events;
      }
    }
  }

  lemma PathAppend(path: seq<State>, next: State)
    requires LegalPath(path) && Legal(Last(path), next)
    ensures LegalPath(path + [next])
  {
  }

  /** Ranks: every legal move climbs. */
  function Rank(s: State): nat {
    match s
    case Requested => 0
    case Authorized => 1
    case AwaitingApproval => 2
    case Approved => 3
    case Ready => 4
    case Executing => 5
    case Executed => 6
    case Validating => 7
    case _ => 8
  }

  lemma LegalClimbs(a: State, b: State)
    requires Legal(a, b)
    ensures Rank(a) < Rank(b) && !Terminal(a)
  {
  }

  lemma {:induction false} PathClimbs(path: seq<State>, i: nat, j: nat)
    requires LegalPath(path) && i < j < |path|
    ensures Rank(path[i]) + (j - i) <= Rank(path[j])
  {
    LegalClimbs(path[j - 1], path[j]);
    if i < j - 1 { PathClimbs(path, i, j - 1); }
  }

  // ---- Every write keeps the invariant, and a write that loses changes nothing ----

  /** One event appended: a legal move from where the log stands, or one that moves nothing. */
  lemma EventKeeps(m: Machine, row: Row, from: Option<State>, to: State, unseen: nat)
    requires Inv(m) && Append(m.(row := row), from, to, unseen).Some?
    requires from != Some(to) ==> from == Some(m.row.state) && Legal(m.row.state, to)
    requires row.state == if from == Some(to) then m.row.state else to
    requires LeaseChecks(row) && row.gate == m.row.gate
    requires row.attempts <= m.row.attempts + (if m.row.state.Ready? && row.state.Executing? then 1 else 0)
    ensures Inv(Append(m.(row := row), from, to, unseen).value)
    ensures Append(m.(row := row), from, to, unseen).value.row == row
    ensures Trail(Append(m.(row := row), from, to, unseen).value.events)
         == if from != Some(to) then Trail(m.events) + [to] else Trail(m.events)
  {
    SequenceIsForced(m.(row := row), from, to, unseen);
    var e := Event(|m.events| + 1, from, to);
    var path := Trail(m.events);
    TrailAppend(m.events, e);
    ChainedAppend(m.events, e);
    if from != Some(to) {
      PathAppend(path, to);
      assert Trail(m.events + [e])[|path|] == to;
      if m.row.state.Ready? { ReadyHasNotExecuted(path); }
    }
  }

  lemma ReadyHasNotExecuted(path: seq<State>)
    requires LegalPath(path) && Last(path).Ready?
    ensures Executing !in path
  {
    if Executing in path {
      var i :| 0 <= i < |path| && path[i].Executing?;
      PathClimbs(path, i, |path| - 1);
    }
  }

  lemma TransitionKeeps(m: Machine, held: State, to: State, expected: Option<Lease>, lease: LeaseWrite,
                        refreshed: State, unseen: nat)
    requires Inv(m)
    ensures var r := CompareAndSet(m, held, to, expected, lease, refreshed, unseen);
      && (!r.Raised? ==> Inv(r.machine))
      && (r.Lost? ==> r.machine.row == m.row && Trail(r.machine.events) == Trail(m.events))
      && (r.Ok? ==> m.row.state == held && Trail(r.machine.events) == Trail(m.events) + [to])
  {
    if Legal(held, to) {
      LegalClimbs(held, to);
      if Matches(m.row, held, expected) {
        var row := m.row.(state := to, lease := WriteLease(m.row.lease, lease));
        var next := Append(m.(row := row), Some(held), to, unseen);
        if LeaseChecks(row) && next.Some? {
          EventKeeps(m, row, Some(held), to, unseen);
        }
      } else {
        NoteKeeps(m, refreshed, unseen);
      }
    }
  }

  lemma NoteKeeps(m: Machine, observed: State, unseen: nat)
    requires Inv(m)
    ensures var r := Append(m, Some(observed), observed, unseen);
      r.Some? ==> Inv(r.value) && r.value.row == m.row && Trail(r.value.events) == Trail(m.events)
  {
    if Append(m, Some(observed), observed, unseen).Some? {
      assert m.(row := m.row) == m;
      EventKeeps(m, m.row, Some(observed), observed, unseen);
    }
  }

  lemma ClaimKeeps(m: Machine, lease: Lease, unseen: nat)
    requires Inv(m)
    ensures var r := Claim(m, lease, unseen);
      && (!r.Raised? ==> Inv(r.machine))
      && (r.Lost? ==> r.machine == m)
      && (r.Ok? ==> m.row.state.Ready? && r.machine.row.lease == Some(lease))
      && (r.Ok? ==> Trail(r.machine.events) == Trail(m.events) + [Executing])
  {
    if m.row.state.Ready? {
      var row := m.row.(state := Executing, lease := Some(lease), attempts := m.row.attempts + 1);
      if Append(m.(row := row), Some(Ready), Executing, unseen).Some? {
        EventKeeps(m, row, Some(Ready), Executing, unseen);
      }
    }
  }

  lemma RecordGateKeeps(m: Machine, leaseId: string, now: Time, gate: GateRecord)
    requires Inv(m)
    ensures var r := RecordGate(m, leaseId, now, gate);
      && (!r.Raised? ==> Inv(r.machine) && r.machine.events == m.events && r.machine.row.state == m.row.state)
      && (r.Lost? ==> r.machine == m)
      && (r.Ok? ==> m.row.state.Executing? && m.row.lease.Some? && m.row.lease.value.id == leaseId)
  {
    assert Last(Trail(m.events)) in Trail(m.events);
  }

  /** How a path grows. */
  ghost predicate Extends(path: seq<State>, longer: seq<State>) { |path| <= |longer| && longer[..|path|] == path }

  lemma WriteKeeps(m: Machine, w: Write)
    requires Inv(m)
    ensures var r := Apply(m, w);
      && (!r.Raised? ==> Inv(r.machine) && Extends(Trail(m.events), Trail(r.machine.events)))
      && (r.Lost? ==> r.machine.row == m.row && Trail(r.machine.events) == Trail(m.events))
  {
    match w
    case DoTransition(held, to, expected, lease, refreshed, unseen, catches) =>
      TransitionKeeps(m, held, to, expected, lease, refreshed, unseen);
    case DoClaim(lease, unseen) => ClaimKeeps(m, lease, unseen);
    case DoNote(observed, unseen) => NoteKeeps(m, observed, unseen);
    case DoRecordGate(leaseId, now, gate) => RecordGateKeeps(m, leaseId, now, gate);
  }

  lemma {:induction false} TransactionKeeps(m: Machine, ws: seq<Write>)
    requires Inv(m)
    ensures Inv(Commit(m, ws)) && Extends(Trail(m.events), Trail(Commit(m, ws).events))
  {
    if ws != [] && Transaction(m, ws[..|ws| - 1]).Some? {
      TransactionKeeps(m, ws[..|ws| - 1]);
      WriteKeeps(Commit(m, ws[..|ws| - 1]), ws[|ws| - 1]);
    }
  }

  // ---- Any workers, any staleness, any run ----

  lemma {:induction false} InvOverRuns(ts: seq<seq<Write>>)
    ensures Inv(Run(CREATED, ts))
  {
    if ts == [] {
      CreatedIsSound();
    } else {
      InvOverRuns(ts[..|ts| - 1]);
      TransactionKeeps(Run(CREATED, ts[..|ts| - 1]), ts[|ts| - 1]);
    }
  }

  /** A legal path repeats no state and has at most eight moves. */
  lemma PathIsShort(path: seq<State>)
    requires LegalPath(path)
    ensures |path| <= 9 && forall i, j :: 0 <= i < j < |path| ==> path[i] != path[j]
  {
    if |path| > 1 { PathClimbs(path, 0, |path| - 1); }
    forall i, j | 0 <= i < j < |path| ensures path[i] != path[j] { PathClimbs(path, i, j); }
  }

  /** Whatever any number of workers write from whatever they last read: the log is gap-free, its moves are a legal path
      from REQUESTED to the row's state, no state is entered twice, at most eight moves ever succeed, at most one worker
      ever claims the row for execution, and a lease is held exactly while executing or validating. */
  lemma {:induction false} ProtocolOverRuns(ts: seq<seq<Write>>)
    ensures var m := Run(CREATED, ts); var path := Trail(m.events);
      && GapFree(m.events) && Chained(m.events)
      && LegalPath(path) && m.row.state == Last(path)
      && |path| <= 9 && (forall i, j :: 0 <= i < j < |path| ==> path[i] != path[j])
      && m.row.attempts <= 1
      && (Leased(m.row.state) <==> m.row.lease.Some?)
  {
    InvOverRuns(ts);
    PathIsShort(Trail(Run(CREATED, ts).events));
  }

  lemma CreatedIsSound()
    ensures Inv(CREATED) && Trail(CREATED.events) == [Requested]
  {
    TrailAppend([], Event(1, None, Requested));
    assert [] + [Event(1, None, Requested)] == CREATED.events;
    assert CREATED.events[..1] == CREATED.events;
  }

  lemma FinishedWrite(m: Machine, w: Write)
    requires Inv(m) && Terminal(m.row.state)
    ensures !Apply(m, w).Raised? ==> Apply(m, w).machine.row == m.row && Trail(Apply(m, w).machine.events) == Trail(m.events)
  {
    WriteKeeps(m, w);
    match w
    case DoTransition(held, to, expected, lease, refreshed, unseen, catches) =>
      TransitionKeeps(m, held, to, expected, lease, refreshed, unseen);
      if Legal(held, to) { LegalClimbs(held, to); }
    case DoNote(observed, unseen) => NoteKeeps(m, observed, unseen);
    case _ =>
  }

  /** What any later transaction does to a finished invocation: nothing but leave no-op events. */
  lemma {:induction false} FinishedIsFinal(m: Machine, ws: seq<Write>)
    requires Inv(m) && Terminal(m.row.state)
    ensures Commit(m, ws).row == m.row && Trail(Commit(m, ws).events) == Trail(m.events)
  {
    if ws != [] && Transaction(m, ws[..|ws| - 1]).Some? {
      FinishedIsFinal(m, ws[..|ws| - 1]);
      TransactionKeeps(m, ws[..|ws| - 1]);
      FinishedWrite(Commit(m, ws[..|ws| - 1]), ws[|ws| - 1]);
    }
  }

  /** How a row got where it is. */
  lemma StepBefore(path: seq<State>, k: nat)
    requires LegalPath(path) && k < |path|
    ensures path[k].Executing? ==> k >= 1 && path[k - 1].Ready?
    ensures path[k].Executed? ==> k >= 1 && path[k - 1].Executing?
    ensures path[k].Validating? ==> k >= 1 && path[k - 1].Executed?
    ensures path[k].Succeeded? ==> k >= 1 && (path[k - 1].Executed? || path[k - 1].Validating?)
    ensures path[k].ExecutionIndeterminate? || path[k].Failed? || path[k].TimedOut? ==> k >= 1 && path[k - 1].Executing?
    ensures path[k].Approved? ==> k >= 1 && path[k - 1].AwaitingApproval?
    ensures path[k].Ready? ==> k >= 1 && (path[k - 1].Approved? || path[k - 1].Authorized?)
  {
    if k >= 1 { assert Legal(path[k - 1], path[k]); }
  }

  ghost predicate ExecutedAt(path: seq<State>, i: nat) {
    i + 2 < |path| && path[i].Ready? && path[i + 1].Executing? && path[i + 2].Executed?
  }

  lemma ExecutedCameThrough(path: seq<State>, k: nat)
    requires LegalPath(path) && k < |path| && path[k].Executed?
    ensures k >= 2 && ExecutedAt(path, k - 2)
  {
    StepBefore(path, k);
    StepBefore(path, k - 1);
  }

  lemma SucceededCameThrough(path: seq<State>)
    requires LegalPath(path) && Last(path).Succeeded?
    ensures exists i :: ExecutedAt(path, i)
  {
    var k := |path| - 1;
    StepBefore(path, k);
    if path[k - 1].Validating? {
      StepBefore(path, k - 1);
      ExecutedCameThrough(path, k - 2);
    } else {
      ExecutedCameThrough(path, k - 1);
    }
  }

  /** Success is never reached but by way of READY, EXECUTING and EXECUTED, in that order. */
  lemma {:induction false} SuccessWasExecuted(ts: seq<seq<Write>>)
    requires Run(CREATED, ts).row.state.Succeeded?
    ensures exists i :: ExecutedAt(Trail(Run(CREATED, ts).events), i)
  {
    InvOverRuns(ts);
    SucceededCameThrough(Trail(Run(CREATED, ts).events));
  }

  /** A worker whose read is out of date writes nothing: the row stays as the winner left it. What it leaves is one event
      that moves nothing, naming the state its refresh read. */
  lemma StaleWriterLoses(m: Machine, held: State, to: State, expected: Option<Lease>, lease: LeaseWrite,
                         refreshed: State, unseen: nat)
    requires Inv(m) && !Matches(m.row, held, expected)
    ensures !CompareAndSet(m, held, to, expected, lease, refreshed, unseen).Ok?
    ensures var r := CompareAndSet(m, held, to, expected, lease, refreshed, unseen);
      r.Lost? ==> r.machine.row == m.row && r.machine.events == m.events + [Event(|m.events| + 1, Some(refreshed), refreshed)]
  {
    SequenceIsForced(m, Some(refreshed), refreshed, unseen);
  }

  /** A worker whose read still holds wins: the row has the new state and the lease it was to have, and the event says from
      where to where; unless that would leave a lease without a holder or a holder without a lease. */
  lemma FreshWriterWins(m: Machine, held: State, to: State, expected: Option<Lease>, lease: LeaseWrite, refreshed: State)
    requires Inv(m) && Legal(held, to) && m.row.state == held && (expected.None? || m.row.lease == expected)
    ensures var r := CompareAndSet(m, held, to, expected, lease, refreshed, 0);
      var holder := if lease.Hold? then Some(lease.lease) else if lease.Keep? then m.row.lease else None;
      if (to.Executing? || to.Validating?) == holder.Some? then
        r == Ok(Machine(Row(to, holder, m.row.attempts, m.row.gate), m.events + [Event(|m.events| + 1, Some(held), to)]))
      else r == Raised(IntegrityError)
  {
    SequenceIsForced(m.(row := m.row.(state := to, lease := WriteLease(m.row.lease, lease))), Some(held), to, 0);
  }

  // ---- When the log as a whole chains ----

  /** Each event starts in the state the one before it ended in. */
  ghost predicate Chains(events: seq<Event>) {
    forall i, j :: 0 <= i < j < |events| && j == i + 1 ==> events[j].from == Some(events[i].to)
  }

  /** Each event that moves nothing names the state the log has reached. */
  ghost predicate NotesKeepUp(events: seq<Event>) {
    forall i :: 1 <= i < |events| && !Moves(events[i]) ==>
      Trail(events[..i]) != [] && events[i].to == Last(Trail(events[..i]))
  }

  lemma ChainedPrefix(events: seq<Event>, n: nat)
    requires Chained(events) && 1 <= n <= |events|
    ensures Chained(events[..n])
  {
    forall i | 1 <= i < n ensures ChainedAt(events[..n], i) {
      assert events[..n][..i] == events[..i] && ChainedAt(events, i);
    }
  }

  lemma NotesKeepUpAppend(events: seq<Event>, e: Event)
    requires events != []
    ensures NotesKeepUp(events + [e]) <==>
      NotesKeepUp(events) && (!Moves(e) ==> Trail(events) != [] && e.to == Last(Trail(events)))
  {
    var more := events + [e];
    assert forall i | 1 <= i < |events| :: more[..i] == events[..i] && more[i] == events[i];
    assert more[..|events|] == events && more[|events|] == e;
  }

  /** The log's moves chain always; the log as a whole chains exactly when its notes keep up, and its last event then
      names the state it has reached. */
  lemma {:induction false} ChainsExactly(events: seq<Event>)
    requires Chained(events)
    ensures Chains(events) <==> NotesKeepUp(events)
    ensures Chains(events) ==> Trail(events) != [] && Last(Trail(events)) == events[|events| - 1].to
  {
    var n := |events| - 1;
    var front, e := events[..n], events[n];
    assert events == front + [e];
    TrailAppend(front, e);
    if n > 0 {
      ChainedPrefix(events, n);
      ChainsExactly(front);
      NotesKeepUpAppend(front, e);
      assert ChainedAt(events, n);
      ChainsAppend(front, e);
    }
  }

  lemma ChainsAppend(events: seq<Event>, e: Event)
    requires events != []
    ensures Chains(events + [e]) <==> Chains(events) && e.from == Some(events[|events| - 1].to)
  {
    var more := events + [e];
    assert forall i | 0 <= i < |events| :: more[i] == events[i];
    if Chains(more) {
      forall i, j | 0 <= i < j < |events| && j == i + 1 ensures events[j].from == Some(events[i].to) {
        assert more[j].from == Some(more[i].to);
      }
      assert more[|events|].from == Some(more[|events| - 1].to);
    }
  }

  /** A write that leaves an event which moves nothing, a note or a lost transition that is caught, is attentive when the
      state its worker read is the one the row is in as the event is written. */
  ghost predicate Attentive(m: Machine, w: Write) {
    match w
    case DoNote(observed, _) => observed == m.row.state
    case DoTransition(held, _, expected, _, refreshed, _, catches) =>
      catches && !Matches(m.row, held, expected) ==> refreshed == m.row.state
    case _ => true
  }

  lemma WriteKeepsUp(m: Machine, w: Write)
    requires Inv(m) && !Apply(m, w).Raised?
    ensures NotesKeepUp(Apply(m, w).machine.events) <==> NotesKeepUp(m.events) && Attentive(m, w)
  {
    match w
    case DoTransition(held, to, _, _, _, unseen, _) =>
      LegalClimbs(held, to);
      var e := Apply(m, w).machine.events[|m.events|];
      NotesKeepUpAppend(m.events, e);
    case DoClaim(_, unseen) =>
      if m.row.state.Ready? { NotesKeepUpAppend(m.events, Apply(m, w).machine.events[|m.events|]); }
    case DoNote(observed, unseen) => NotesKeepUpAppend(m.events, Apply(m, w).machine.events[|m.events|]);
    case DoRecordGate(_, _, _) =>
  }

  /** Every write of the transaction was attentive. */
  ghost predicate AllAttentive(m: Machine, ws: seq<Write>) {
    if ws == [] then true
    else
      var before := Transaction(m, ws[..|ws| - 1]);
      AllAttentive(m, ws[..|ws| - 1]) && (before.Some? ==> Attentive(before.value, ws[|ws| - 1]))
  }

  lemma {:induction false} TransactionKeepsUp(m: Machine, ws: seq<Write>)
    requires Inv(m) && Transaction(m, ws).Some?
    ensures NotesKeepUp(Commit(m, ws).events) <==> NotesKeepUp(m.events) && AllAttentive(m, ws)
  {
    if ws != [] {
      var front := ws[..|ws| - 1];
      TransactionKeepsUp(m, front);
      TransactionKeeps(m, front);
      WriteKeepsUp(Commit(m, front), ws[|ws| - 1]);
    }
  }

  /** Every write the run committed was attentive. */
  ghost predicate AttentiveRun(m: Machine, ts: seq<seq<Write>>) {
    if ts == [] then true
    else
      var before, ws := Run(m, ts[..|ts| - 1]), ts[|ts| - 1];
      AttentiveRun(m, ts[..|ts| - 1]) && (Transaction(before, ws).Some? ==> AllAttentive(before, ws))
  }

  lemma {:induction false} RunKeepsUp(ts: seq<seq<Write>>)
    ensures NotesKeepUp(Run(CREATED, ts).events) <==> AttentiveRun(CREATED, ts)
  {
    if ts != [] {
      var before, ws := Run(CREATED, ts[..|ts| - 1]), ts[|ts| - 1];
      RunKeepsUp(ts[..|ts| - 1]);
      InvOverRuns(ts[..|ts| - 1]);
      if Transaction(before, ws).Some? { TransactionKeepsUp(before, ws); }
    }
  }

  /** The log chains event by event exactly when every committed event that moves nothing, whether a note or a lost
      transition's, named the state the row was in. */
  lemma {:induction false} LogChainsExactly(ts: seq<seq<Write>>)
    ensures Chains(Run(CREATED, ts).events) <==> AttentiveRun(CREATED, ts)
  {
    InvOverRuns(ts);
    RunKeepsUp(ts);
    ChainsExactly(Run(CREATED, ts).events);
  }

  // ---- The writes as statements on the stored row ----

  datatype Outcome = Won | LostTheRace | Refused(error: Error)

  /** The outcome and the row and log it left, as the specification has them; a failed write is rolled back by its
      transaction, so what it left does not matter. */
  ghost predicate Answers(spec: Attempt, outcome: Outcome, now: Machine) {
    match spec
    case Ok(m) => outcome.Won? && now == m
    case Lost(m) => outcome.LostTheRace? && now == m
    case Raised(error) => outcome == Refused(error)
  }

  class Store {
    var row: Row
    var events: seq<Event>

    ghost function Contents(): Machine
      reads this
    {
      Machine(row, events)
    }

    constructor ()
      ensures Contents() == CREATED
    {
      row := Row(Requested, None, 0, None);
      events := [Event(1, None, Requested)];
    }

    method AppendEvent(from: Option<State>, to: State, unseen: nat) returns (inserted: bool)
      modifies this`events
      ensures inserted <==> Append(old(Contents()), from, to, unseen).Some?
      ensures inserted ==> Contents() == Append(old(Contents()), from, to, unseen).value
    {
      var sequence := if unseen < |events| then |events| - unseen + 1 else 1;
      var i := 0;
      while i < |events|
        invariant i <= |events|
        invariant forall k :: 0 <= k < i ==> events[k].sequence != sequence
      {
        if events[i].sequence == sequence { return false; }
        i := i + 1;
      }
      events := events + [Event(sequence, from, to)];
      return true;
    }

    method SwapState(to: State, lease: LeaseWrite, unseen: nat) returns (outcome: Outcome)
      modifies this
      ensures Answers(Swapped(old(Contents()), to, lease, unseen), outcome, Contents())
    {
      var held := row.state;
      row := row.(state := to, lease := WriteLease(row.lease, lease));
      if !LeaseChecks(row) { return Refused(IntegrityError); }
      var logged := AppendEvent(Some(held), to, unseen);
      return if logged then Won else Refused(IntegrityError);
    }

    method StandDown(refreshed: State, unseen: nat) returns (outcome: Outcome)
      modifies this`events
      ensures Answers(Outpaced(old(Contents()), refreshed, unseen), outcome, Contents())
    {
      var noted := AppendEvent(Some(refreshed), refreshed, unseen);
      return if noted then LostTheRace else Refused(IntegrityError);
    }

    method Transition(held: State, to: State, expected: Option<Lease>, lease: LeaseWrite, refreshed: State, unseen: nat)
      returns (outcome: Outcome)
      modifies this
      ensures Answers(CompareAndSet(old(Contents()), held, to, expected, lease, refreshed, unseen), outcome, Contents())
    {
      ghost var before := Contents();
      if !Legal(held, to) { return Refused(InvalidStateTransition); }
      if Matches(row, held, expected) {
        assert CompareAndSet(before, held, to, expected, lease, refreshed, unseen) == Swapped(before, to, lease, unseen);
        outcome := SwapState(to, lease, unseen);
      } else {
        assert CompareAndSet(before, held, to, expected, lease, refreshed, unseen) == Outpaced(before, refreshed, unseen);
        outcome := StandDown(refreshed, unseen);
      }
    }

    method ClaimForExecution(lease: Lease, unseen: nat) returns (outcome: Outcome)
      modifies this
      ensures Answers(Claim(old(Contents()), lease, unseen), outcome, Contents())
    {
      if row.state != Ready { return LostTheRace; }
      row := row.(state := Executing, lease := Some(lease), attempts := row.attempts + 1);
      var logged := AppendEvent(Some(Ready), Executing, unseen);
      return if logged then Won else Refused(IntegrityError);
    }

    method RecordFinalGateIfOwned(leaseId: string, now: Time, gate: GateRecord) returns (outcome: Outcome)
      modifies this`row
      ensures Answers(RecordGate(old(Contents()), leaseId, now, gate), outcome, Contents())
    {
      if !Owns(row, leaseId, now) { return LostTheRace; }
      if !exists i :: 0 <= i < |events| && events[i].sequence == gate.event { return Refused(IntegrityError); }
      row := row.(gate := Some(gate));
      return Won;
    }

    /** One write as its caller makes it: a lost transition is an error unless it is caught. */
    method Write(w: Write) returns (outcome: Outcome)
      modifies this
      ensures Answers(Apply(old(Contents()), w), outcome, Contents())
    {
      match w {
        case DoTransition(held, to, expected, lease, refreshed, unseen, catches) =>
          outcome := Transition(held, to, expected, lease, refreshed, unseen);
          if outcome.LostTheRace? && !catches { outcome := Refused(StaleTransition); }
        case DoClaim(lease, unseen) =>
          outcome := ClaimForExecution(lease, unseen);
        case DoNote(observed, unseen) =>
          var noted := AppendEvent(Some(observed), observed, unseen);
          outcome := if noted then Won else Refused(IntegrityError);
        case DoRecordGate(leaseId, now, gate) =>
          outcome := RecordFinalGateIfOwned(leaseId, now, gate);
      }
    }

    /** A session: its writes in order, rolled back to where it began if one of them fails. */
    method Session(ws: seq<Write>) returns (committed: bool)
      modifies this
      ensures committed <==> Transaction(old(Contents()), ws).Some?
      ensures Contents() == Commit(old(Contents()), ws)
    {
      var savedRow, savedEvents := row, events;
      var i := 0;
      while i < |ws|
        invariant i <= |ws|
        invariant Transaction(old(Contents()), ws[..i]) == Some(Contents())
      {
        TakeNext(ws, i);
        var outcome := Write(ws[i]);
        if outcome.Refused? {
          NoneStaysNone(old(Contents()), ws, i + 1);
          row, events := savedRow, savedEvents;
          return false;
        }
        i := i + 1;
      }
      TakeAll(ws);
      return true;
    }
  }

  lemma {:induction false} NoneStaysNone(m: Machine, ws: seq<Write>, i: nat)
    requires i <= |ws| && Transaction(m, ws[..i]).None?
    ensures Transaction(m, ws).None?
    decreases |ws|
  {
    if i < |ws| {
      assert ws[..|ws| - 1][..i] == ws[..i];
      NoneStaysNone(m, ws[..|ws| - 1], i);
    } else {
      TakeAll(ws);
    }
  }
}
