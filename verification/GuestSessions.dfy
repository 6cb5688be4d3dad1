/**
 Guest sessions of one machine: four slots admit calls, a ledger keeps the name of every finished
 call until an inspection confirms that its session is gone, and four unconfirmed names stop
 admission. Calls interleave freely; the ledger's operations run under its lock.
 */
module GuestSessions {
  import opened Common

  const SLOTS: nat := 4
  const ADMISSION_LIMIT: nat := 4
  const LEDGER_LIMIT: nat := 7
  const SESSION_LIMIT: int := 24
  const RETRY: nat := 5

  datatype Operation = GuestRun | CopyTo | CopyFrom | OtherOperation

  /** VBoxManage names a session by its process and operation. */
  datatype Name = Name(process: int, operation: Operation)

  datatype ErrorCode = SessionLimit | NotOwned | InspectionFailed | Protocol | Attribution | ReleaseUnconfirmed

  /** `pending` holds each name once, in the order in which they are sent to the inspector. */
  datatype Ledger = Ledger(pending: seq<Name>, inFlight: int, unmatched: int, unmatchedKnown: bool,
                           attributionPending: bool, after: Option<int>, error: Option<ErrorCode>, next: nat)

  const EMPTY_LEDGER := Ledger([], 0, 0, false, false, None, None, 0)

  datatype Inspection = Inspection(before: int, after: int, remaining: seq<bool>, runtimeVersion: nat)

  /** The outcome of asking the host: whether the machine is still ours, and what the inspector said. */
  datatype Probe = Probe(owned: bool, inspection: Option<Inspection>)

  datatype Result = Result(process: int, reaped: bool)

  // ---------- The ledger ----------

  /** A finished call's name is kept unless no process ran to the end or it opens no session. */
  function Retire(l: Ledger, operation: Operation, result: Result): Ledger {
    var n := l.inFlight - 1;
    var l' := l.(inFlight := n, next := if n == 0 && l.attributionPending then 0 else l.next);
    var name := Name(result.process, operation);
    if result.process <= 1 || !result.reaped || operation == OtherOperation || name in l.pending then l'
    else l'.(pending := l.pending + [name])
  }

  predicate Blocked(l: Ledger) {
    || l.attributionPending
    || |l.pending| >= ADMISSION_LIMIT
    || (l.after.Some? && l.after.value >= SESSION_LIMIT)
    || l.error == Some(Attribution)
  }

  function Count(flags: seq<bool>): (r: nat)
    ensures r <= |flags|
  {
    if flags == [] then 0 else Count(flags[..|flags| - 1]) + if flags[|flags| - 1] then 1 else 0
  }

  /** The names whose flag is set. */
  function Kept(names: seq<Name>, flags: seq<bool>): seq<Name>
    requires |names| == |flags|
  {
    if names == [] then []
    else
      var n := |names| - 1;
      Kept(names[..n], flags[..n]) + if flags[n] then [names[n]] else []
  }

  predicate WellFormed(l: Ledger, i: Inspection) {
    |i.remaining| == |l.pending| && i.runtimeVersion != 0 && i.before >= 0 && i.after >= 0
  }

  /** More unattributed sessions than the known ones and the running calls can explain. */
  predicate Unexplained(l: Ledger, unmatched: int) {
    l.unmatchedKnown && (l.pending != [] || l.attributionPending) && unmatched > l.unmatched + l.inFlight
  }

  /** Why a reconciliation changes nothing but the error, if it does not. */
  function Failure(l: Ledger, probe: Probe): Option<ErrorCode> {
    if |l.pending| > LEDGER_LIMIT then Some(SessionLimit)
    else if l.pending != [] && !probe.owned then Some(NotOwned)
    else if probe.inspection.None? then Some(InspectionFailed)
    else
      var i := probe.inspection.value;
      if !WellFormed(l, i) || i.after < Count(i.remaining) then Some(Protocol)
      else if Unexplained(l, i.after - Count(i.remaining)) then Some(Attribution)
      else None
  }

  function Reconcile(l: Ledger, probe: Probe, now: nat): Ledger {
    var failure := Failure(l, probe);
    if failure.Some? then l.(next := now + RETRY, error := failure)
    else
      var i := probe.inspection.value;
      var unmatched := i.after - Count(i.remaining);
      var attribution := l.inFlight > 0 && (!l.unmatchedKnown || unmatched > l.unmatched);
      var pending := Kept(l.pending, i.remaining);
      Ledger(pending, l.inFlight,
             if l.inFlight == 0 then unmatched else l.unmatched, l.inFlight == 0 || l.unmatchedKnown,
             attribution, Some(i.after), if pending != [] then Some(ReleaseUnconfirmed) else None,
             if pending == [] && i.after < SESSION_LIMIT && !attribution then 0 else now + RETRY)
  }

  datatype Admission = Admitted | Awaiting | Refused

  /** One turn of the admission loop. */
  function Admit(l: Ledger, probe: Probe, now: nat): (Ledger, Admission) {
    var l' := if Blocked(l) && now >= l.next then Reconcile(l, probe, now) else l;
    if l'.attributionPending && l'.inFlight > 0 then (l', Awaiting)
    else if Blocked(l') then (l', Refused)
    else (l'.(inFlight := l'.inFlight + 1), Admitted)
  }

  function Observe(l: Ledger, probe: Probe, now: nat): Ledger {
    if now >= l.next then Reconcile(l, probe, now) else l
  }

  // ---------- Calls ----------

  type Call = nat

  /** Calls by phase: waiting for a slot, asking for admission, running, and retired but still in their slot. */
  datatype World = World(ledger: Ledger, waiting: set<Call>, asking: set<Call>, running: set<Call>, leaving: set<Call>)

  const START := World(EMPTY_LEDGER, {}, {}, {}, {})

  datatype Action =
    | Arrive(call: Call)
    | TakeSlot(call: Call)
    | GiveUp(call: Call)
    | AskAdmission(call: Call, probe: Probe, now: nat)
    | Finish(call: Call, operation: Operation, result: Result)
    | ReleaseSlot(call: Call)
    | Inspect(probe: Probe, now: nat)

  function SlotsHeld(w: World): nat {
    |w.asking| + |w.running| + |w.leaving|
  }

  predicate Known(w: World, call: Call) {
    call in w.waiting + w.asking + w.running + w.leaving
  }

  /** An action out of turn changes nothing. A call gives up for want of time or when it is refused. */
  function Step(w: World, a: Action): World {
    match a
    case Arrive(c) => if Known(w, c) then w else w.(waiting := w.waiting + {c})
    case TakeSlot(c) =>
      if c in w.waiting && SlotsHeld(w) < SLOTS then w.(waiting := w.waiting - {c}, asking := w.asking + {c}) else w
    case GiveUp(c) => w.(waiting := w.waiting - {c}, asking := w.asking - {c})
    case AskAdmission(c, probe, now) =>
      if c !in w.asking then w
      else
        var (l, admission) := Admit(w.ledger, probe, now);
        if admission == Admitted then w.(ledger := l, asking := w.asking - {c}, running := w.running + {c})
        else w.(ledger := l)
    case Finish(c, operation, result) =>
      if c !in w.running then w
      else w.(ledger := Retire(w.ledger, operation, result), running := w.running - {c}, leaving := w.leaving + {c})
    case ReleaseSlot(c) => w.(leaving := w.leaving - {c})
    case Inspect(probe, now) => w.(ledger := Observe(w.ledger, probe, now))
  }

  function Run(w: World, actions: seq<Action>): World
    decreases |actions|
  {
    if actions == [] then w else Run(Step(w, actions[0]), actions[1..])
  }

  // ---------- Reconciliation ----------

  ghost predicate Distinct(names: seq<Name>) {
    forall i, j :: 0 <= i < j < |names| ==> names[i] != names[j]
  }

  lemma DistinctAppends(names: seq<Name>, name: Name)
    requires Distinct(names) && name !in names
    ensures Distinct(names + [name])
  {
  }

  lemma LastIsNew(names: seq<Name>)
    requires Distinct(names) && names != []
    ensures names[|names| - 1] !in names[..|names| - 1] && Distinct(names[..|names| - 1])
  {
  }

  lemma {:induction false} KeptWithin(names: seq<Name>, flags: seq<bool>)
    requires |names| == |flags|
    ensures |Kept(names, flags)| == Count(flags)
    ensures forall name :: name in Kept(names, flags) ==> name in names
  {
    if names != [] {
      KeptWithin(names[..|names| - 1], flags[..|names| - 1]);
    }
  }

  /** Exactly the names reported absent are dropped, and the rest are still listed once. */
  lemma {:induction false} KeptIsExact(names: seq<Name>, flags: seq<bool>)
    requires |names| == |flags| && Distinct(names)
    ensures Distinct(Kept(names, flags))
    ensures forall i :: 0 <= i < |names| ==> (names[i] in Kept(names, flags) <==> flags[i])
  {
    if names != [] {
      var n := |names| - 1;
      KeptIsExact(names[..n], flags[..n]);
      KeptWithin(names[..n], flags[..n]);
      LastIsNew(names);
      DistinctAppends(Kept(names[..n], flags[..n]), names[n]);
      assert forall i :: 0 <= i < n ==> names[..n][i] == names[i];
    }
  }

  /** A name leaves the ledger only when a successful inspection reports its session gone. */
  lemma NamesLeaveOnlyWhenGone(l: Ledger, probe: Probe, now: nat, k: nat)
    requires Distinct(l.pending) && k < |l.pending|
    ensures l.pending[k] !in Reconcile(l, probe, now).pending <==>
            Failure(l, probe).None? && !probe.inspection.value.remaining[k]
  {
    if Failure(l, probe).None? {
      KeptIsExact(l.pending, probe.inspection.value.remaining);
    }
  }

  /** The count of foreign sessions is raised only when nothing of ours could account for the difference. */
  lemma BaselineGrowsOnlyWhenIdle(l: Ledger, probe: Probe, now: nat)
    requires l.unmatchedKnown && l.inFlight >= 0
    ensures Reconcile(l, probe, now).unmatched > l.unmatched ==>
              l.inFlight == 0 && l.pending == [] && !l.attributionPending
  {
  }

  // ---------- What each operation does ----------

  /** A finished run or copy whose process ran to its end is recorded once; nothing else is. */
  lemma RetiredIsRecorded(l: Ledger, operation: Operation, result: Result, name: Name)
    requires name == Name(result.process, operation)
    ensures var r := Retire(l, operation, result);
      var recorded := operation in {GuestRun, CopyTo, CopyFrom} && result.process > 1 && result.reaped;
      && r.pending == l.pending + (if recorded && name !in l.pending then [name] else [])
      && r.inFlight == l.inFlight - 1
      && r.next == (if l.inFlight == 1 && l.attributionPending then 0 else l.next)
      && r == l.(pending := r.pending, inFlight := r.inFlight, next := r.next)
  {
  }

  /** Fewer than four names, fewer than 24 sessions at the last look, and nothing unattributed. */
  predicate Clear(l: Ledger) {
    && !l.attributionPending && l.error != Some(Attribution)
    && |l.pending| < 4 && (l.after.Some? ==> l.after.value < 24)
  }

  /** A turn looks again when it must and may, and then admits exactly when the ledger is clear. */
  lemma AdmitsExactlyWhen(l: Ledger, probe: Probe, now: nat)
    ensures var (l', admission) := Admit(l, probe, now);
      var looked := if !Clear(l) && now >= l.next then Reconcile(l, probe, now) else l;
      && (admission == Admitted <==> Clear(looked))
      && (admission == Awaiting <==> looked.attributionPending && looked.inFlight > 0)
      && l' == if Clear(looked) then looked.(inFlight := looked.inFlight + 1) else looked
  {
  }

  /** An observer looks again when the time has come, and not before. */
  lemma ObservesWhenDue(l: Ledger, probe: Probe, now: nat)
    ensures Observe(l, probe, now) == if now < l.next then l else Reconcile(l, probe, now)
  {
  }

  /** The phases of one call: where an action can take it. */
  lemma CallsMove(w: World, c: Call, operation: Operation, result: Result, probe: Probe, now: nat)
    ensures !Known(w, c) ==> c in Step(w, Arrive(c)).waiting
    ensures c in w.waiting && SlotsHeld(w) < 4 ==>
              c in Step(w, TakeSlot(c)).asking && c !in Step(w, TakeSlot(c)).waiting
    ensures SlotsHeld(w) >= 4 ==> Step(w, TakeSlot(c)) == w
    ensures c !in Step(w, GiveUp(c)).waiting && c !in Step(w, GiveUp(c)).asking
    ensures c in w.asking ==>
              var next, admission := Step(w, AskAdmission(c, probe, now)), Admit(w.ledger, probe, now).1;
              (c in next.asking <==> admission != Admitted) && (admission == Admitted ==> c in next.running)
    ensures c in w.running ==>
              var next := Step(w, Finish(c, operation, result));
              c in next.leaving && c !in next.running && next.ledger == Retire(w.ledger, operation, result)
    ensures c !in Step(w, ReleaseSlot(c)).leaving
  {
  }

  lemma {:induction false} CountIsKept(names: seq<Name>, flags: seq<bool>)
    requires |names| == |flags|
    ensures Count(flags) == |Kept(names, flags)|
  {
    KeptWithin(names, flags);
  }

  /** An answer that can be used: a flag for each name, a version, and counts that fit the flags. */
  predicate Usable(l: Ledger, i: Inspection)
  {
    && |i.remaining| == |l.pending| && i.runtimeVersion != 0
    && i.before >= 0 && i.after >= 0 && i.after >= |Kept(l.pending, i.remaining)|
  }

  /** Why a look fails, in the order in which it is found out. */
  lemma FailsExactlyWhen(l: Ledger, probe: Probe)
    ensures Failure(l, probe) ==
      if |l.pending| > 7 then Some(SessionLimit)
      else if l.pending != [] && !probe.owned then Some(NotOwned)
      else if probe.inspection.None? then Some(InspectionFailed)
      else
        var i := probe.inspection.value;
        if !Usable(l, i) then Some(Protocol)
        else
          var others := i.after - |Kept(l.pending, i.remaining)|;
          if l.unmatchedKnown && (l.pending != [] || l.attributionPending) && others > l.unmatched + l.inFlight
          then Some(Attribution) else None
  {
    if probe.inspection.Some? && |probe.inspection.value.remaining| == |l.pending| {
      CountIsKept(l.pending, probe.inspection.value.remaining);
    }
  }

  /**
   A look that fails changes the error and the next time only. One that succeeds keeps the names
   still there, learns the number of other sessions while nothing runs, is unsure of them when calls
   run and more appear, and may be repeated at once when nothing is left to wait for.
   */
  lemma ReconcilesExactly(l: Ledger, probe: Probe, now: nat)
    ensures var r := Reconcile(l, probe, now);
      if Failure(l, probe).Some? then r == l.(next := now + 5, error := Failure(l, probe))
      else
        var i := probe.inspection.value;
        var kept := Kept(l.pending, i.remaining);
        var others := i.after - |kept|;
        var unsure := l.inFlight > 0 && (!l.unmatchedKnown || others > l.unmatched);
        && r.pending == kept && r.inFlight == l.inFlight && r.after == Some(i.after)
        && r.unmatched == (if l.inFlight == 0 then others else l.unmatched)
        && (r.unmatchedKnown <==> l.inFlight == 0 || l.unmatchedKnown)
        && (r.attributionPending <==> unsure)
        && r.error == (if kept == [] then None else Some(ReleaseUnconfirmed))
        && r.next == (if kept == [] && i.after < 24 && !unsure then 0 else now + 5)
  {
    if Failure(l, probe).None? {
      CountIsKept(l.pending, probe.inspection.value.remaining);
    }
  }

  // ---------- The bound ----------

  ghost predicate Inv(w: World) {
    && w.asking !! w.running && w.asking !! w.leaving && w.running !! w.leaving && w.waiting !! w.asking + w.running + w.leaving
    && SlotsHeld(w) <= SLOTS
    && w.ledger.inFlight == |w.running|
    && Distinct(w.ledger.pending)
    && |w.ledger.pending| + w.ledger.inFlight <= LEDGER_LIMIT
    && w.ledger.error != Some(SessionLimit)
  }

  lemma ReconcileShrinks(l: Ledger, probe: Probe, now: nat)
    requires Distinct(l.pending) && |l.pending| <= LEDGER_LIMIT
    ensures var r := Reconcile(l, probe, now);
      && Distinct(r.pending) && |r.pending| <= |l.pending| && r.inFlight == l.inFlight
      && r.error != Some(SessionLimit)
  {
    if Failure(l, probe).None? {
      KeptIsExact(l.pending, probe.inspection.value.remaining);
      KeptWithin(l.pending, probe.inspection.value.remaining);
    }
  }

  lemma Moves(source: set<Call>, target: set<Call>, c: Call)
    requires c in source && c !in target
    ensures |source - {c}| == |source| - 1 && |target + {c}| == |target| + 1
  {
  }

  lemma AdmitKeepsLedger(l: Ledger, probe: Probe, now: nat)
    requires Distinct(l.pending) && l.inFlight < SLOTS && |l.pending| + l.inFlight <= LEDGER_LIMIT
    requires l.error != Some(SessionLimit) && l.inFlight >= 0
    ensures var (l', admission) := Admit(l, probe, now);
      && Distinct(l'.pending) && |l'.pending| + l'.inFlight <= LEDGER_LIMIT && l'.error != Some(SessionLimit)
      && l'.inFlight == if admission == Admitted then l.inFlight + 1 else l.inFlight
  {
    ReconcileShrinks(l, probe, now);
  }

  lemma AdmitKeepsInv(w: World, c: Call, probe: Probe, now: nat)
    requires Inv(w)
    ensures Inv(Step(w, AskAdmission(c, probe, now)))
  {
    if c in w.asking {
      AdmitKeepsLedger(w.ledger, probe, now);
      Moves(w.asking, w.running, c);
    }
  }

  lemma FinishKeepsInv(w: World, c: Call, operation: Operation, result: Result)
    requires Inv(w)
    ensures Inv(Step(w, Finish(c, operation, result)))
  {
    if c in w.running {
      Moves(w.running, w.leaving, c);
    }
  }

  lemma TakeSlotKeepsInv(w: World, c: Call)
    requires Inv(w) && c in w.waiting && SlotsHeld(w) < SLOTS
    ensures Inv(Step(w, TakeSlot(c)))
  {
    assert c !in w.asking + w.running + w.leaving;
    assert |w.asking + {c}| == |w.asking| + 1;
  }

  lemma GiveUpKeepsInv(w: World, c: Call)
    requires Inv(w)
    ensures Inv(Step(w, GiveUp(c)))
  {
    Fewer(w.asking, c);
  }

  lemma ReleaseSlotKeepsInv(w: World, c: Call)
    requires Inv(w)
    ensures Inv(Step(w, ReleaseSlot(c)))
  {
    Fewer(w.leaving, c);
  }

  lemma Fewer(calls: set<Call>, c: Call)
    ensures |calls - {c}| <= |calls|
  {
    if c !in calls {
      assert calls - {c} == calls;
    }
  }

  lemma StepKeepsInv(w: World, a: Action)
    requires Inv(w)
    ensures Inv(Step(w, a))
  {
    match a
    case AskAdmission(c, probe, now) => AdmitKeepsInv(w, c, probe, now);
    case Finish(c, operation, result) => FinishKeepsInv(w, c, operation, result);
    case Inspect(probe, now) => ReconcileShrinks(w.ledger, probe, now);
    case Arrive(_) =>
    case TakeSlot(c) => if c in w.waiting && SlotsHeld(w) < SLOTS { TakeSlotKeepsInv(w, c); }
    case GiveUp(c) => GiveUpKeepsInv(w, c);
    case ReleaseSlot(c) => ReleaseSlotKeepsInv(w, c);
  }

  lemma {:induction false} RunKeepsInv(w: World, actions: seq<Action>)
    requires Inv(w)
    ensures Inv(Run(w, actions))
    decreases |actions|
  {
    if actions != [] {
      StepKeepsInv(w, actions[0]);
      RunKeepsInv(Step(w, actions[0]), actions[1..]);
    }
  }

  /** In every interleaving: at most seven unconfirmed names and running calls, so the ledger never overflows. */
  lemma NeverMoreThanSeven(actions: seq<Action>)
    ensures SlotsHeld(Run(START, actions)) <= 4
    ensures var l := Run(START, actions).ledger;
      && 0 <= l.inFlight <= 4 && |l.pending| + l.inFlight <= 7
      && l.error != Some(SessionLimit)
  {
    assert Inv(START);
    RunKeepsInv(START, actions);
  }

  /** No call is admitted while unattributed sessions are unexplained or four names are unconfirmed. */
  lemma AdmittedOnlyWhenClear(l: Ledger, probe: Probe, now: nat)
    requires Distinct(l.pending) && |l.pending| <= LEDGER_LIMIT
    ensures var (l', admission) := Admit(l, probe, now);
      (admission == Admitted <==> l'.inFlight == l.inFlight + 1) &&
      (admission == Admitted ==> |l'.pending| < ADMISSION_LIMIT && !l'.attributionPending && l'.error != Some(Attribution))
  {
    ReconcileShrinks(l, probe, now);
  }

  // ---------- The bound is reached ----------

  const NO_PROBE := Probe(false, None)

  function Entering(c: Call): seq<Action> {
    [Arrive(c), TakeSlot(c), AskAdmission(c, NO_PROBE, 0)]
  }

  function Leaving(c: Call): seq<Action> {
    [Finish(c, GuestRun, Result(2 + c, true)), ReleaseSlot(c)]
  }

  function Names(n: nat): seq<Name> {
    seq(n, i => Name(2 + i, GuestRun))
  }

  /** The calls below n are done and unconfirmed, and these are running. */
  function At(n: nat, running: set<Call>): World {
    World(EMPTY_LEDGER.(pending := Names(n), inFlight := |running|), {}, {}, running, {})
  }

  lemma {:induction false} RunOfConcat(w: World, a: seq<Action>, b: seq<Action>)
    ensures Run(w, a + b) == Run(Run(w, a), b)
    decreases |a|
  {
    if a == [] {
      assert a + b == b;
    } else {
      assert (a + b)[1..] == a[1..] + b;
      RunOfConcat(Step(w, a[0]), a[1..], b);
    }
  }

  lemma Chain(w: World, a: seq<Action>, middle: World, b: seq<Action>, last: World)
    requires Run(w, a) == middle && Run(middle, b) == last
    ensures Run(w, a + b) == last
  {
    RunOfConcat(w, a, b);
  }

  lemma RunOfTwo(w: World, a: Action, b: Action)
    ensures Run(w, [a, b]) == Step(Step(w, a), b)
  {
    assert [a, b][1..] == [b] && [b][1..] == [];
    assert Run(w, [a, b]) == Run(Step(w, a), [b]) == Run(Step(Step(w, a), b), []);
  }

  lemma EnteringIsAdmitted(c: Call, n: nat, running: set<Call>)
    requires n < ADMISSION_LIMIT && |running| < SLOTS && c !in running
    ensures Run(At(n, running), Entering(c)) == At(n, running + {c})
  {
    var w := At(n, running);
    var w1 := Step(w, Arrive(c));
    var w2 := Step(w1, TakeSlot(c));
    assert w2 == w.(asking := {c});
    var w3 := Step(w2, AskAdmission(c, NO_PROBE, 0));
    assert w3 == At(n, running + {c});
    RunOfConcat(w, [Arrive(c)], [TakeSlot(c), AskAdmission(c, NO_PROBE, 0)]);
    assert Run(w, [Arrive(c)]) == w1;
    RunOfTwo(w1, TakeSlot(c), AskAdmission(c, NO_PROBE, 0));
    assert Entering(c) == [Arrive(c)] + [TakeSlot(c), AskAdmission(c, NO_PROBE, 0)];
  }

  lemma LeavingIsNamed(n: nat, running: set<Call>, rest: set<Call>)
    requires n in running && rest == running - {n}
    ensures Run(At(n, running), Leaving(n)) == At(n + 1, rest)
  {
    var w := At(n, running);
    assert Names(n + 1) == Names(n) + [Name(2 + n, GuestRun)];
    var w1 := Step(w, Finish(n, GuestRun, Result(2 + n, true)));
    assert w1 == At(n + 1, rest).(leaving := {n});
    RunOfTwo(w, Finish(n, GuestRun, Result(2 + n, true)), ReleaseSlot(n));
    assert Step(w1, ReleaseSlot(n)) == At(n + 1, rest);
  }

  /** One after the other, the calls from n on. */
  lemma OneByOne(n: nat, count: nat) returns (actions: seq<Action>)
    requires n + count <= ADMISSION_LIMIT
    ensures Run(At(n, {}), actions) == At(n + count, {})
    decreases count
  {
    if count == 0 {
      actions := [];
    } else {
      EnteringIsAdmitted(n, n, {});
      LeavingIsNamed(n, {} + {n}, {});
      RunOfConcat(At(n, {}), Entering(n), Leaving(n));
      var rest := OneByOne(n + 1, count - 1);
      RunOfConcat(At(n, {}), Entering(n) + Leaving(n), rest);
      actions := Entering(n) + Leaving(n) + rest;
    }
  }

  function CallsFrom(n: nat, count: nat): (r: set<Call>)
    ensures forall c: Call :: c in r <==> n <= c < n + count
    ensures |r| == count
  {
    if count == 0 then {} else CallsFrom(n, count - 1) + {n + count - 1}
  }

  lemma AllEnter(n: nat, count: nat) returns (actions: seq<Action>)
    requires n < ADMISSION_LIMIT && count <= SLOTS
    ensures Run(At(n, {}), actions) == At(n, CallsFrom(n, count))
    decreases count
  {
    if count == 0 {
      actions := [];
    } else {
      var others, c := CallsFrom(n, count - 1), n + count - 1;
      var before := AllEnter(n, count - 1);
      EnteringIsAdmitted(c, n, others);
      Chain(At(n, {}), before, At(n, others), Entering(c), At(n, others + {c}));
      actions := before + Entering(c);
    }
  }

  lemma AllLeave(n: nat, count: nat, running: set<Call>) returns (actions: seq<Action>)
    requires forall c: Call :: c in running <==> n <= c < n + count
    ensures Run(At(n, running), actions) == At(n + count, {})
    decreases count
  {
    if count == 0 {
      actions := [];
      assert running == {};
    } else {
      var others := running - {n};
      LeavingIsNamed(n, running, others);
      var rest := AllLeave(n + 1, count - 1, others);
      Chain(At(n, running), Leaving(n), At(n + 1, others), rest, At(n + count, {}));
      actions := Leaving(n) + rest;
    }
  }

  /** Three calls one by one, then four together: seven names are unconfirmed. */
  lemma SevenIsReached()
    ensures exists actions :: |Run(START, actions).ledger.pending| == 7
  {
    assert Names(0) == [] && START == At(0, {});
    var first := OneByOne(0, ADMISSION_LIMIT - 1);
    var entering := AllEnter(ADMISSION_LIMIT - 1, SLOTS);
    var leaving := AllLeave(ADMISSION_LIMIT - 1, SLOTS, CallsFrom(ADMISSION_LIMIT - 1, SLOTS));
    RunOfConcat(START, first, entering);
    RunOfConcat(START, first + entering, leaving);
    assert |Run(START, first + entering + leaving).ledger.pending| == LEDGER_LIMIT;
  }

  // ---------- The ledger as an object ----------

  class SessionTracker {
    var pending: seq<Name>
    var inFlight: int
    var unmatched: int
    var unmatchedKnown: bool
    var attributionPending: bool
    var after: Option<int>
    var error: Option<ErrorCode>
    var next: nat

    function View(): Ledger
      reads this
    {
      Ledger(pending, inFlight, unmatched, unmatchedKnown, attributionPending, after, error, next)
    }

    constructor ()
      ensures View() == EMPTY_LEDGER
    {
      pending, inFlight, unmatched, unmatchedKnown := [], 0, 0, false;
      attributionPending, after, error, next := false, None, None, 0;
    }

    method RetireGuestSession(operation: Operation, result: Result)
      modifies this
      ensures View() == Retire(old(View()), operation, result)
    {
      inFlight := inFlight - 1;
      if inFlight == 0 && attributionPending {
        next := 0;
      }
      if result.process <= 1 || !result.reaped || operation == OtherOperation {
        return;
      }
      var name := Name(result.process, operation);
      if name !in pending {
        pending := pending + [name];
      }
    }

    method CountPresent(remaining: seq<bool>) returns (present: nat)
      ensures present == Count(remaining)
    {
      present := 0;
      for i := 0 to |remaining|
        invariant present == Count(remaining[..i])
      {
        assert remaining[..i + 1][..i] == remaining[..i];
        if remaining[i] {
          present := present + 1;
        }
      }
      assert remaining[..|remaining|] == remaining;
    }

    method DeleteAbsent(remaining: seq<bool>)
      requires |remaining| == |pending|
      modifies this`pending
      ensures pending == Kept(old(pending), remaining)
    {
      var names := pending;
      pending := [];
      for i := 0 to |names|
        invariant pending == Kept(names[..i], remaining[..i])
      {
        assert names[..i + 1][..i] == names[..i] && remaining[..i + 1][..i] == remaining[..i];
        if remaining[i] {
          pending := pending + [names[i]];
        }
      }
      assert names[..|names|] == names && remaining[..|names|] == remaining;
    }

    method ReconcileSessions(probe: Probe, now: nat)
      modifies this
      ensures View() == Reconcile(old(View()), probe, now)
    {
      next := now + RETRY;
      if |pending| > LEDGER_LIMIT {
        error := Some(SessionLimit);
        return;
      }
      if pending != [] && !probe.owned {
        error := Some(NotOwned);
        return;
      }
      if probe.inspection.None? {
        error := Some(InspectionFailed);
        return;
      }
      var inspection := probe.inspection.value;
      if |inspection.remaining| != |pending| || inspection.runtimeVersion == 0 ||
         inspection.before < 0 || inspection.after < 0
      {
        error := Some(Protocol);
        return;
      }
      var present := CountPresent(inspection.remaining);
      var unattributed := inspection.after - present;
      if unattributed < 0 {
        error := Some(Protocol);
        return;
      }
      if unmatchedKnown && (pending != [] || attributionPending) && unattributed > unmatched + inFlight {
        error := Some(Attribution);
        return;
      }
      attributionPending := inFlight > 0 && (!unmatchedKnown || unattributed > unmatched);
      if inFlight == 0 {
        unmatched, unmatchedKnown := unattributed, true;
      }
      DeleteAbsent(inspection.remaining);
      after, error := Some(inspection.after), None;
      if pending != [] {
        error := Some(ReleaseUnconfirmed);
      }
      if pending == [] && inspection.after < SESSION_LIMIT && !attributionPending {
        next := 0;
      }
    }

    /** One turn of `admitGuestSession`'s loop. */
    method AdmitGuestSession(probe: Probe, now: nat) returns (admission: Admission)
      modifies this
      ensures (View(), admission) == Admit(old(View()), probe, now)
    {
      if Blocked(View()) && now >= next {
        ReconcileSessions(probe, now);
      }
      if attributionPending && inFlight > 0 {
        return Awaiting;
      }
      if Blocked(View()) {
        return Refused;
      }
      inFlight := inFlight + 1;
      admission := Admitted;
    }
  }
}
