/**
 Admission of index reads: at most two at a time, nothing while a higher-priority scan is
 registered, and background scans from a token bucket. Every operation runs under one lock, so a
 run is a sequence of whole steps; a waiting reader retries as often as it likes.
 */
module IoGate {
  import opened Common

  const MAX_CONCURRENT_SOURCE_READS: nat := 2
  const MAX_READ_CHUNK_BYTES: nat := 65536

  /** The bucket holds one chunk and refills at 8 MiB a second. */
  const BURST: real := 65536.0
  const RATE: real := 8388608.0

  datatype Priority = Background | Recent | Interactive

  function Rank(p: Priority): nat {
    match p
    case Background => 1
    case Recent => 2
    case Interactive => 3
  }

  datatype Gate = Gate(nextId: nat, tasks: map<nat, Priority>, activeIo: nat, tokens: real, lastRefill: real)

  datatype Permit = Permit(maxBytes: nat)

  /** A permit handed out, and when. */
  datatype Grant = Grant(time: real, lease: nat, priority: Priority, bytes: nat)

  /** The gate, the clock, every live lease's own copy of its priority, and the permits held. */
  datatype World = World(gate: Gate, now: real, leases: map<nat, Priority>, permits: seq<Permit>, grants: seq<Grant>)

  function Opened(now: real): World {
    World(Gate(0, map[], 0, BURST, now), now, map[], [], [])
  }

  // ---------- The gate's operations ----------

  function Refill(g: Gate, now: real): Gate {
    var filled := g.tokens + (now - g.lastRefill) * RATE;
    g.(lastRefill := now, tokens := if filled < BURST then filled else BURST)
  }

  predicate HigherRegistered(g: Gate, p: Priority) {
    exists id :: id in g.tasks && Rank(g.tasks[id]) > Rank(p)
  }

  function Clamp(requested: int): (r: nat)
    ensures 1 <= r <= MAX_READ_CHUNK_BYTES
  {
    if requested < 1 then 1 else if requested > MAX_READ_CHUNK_BYTES then MAX_READ_CHUNK_BYTES else requested
  }

  /** One turn of the waiting loop, after its refill: the bytes allowed, if any. */
  function Allowed(g: Gate, p: Priority, requested: int): Option<nat> {
    var wanted := Clamp(requested);
    var available := if p == Background then g.tokens.Floor else wanted;
    if !HigherRegistered(g, p) && g.activeIo < MAX_CONCURRENT_SOURCE_READS && available > 0
    then Some(Min(wanted, available))
    else None
  }

  function Take(g: Gate, p: Priority, bytes: nat): Gate {
    g.(activeIo := g.activeIo + 1, tokens := if p == Background then g.tokens - bytes as real else g.tokens)
  }

  // ---------- Runs ----------

  datatype Action =
    | Tick(elapsed: real)
    | Register(priority: Priority)
    | Promote(lease: nat, priority: Priority)
    | Attempt(lease: nat, requested: int)
    | ReleasePermit(index: nat)
    | DropLease(lease: nat)

  function AttemptStep(w: World, lease: nat, requested: int): World
    requires lease in w.leases
  {
    var g := Refill(w.gate, w.now);
    var p := w.leases[lease];
    match Allowed(g, p, requested)
    case None => w.(gate := g)
    case Some(bytes) =>
      w.(gate := Take(g, p, bytes), permits := w.permits + [Permit(bytes)],
         grants := w.grants + [Grant(w.now, lease, p, bytes)])
  }

  /** An action on a lease or a permit nobody holds changes nothing, and time does not run backwards. */
  function Step(w: World, a: Action): World {
    match a
    case Tick(elapsed) => if elapsed >= 0.0 then w.(now := w.now + elapsed) else w
    case Register(p) =>
      var id := w.gate.nextId + 1;
      w.(gate := w.gate.(nextId := id, tasks := w.gate.tasks[id := p]), leases := w.leases[id := p])
    case Promote(lease, p) =>
      if lease in w.leases && Rank(w.leases[lease]) < Rank(p) then
        w.(gate := w.gate.(tasks := w.gate.tasks[lease := p]), leases := w.leases[lease := p])
      else w
    case Attempt(lease, requested) =>
      if lease in w.leases then AttemptStep(w, lease, requested) else w
    case ReleasePermit(index) =>
      if index < |w.permits| then
        w.(gate := w.gate.(activeIo := SaturatingSub(w.gate.activeIo, 1)),
           permits := w.permits[..index] + w.permits[index + 1..])
      else w
    case DropLease(lease) =>
      w.(gate := if lease in w.leases then w.gate.(tasks := w.gate.tasks - {lease}) else w.gate,
         leases := w.leases - {lease})
  }

  function Run(w: World, actions: seq<Action>): World
    decreases |actions|
  {
    if actions == [] then w else Run(Step(w, actions[0]), actions[1..])
  }

  // ---------- What background scans were granted ----------

  function BackgroundBytes(g: Grant): nat {
    if g.priority == Background then g.bytes else 0
  }

  /** The background bytes granted from time `a` on. */
  function BytesSince(grants: seq<Grant>, a: real): nat {
    if grants == [] then 0
    else
      var last := grants[|grants| - 1];
      BytesSince(grants[..|grants| - 1], a) + if a <= last.time then BackgroundBytes(last) else 0
  }

  /** The background bytes granted between two times. */
  function BytesWithin(grants: seq<Grant>, a: real, b: real): nat {
    if grants == [] then 0
    else
      var last := grants[|grants| - 1];
      BytesWithin(grants[..|grants| - 1], a, b) + if a <= last.time <= b then BackgroundBytes(last) else 0
  }

  lemma SinceAppends(grants: seq<Grant>, g: Grant, a: real)
    ensures BytesSince(grants + [g], a) == BytesSince(grants, a) + if a <= g.time then BackgroundBytes(g) else 0
  {
    assert (grants + [g])[..|grants|] == grants;
  }

  lemma WithinAppends(grants: seq<Grant>, g: Grant, a: real, b: real)
    ensures BytesWithin(grants + [g], a, b) ==
            BytesWithin(grants, a, b) + if a <= g.time <= b then BackgroundBytes(g) else 0
  {
    assert (grants + [g])[..|grants|] == grants;
  }

  ghost predicate GrantedBy(grants: seq<Grant>, time: real) {
    forall i :: 0 <= i < |grants| ==> grants[i].time <= time
  }

  lemma {:induction false} NothingLater(grants: seq<Grant>, time: real, a: real)
    requires GrantedBy(grants, time) && time < a
    ensures BytesSince(grants, a) == 0
  {
    if grants != [] {
      NothingLater(grants[..|grants| - 1], time, a);
    }
  }

  lemma {:induction false} WithinIsSince(grants: seq<Grant>, a: real, b: real)
    requires GrantedBy(grants, b)
    ensures BytesWithin(grants, a, b) == BytesSince(grants, a)
  {
    if grants != [] {
      WithinIsSince(grants[..|grants| - 1], a, b);
    }
  }

  // ---------- Invariants ----------

  /** What was granted since any earlier moment, and what is left, fit the bucket and its refills. */
  ghost predicate Metered(g: Gate, grants: seq<Grant>) {
    && 0.0 <= g.tokens <= BURST
    && GrantedBy(grants, g.lastRefill)
    && forall a: real :: a <= g.lastRefill ==>
         BytesSince(grants, a) as real + g.tokens <= BURST + (g.lastRefill - a) * RATE
  }

  ghost predicate Limited(grants: seq<Grant>) {
    forall a: real, b: real :: a <= b ==> BytesWithin(grants, a, b) as real <= BURST + (b - a) * RATE
  }

  ghost predicate Inv(w: World) {
    && w.gate.lastRefill <= w.now
    && w.gate.tasks == w.leases
    && (forall id :: id in w.leases ==> id <= w.gate.nextId)
    && w.gate.activeIo == |w.permits| <= MAX_CONCURRENT_SOURCE_READS
    && Metered(w.gate, w.grants)
    && Limited(w.grants)
  }

  lemma RefillKeepsMetered(g: Gate, grants: seq<Grant>, now: real)
    requires Metered(g, grants) && g.lastRefill <= now
    ensures Metered(Refill(g, now), grants)
  {
    var r := Refill(g, now);
    forall a: real | a <= now
      ensures BytesSince(grants, a) as real + r.tokens <= BURST + (now - a) * RATE
    {
      if a > g.lastRefill {
        NothingLater(grants, g.lastRefill, a);
      }
    }
  }

  lemma TakeKeepsMetered(g: Gate, grants: seq<Grant>, grant: Grant)
    requires Metered(g, grants) && grant.time == g.lastRefill
    requires grant.priority == Background ==> grant.bytes as real <= g.tokens
    ensures Metered(Take(g, grant.priority, grant.bytes), grants + [grant])
  {
    var r := Take(g, grant.priority, grant.bytes);
    forall a: real | a <= r.lastRefill
      ensures BytesSince(grants + [grant], a) as real + r.tokens <= BURST + (r.lastRefill - a) * RATE
    {
      SinceAppends(grants, grant, a);
      assert BytesSince(grants, a) as real + g.tokens <= BURST + (g.lastRefill - a) * RATE;
    }
  }

  lemma TakeKeepsLimited(g: Gate, grants: seq<Grant>, grant: Grant)
    requires Limited(grants) && Metered(g, grants + [grant]) && grant.time == g.lastRefill
    ensures Limited(grants + [grant])
  {
    forall a: real, b: real | a <= b
      ensures BytesWithin(grants + [grant], a, b) as real <= BURST + (b - a) * RATE
    {
      WithinAppends(grants, grant, a, b);
      if a <= grant.time <= b {
        WithinIsSince(grants + [grant], a, b);
        assert BytesSince(grants + [grant], a) as real + g.tokens <= BURST + (g.lastRefill - a) * RATE;
      }
    }
  }

  lemma AttemptKeepsInv(w: World, lease: nat, requested: int)
    requires Inv(w) && lease in w.leases
    ensures Inv(AttemptStep(w, lease, requested))
  {
    var g, p := Refill(w.gate, w.now), w.leases[lease];
    RefillKeepsMetered(w.gate, w.grants, w.now);
    match Allowed(g, p, requested)
    case None =>
    case Some(bytes) =>
      var grant := Grant(w.now, lease, p, bytes);
      TakeKeepsMetered(g, w.grants, grant);
      TakeKeepsLimited(Take(g, p, bytes), w.grants, grant);
  }

  lemma StepKeepsInv(w: World, a: Action)
    requires Inv(w)
    ensures Inv(Step(w, a))
  {
    if a.Attempt? && a.lease in w.leases {
      AttemptKeepsInv(w, a.lease, a.requested);
    }
  }

  lemma {:induction false} RunKeepsInv(w: World, actions: seq<Action>)
    requires Inv(w)
    ensures Inv(Run(w, actions))
    decreases |actions|
  {
    if actions != [] {
      StepKeepsInv(w, actions[0]);
      RunKeepsInv(Step(w, actions[0]), actions[1..]);
    }
  }

  lemma OpenedHolds(start: real)
    ensures Inv(Opened(start))
  {
  }

  // ---------- The promises ----------

  /** In every run, over every span of time, background scans get at most 64 KiB plus 8 MiB a second. */
  lemma BackgroundIsRateLimited(start: real, actions: seq<Action>, a: real, b: real)
    requires a <= b
    ensures BytesWithin(Run(Opened(start), actions).grants, a, b) as real <= 65536.0 + (b - a) * 8388608.0
  {
    OpenedHolds(start);
    RunKeepsInv(Opened(start), actions);
    assert Limited(Run(Opened(start), actions).grants);
  }

  /** In every run the count of active reads is the number of permits held, so releasing one never clips. */
  lemma PermitsAreCounted(start: real, actions: seq<Action>, index: nat)
    ensures var w := Run(Opened(start), actions);
      && w.gate.activeIo == |w.permits| <= MAX_CONCURRENT_SOURCE_READS
      && (index < |w.permits| ==> Step(w, ReleasePermit(index)).gate.activeIo + 1 == w.gate.activeIo)
  {
    OpenedHolds(start);
    RunKeepsInv(Opened(start), actions);
  }

  /** In every run the table and the leases' own priorities agree. */
  lemma LeasesMatchTheTable(start: real, actions: seq<Action>)
    ensures var w := Run(Opened(start), actions); w.gate.tasks == w.leases
  {
    OpenedHolds(start);
    RunKeepsInv(Opened(start), actions);
  }

  /** Interactive scans come before recent ones, and both before background ones. */
  predicate Outranks(p: Priority, q: Priority) {
    (p.Interactive? && !q.Interactive?) || (p.Recent? && q.Background?)
  }

  lemma RankIsTheOrder(p: Priority, q: Priority)
    ensures Rank(p) > Rank(q) <==> Outranks(p, q)
  {
  }

  /** No live lease outranks this one. */
  ghost predicate Foremost(w: World, lease: nat)
    requires lease in w.leases
  {
    forall id :: id in w.leases ==> !Outranks(w.leases[id], w.leases[lease])
  }

  lemma ForemostIff(w: World, lease: nat)
    requires w.gate.tasks == w.leases && lease in w.leases
    ensures Foremost(w, lease) <==> !HigherRegistered(w.gate, w.leases[lease])
  {
    forall id | id in w.leases
      ensures Outranks(w.leases[id], w.leases[lease]) <==> Rank(w.leases[id]) > Rank(w.leases[lease])
    {
      RankIsTheOrder(w.leases[id], w.leases[lease]);
    }
  }

  /** What is asked for, at least one byte and at most 64 KiB. */
  function Asked(requested: int): nat {
    if requested <= 0 then 1 else if requested >= 65536 then 65536 else requested
  }

  /** What the bucket holds: 8 MiB more for each second since the last refill, at most 64 KiB. */
  function InBucket(w: World): real {
    var filled := w.gate.tokens + (w.now - w.gate.lastRefill) * 8388608.0;
    if filled > 65536.0 then 65536.0 else filled
  }

  /**
   A read is granted exactly when no live lease outranks it, fewer than two permits are held and,
   for a background scan, the bucket holds a whole byte by now; it gets what it asked for, or for a
   background scan as much of it as the bucket holds, and takes that from the bucket.
   */
  lemma GrantedExactlyWhen(start: real, actions: seq<Action>, lease: nat, requested: int)
    requires lease in Run(Opened(start), actions).leases
    ensures var w := Run(Opened(start), actions);
      var w' := Step(w, Attempt(lease, requested));
      var background := w.leases[lease].Background?;
      if Foremost(w, lease) && |w.permits| < 2 && (background ==> InBucket(w) >= 1.0)
      then
        var bytes := if background then Min(Asked(requested), InBucket(w).Floor) else Asked(requested);
        && 1 <= bytes <= 65536 && w'.permits == w.permits + [Permit(bytes)]
        && w'.gate.tokens == InBucket(w) - (if background then bytes as real else 0.0)
      else w'.permits == w.permits && w'.grants == w.grants && w'.gate.tokens == InBucket(w)
  {
    OpenedHolds(start);
    RunKeepsInv(Opened(start), actions);
    ForemostIff(Run(Opened(start), actions), lease);
  }

  /** A promotion leaves a live lease the higher of the two priorities, and every other lease as it is. */
  lemma PromotionRaises(w: World, lease: nat, p: Priority)
    requires lease in w.leases && w.gate.tasks == w.leases
    ensures var w' := Step(w, Promote(lease, p));
      && w'.leases == w.leases[lease := if Outranks(p, w.leases[lease]) then p else w.leases[lease]]
      && w'.gate == w.gate.(tasks := w'.leases)
  {
    RankIsTheOrder(p, w.leases[lease]);
  }

  /** A new lease gets the next id; a permit given back is that one; a dropped lease is gone. */
  lemma LeasesComeAndGo(w: World, p: Priority, lease: nat, index: nat)
    ensures var registered := Step(w, Register(p));
      && registered.gate.nextId == w.gate.nextId + 1
      && registered.leases == w.leases[w.gate.nextId + 1 := p] && registered.permits == w.permits
    ensures index < |w.permits| ==> Step(w, ReleasePermit(index)).permits == w.permits[..index] + w.permits[index + 1..]
    ensures Step(w, DropLease(lease)).leases == w.leases - {lease} && Step(w, DropLease(lease)).permits == w.permits
  {
  }

  // ---------- How long a background scan waits ----------

  /** What the bucket holds by now. */
  function Level(w: World): real {
    Refill(w.gate, w.now).tokens
  }

  /** The background bytes granted so far. */
  function BytesOf(grants: seq<Grant>): nat {
    if grants == [] then 0 else BytesOf(grants[..|grants| - 1]) + BackgroundBytes(grants[|grants| - 1])
  }

  lemma BytesAppend(grants: seq<Grant>, g: Grant)
    ensures BytesOf(grants + [g]) == BytesOf(grants) + BackgroundBytes(g)
  {
    assert (grants + [g])[..|grants|] == grants;
  }

  function Capped(level: real): real {
    if level < BURST then level else BURST
  }

  /** Between two worlds: what was taken and what is left is what was there and what flowed in, up to a full bucket. */
  ghost predicate Accounted(w: World, w': World) {
    var taken := BytesOf(w'.grants) as real - BytesOf(w.grants) as real;
    var supply := Level(w) + (w'.now - w.now) * RATE;
    w.now <= w'.now && Capped(supply) <= Level(w') + taken <= supply
  }

  lemma StepIsAccounted(w: World, a: Action)
    requires Inv(w)
    ensures Accounted(w, Step(w, a))
    ensures Step(w, a).now == w.now ==>
      Level(Step(w, a)) + BytesOf(Step(w, a).grants) as real == Level(w) + BytesOf(w.grants) as real
  {
    if a.Attempt? && a.lease in w.leases {
      var p := w.leases[a.lease];
      var allowed := Allowed(Refill(w.gate, w.now), p, a.requested);
      if allowed.Some? {
        BytesAppend(w.grants, Grant(w.now, a.lease, p, allowed.value));
      }
    }
  }

  lemma AccountsCompose(u: World, v: World, w: World)
    requires Accounted(u, v) && Accounted(v, w) && BytesOf(u.grants) <= BytesOf(v.grants) <= BytesOf(w.grants)
    ensures Accounted(u, w)
  {
  }

  lemma StepOnlyGrants(w: World, a: Action)
    ensures BytesOf(w.grants) <= BytesOf(Step(w, a).grants)
  {
    if a.Attempt? && a.lease in w.leases {
      var p := w.leases[a.lease];
      var allowed := Allowed(Refill(w.gate, w.now), p, a.requested);
      if allowed.Some? {
        BytesAppend(w.grants, Grant(w.now, a.lease, p, allowed.value));
      }
    }
  }

  /** Over any run the bucket keeps account. */
  lemma {:induction false} RunIsAccounted(w: World, actions: seq<Action>)
    requires Inv(w)
    ensures Accounted(w, Run(w, actions)) && BytesOf(w.grants) <= BytesOf(Run(w, actions).grants)
    decreases |actions|
  {
    if actions != [] {
      var next := Step(w, actions[0]);
      StepKeepsInv(w, actions[0]);
      StepIsAccounted(w, actions[0]);
      StepOnlyGrants(w, actions[0]);
      RunIsAccounted(next, actions[1..]);
      AccountsCompose(w, next, Run(next, actions[1..]));
    }
  }

  /** A background scan that only the bucket can turn away. */
  ghost predicate OnlyBucketDecides(w: World, lease: nat) {
    && lease in w.leases && w.leases[lease] == Background && Foremost(w, lease)
    && |w.permits| < MAX_CONCURRENT_SOURCE_READS
  }

  /**
   However often others tried meanwhile: after any run a background scan with only the bucket in
   its way is granted unless less than a whole byte is left of what the bucket held, what flowed in
   and what was taken; as long as the bucket has not run over, exactly then.
   */
  lemma GrantedUnlessTaken(w: World, actions: seq<Action>, lease: nat, requested: int)
    requires Inv(w) && OnlyBucketDecides(Run(w, actions), lease)
    ensures var w' := Run(w, actions);
      var taken := BytesOf(w'.grants) as real - BytesOf(w.grants) as real;
      var supply := Level(w) + (w'.now - w.now) * RATE;
      var granted := |Step(w', Attempt(lease, requested)).permits| == |w'.permits| + 1;
      && (taken + 1.0 <= Capped(supply) ==> granted)
      && (supply <= BURST ==> (granted <==> taken + 1.0 <= supply))
  {
    RunKeepsInv(w, actions);
    RunIsAccounted(w, actions);
    ForemostIff(Run(w, actions), lease);
  }

  /** So a scan that no other background grant overtakes waits at most one byte's refill time. */
  lemma AloneWaitsOneByte(w: World, actions: seq<Action>, lease: nat, requested: int)
    requires Inv(w) && OnlyBucketDecides(Run(w, actions), lease)
    requires BytesOf(Run(w, actions).grants) == BytesOf(w.grants)
    requires (Run(w, actions).now - w.now) * RATE >= 1.0
    ensures |Step(Run(w, actions), Attempt(lease, requested)).permits| == |Run(w, actions).permits| + 1
  {
    GrantedUnlessTaken(w, actions, lease, requested);
  }

  // ---------- Two background scans: one can starve ----------

  /** How often in a run the bucket alone turned a scan away. */
  ghost function TurnedAway(w: World, actions: seq<Action>, lease: nat): nat
    decreases |actions|
  {
    if actions == [] then 0
    else
      var a := actions[0];
      var next := Step(w, a);
      TurnedAway(next, actions[1..], lease) +
      if a.Attempt? && a.lease == lease && OnlyBucketDecides(w, lease) && next.grants == w.grants then 1 else 0
  }

  /** One round: the other scan takes the byte that has just flowed in, and this one comes too late. */
  function Round(w: World, late: nat, early: nat): seq<Action> {
    [Tick((1.0 - Level(w)) / RATE), Attempt(early, 1), ReleasePermit(0), Attempt(late, 1)]
  }

  function Rounds(w: World, late: nat, early: nat, n: nat): seq<Action>
    decreases n
  {
    if n == 0 then []
    else
      var round := Round(w, late, early);
      round + Rounds(Run(w, round), late, early, n - 1)
  }

  lemma {:induction false} RunConcat(w: World, first: seq<Action>, second: seq<Action>, lease: nat)
    ensures Run(w, first + second) == Run(Run(w, first), second)
    ensures TurnedAway(w, first + second, lease) ==
            TurnedAway(w, first, lease) + TurnedAway(Run(w, first), second, lease)
    decreases |first|
  {
    if first == [] {
      assert first + second == second;
    } else {
      assert (first + second)[0] == first[0] && (first + second)[1..] == first[1..] + second;
      RunConcat(Step(w, first[0]), first[1..], second, lease);
    }
  }

  lemma RunOne(w: World, a: Action, rest: seq<Action>, lease: nat)
    ensures Run(w, [a] + rest) == Run(Step(w, a), rest)
    ensures TurnedAway(w, [a] + rest, lease) == TurnedAway(Step(w, a), rest, lease) +
      if a.Attempt? && a.lease == lease && OnlyBucketDecides(w, lease) && Step(w, a).grants == w.grants then 1 else 0
  {
    assert ([a] + rest)[1..] == rest;
  }

  /** Two background scans that nothing outranks, no read under way, and less than a byte in the bucket. */
  ghost predicate Contended(w: World, late: nat, early: nat) {
    && Inv(w) && w.permits == [] && Level(w) < 1.0 && late != early
    && OnlyBucketDecides(w, late) && OnlyBucketDecides(w, early)
  }

  lemma RoundTurnsAway(w: World, late: nat, early: nat)
    requires Contended(w, late, early)
    ensures var w' := Run(w, Round(w, late, early));
      && Contended(w', late, early) && Level(w') == 0.0
      && w'.now == w.now + (1.0 - Level(w)) / RATE
      && w'.grants == w.grants + [Grant(w'.now, early, Background, 1)]
      && TurnedAway(w, Round(w, late, early), late) == 1
  {
    var wait := Tick((1.0 - Level(w)) / RATE);
    var w1 := Step(w, wait);
    var w2 := Step(w1, Attempt(early, 1));
    var w3 := Step(w2, ReleasePermit(0));
    var w4 := Step(w3, Attempt(late, 1));
    assert Level(w1) == 1.0;
    ForemostIff(w1, late);
    assert w2.permits == [Permit(1)] && Level(w2) == 0.0;
    assert w3.permits == [];
    assert w4.grants == w3.grants && Level(w4) == 0.0;
    assert Round(w, late, early) == [wait] + [Attempt(early, 1), ReleasePermit(0), Attempt(late, 1)];
    RunOne(w, wait, [Attempt(early, 1), ReleasePermit(0), Attempt(late, 1)], late);
    assert [Attempt(early, 1), ReleasePermit(0), Attempt(late, 1)] ==
           [Attempt(early, 1)] + [ReleasePermit(0), Attempt(late, 1)];
    RunOne(w1, Attempt(early, 1), [ReleasePermit(0), Attempt(late, 1)], late);
    assert [ReleasePermit(0), Attempt(late, 1)] == [ReleasePermit(0)] + [Attempt(late, 1)];
    RunOne(w2, ReleasePermit(0), [Attempt(late, 1)], late);
    assert [Attempt(late, 1)] == [Attempt(late, 1)] + [];
    RunOne(w3, Attempt(late, 1), [], late);
    RunKeepsInv(w, Round(w, late, early));
  }

  /** The grants made to a lease. */
  function GrantsTo(grants: seq<Grant>, lease: nat): nat {
    if grants == [] then 0
    else GrantsTo(grants[..|grants| - 1], lease) + if grants[|grants| - 1].lease == lease then 1 else 0
  }

  lemma GrantsAppend(grants: seq<Grant>, g: Grant, lease: nat)
    ensures GrantsTo(grants + [g], lease) == GrantsTo(grants, lease) + if g.lease == lease then 1 else 0
  {
    assert (grants + [g])[..|grants|] == grants;
  }

  lemma {:induction false} RoundsTurnAway(w: World, late: nat, early: nat, n: nat)
    requires Contended(w, late, early)
    ensures var run := Rounds(w, late, early, n);
      && TurnedAway(w, run, late) == n
      && GrantsTo(Run(w, run).grants, late) == GrantsTo(w.grants, late)
      && GrantsTo(Run(w, run).grants, early) == GrantsTo(w.grants, early) + n
      && (Level(w) == 0.0 ==> (Run(w, run).now - w.now) * RATE == n as real)
    decreases n
  {
    if n > 0 {
      var round := Round(w, late, early);
      var next := Run(w, round);
      RoundTurnsAway(w, late, early);
      RoundsTurnAway(next, late, early, n - 1);
      RunConcat(w, round, Rounds(next, late, early, n - 1), late);
      GrantsAppend(w.grants, Grant(next.now, early, Background, 1), late);
      GrantsAppend(w.grants, Grant(next.now, early, Background, 1), early);
    }
  }

  lemma DrainEmpties(w: World, late: nat, early: nat)
    requires Inv(w) && w.permits == [] && late != early
    requires OnlyBucketDecides(w, late) && OnlyBucketDecides(w, early)
    ensures var w1 := Step(w, Attempt(early, MAX_READ_CHUNK_BYTES));
      var w2 := Step(w1, ReleasePermit(0));
      && Contended(w2, late, early)
      && GrantsTo(w2.grants, late) == GrantsTo(w.grants, late)
      && GrantsTo(w2.grants, early) >= GrantsTo(w.grants, early)
  {
    var attempt := Attempt(early, MAX_READ_CHUNK_BYTES);
    StepKeepsInv(w, attempt);
    StepKeepsInv(Step(w, attempt), ReleasePermit(0));
    ForemostIff(w, late);
    var allowed := Allowed(Refill(w.gate, w.now), Background, MAX_READ_CHUNK_BYTES);
    if allowed.Some? {
      GrantsAppend(w.grants, Grant(w.now, early, Background, allowed.value), late);
      GrantsAppend(w.grants, Grant(w.now, early, Background, allowed.value), early);
    }
  }

  /**
   Admission is not fair: from every reachable state with two background scans that nothing outranks
   and no read under way, some run turns one of them away as often as one likes, each time with a
   slot free and nothing outranking it, and never serves it, while the other is served every time.
   */
  lemma BackgroundCanStarve(start: real, before: seq<Action>, late: nat, early: nat, n: nat) returns (run: seq<Action>)
    requires var w := Run(Opened(start), before);
      late != early && w.permits == [] && OnlyBucketDecides(w, late) && OnlyBucketDecides(w, early)
    ensures var w := Run(Opened(start), before);
      && TurnedAway(w, run, late) == n
      && GrantsTo(Run(w, run).grants, late) == GrantsTo(w.grants, late)
      && GrantsTo(Run(w, run).grants, early) >= GrantsTo(w.grants, early) + n
  {
    OpenedHolds(start);
    RunKeepsInv(Opened(start), before);
    var w := Run(Opened(start), before);
    var drain := [Attempt(early, MAX_READ_CHUNK_BYTES), ReleasePermit(0)];
    var w1 := Step(w, Attempt(early, MAX_READ_CHUNK_BYTES));
    var w2 := Step(w1, ReleasePermit(0));
    assert drain == [Attempt(early, MAX_READ_CHUNK_BYTES)] + [ReleasePermit(0)];
    RunOne(w, Attempt(early, MAX_READ_CHUNK_BYTES), [ReleasePermit(0)], late);
    assert [ReleasePermit(0)] == [ReleasePermit(0)] + [];
    RunOne(w1, ReleasePermit(0), [], late);
    RunKeepsInv(w, drain);
    DrainEmpties(w, late, early);
    RoundsTurnAway(w2, late, early, n);
    RunConcat(w, drain, Rounds(w2, late, early, n), late);
    run := drain + Rounds(w2, late, early, n);
  }

  /** A lease's priority never drops, and no later lease takes its id. */
  ghost predicate Advances(w: World, w': World) {
    && w.gate.nextId <= w'.gate.nextId && w.now <= w'.now && w.grants <= w'.grants
    && forall id :: id in w'.leases && id <= w.gate.nextId ==>
         id in w.leases && Rank(w.leases[id]) <= Rank(w'.leases[id])
  }

  lemma {:induction false} PrioritiesNeverDrop(w: World, actions: seq<Action>)
    requires Inv(w)
    ensures Advances(w, Run(w, actions))
    decreases |actions|
  {
    if actions != [] {
      var next := Step(w, actions[0]);
      StepKeepsInv(w, actions[0]);
      PrioritiesNeverDrop(next, actions[1..]);
      assert Advances(w, next);
    }
  }

  // ---------- The gate and its leases as objects ----------

  class ScanLease {
    const id: nat
    var priority: Priority

    constructor (id: nat, priority: Priority)
      ensures this.id == id && this.priority == priority
    {
      this.id, this.priority := id, priority;
    }
  }

  class AdmissionGate {
    var nextId: nat
    var tasks: map<nat, Priority>
    var activeIo: nat
    var tokens: real
    var lastRefill: real

    ghost function View(): Gate
      reads this
    {
      Gate(nextId, tasks, activeIo, tokens, lastRefill)
    }

    constructor (now: real)
      ensures View() == Opened(now).gate
    {
      nextId, tasks, activeIo, tokens, lastRefill := 0, map[], 0, BURST, now;
    }

    method RegisterScan(priority: Priority, ghost w: World) returns (lease: ScanLease)
      requires w.gate == View()
      modifies this
      ensures fresh(lease) && lease.priority == priority
      ensures View() == Step(w, Register(priority)).gate
      ensures Step(w, Register(priority)).leases == w.leases[lease.id := lease.priority]
    {
      nextId := nextId + 1;
      tasks := tasks[nextId := priority];
      lease := new ScanLease(nextId, priority);
    }

    method PromoteScan(lease: ScanLease, priority: Priority, ghost w: World)
      requires w.gate == View() && lease.id in w.leases && w.leases[lease.id] == lease.priority
      modifies this, lease
      ensures View() == Step(w, Promote(lease.id, priority)).gate
      ensures lease.priority == Step(w, Promote(lease.id, priority)).leases[lease.id]
    {
      var previous := lease.priority;
      if Rank(priority) > Rank(previous) {
        lease.priority := priority;
        tasks := tasks[lease.id := priority];
      }
    }

    method RefillBackgroundTokens(now: real)
      modifies this
      ensures View() == Refill(old(View()), now)
    {
      var elapsed := now - lastRefill;
      lastRefill := now;
      tokens := tokens + elapsed * RATE;
      if tokens > BURST {
        tokens := BURST;
      }
    }

    method AnyHigher(priority: Priority) returns (higher: bool)
      ensures higher <==> HigherRegistered(View(), priority)
    {
      var ids := tasks.Keys;
      while ids != {}
        invariant ids <= tasks.Keys
        invariant forall id :: id in tasks && id !in ids ==> Rank(tasks[id]) <= Rank(priority)
        decreases |ids|
      {
        var id :| id in ids;
        if Rank(tasks[id]) > Rank(priority) {
          return true;
        }
        ids := ids - {id};
      }
      higher := false;
    }

    /** One turn of `before_io`'s loop at time `now`. */
    method TryAcquire(lease: ScanLease, requested: int, now: real, ghost w: World) returns (permit: Option<Permit>)
      requires w.gate == View() && w.now == now && lease.id in w.leases && w.leases[lease.id] == lease.priority
      modifies this
      ensures View() == Step(w, Attempt(lease.id, requested)).gate
      ensures Step(w, Attempt(lease.id, requested)).permits == w.permits + if permit.Some? then [permit.value] else []
    {
      var wanted := Clamp(requested);
      RefillBackgroundTokens(now);
      var higher := AnyHigher(lease.priority);
      var available := if lease.priority == Background then tokens.Floor else wanted;
      if !higher && activeIo < MAX_CONCURRENT_SOURCE_READS && available > 0 {
        var maxBytes := Min(wanted, available);
        if lease.priority == Background {
          tokens := tokens - maxBytes as real;
        }
        activeIo := activeIo + 1;
        return Some(Permit(maxBytes));
      }
      permit := None;
    }

    method Release(ghost w: World, ghost index: nat)
      requires w.gate == View() && index < |w.permits|
      modifies this
      ensures View() == Step(w, ReleasePermit(index)).gate
    {
      activeIo := SaturatingSub(activeIo, 1);
    }

    method Unregister(lease: ScanLease, ghost w: World)
      requires w.gate == View() && lease.id in w.leases
      modifies this
      ensures View() == Step(w, DropLease(lease.id)).gate
    {
      tasks := tasks - {lease.id};
    }
  }
}
