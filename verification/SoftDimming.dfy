/** The soft-dimming controller: several light channels walk towards their targets in fixed-point
    steps, at the pace of the channel with the longest way to go. */
module SoftDimming {
  import opened Arithmetic
  import opened Bytes
  import opened Wrappers

  const SCALE: nat := 100
  const MAX_CHANNELS: nat := 5

  // ---------------------------------------------------------------- integer square root

  /** `r` is not below the square root of `n`. */
  predicate NotBelow(r: nat, n: nat) {
    n < (r + 1) * (r + 1)
  }

  predicate NotAbove(r: nat, n: nat) {
    r * r <= n
  }

  /** Newton's iteration. */
  function Guess(n: nat, x: nat): nat
    requires x > 0
  {
    (x + n / x) / 2
  }

  /** It never falls below the square root. */
  lemma NewtonBound(n: nat, x: nat)
    requires x > 0
    ensures NotBelow(Guess(n, x), n)
  {
    hide NotBelow, Guess;
    QuotientNat(n, x);
    var q: nat := n / x;
    QuotientAbove(n, x, q, n % x);
    GuessHalves(n, x);
    GuessSquare(n, x, q, Guess(n, x));
  }

  lemma QuotientAbove(n: nat, x: nat, q: nat, r: nat)
    requires n == x * q + r && r < x
    ensures n < x * (q + 1)
  {
    assert x * (q + 1) == x * q + x;
  }

  lemma GuessHalves(n: nat, x: nat)
    requires x > 0
    ensures x + n / x <= 2 * Guess(n, x) + 1
  {
  }

  lemma GuessSquare(n: nat, x: nat, q: nat, y: nat)
    requires n < x * (q + 1) && x + q <= 2 * y + 1
    ensures NotBelow(y, n)
  {
    var s := x + q + 1;
    assert s * s >= 4 * (x * (q + 1)) by { Square(x, q + 1); }
    assert (2 * (y + 1)) * (2 * (y + 1)) >= s * s by { MulMono(s, 2 * (y + 1)); }
    assert (2 * (y + 1)) * (2 * (y + 1)) == 4 * ((y + 1) * (y + 1));
  }

  lemma Square(a: nat, b: nat)
    ensures (a + b) * (a + b) >= 4 * (a * b)
  {
    var d: int := a - b;
    assert d * d >= 0;
    assert (a + b) * (a + b) == d * d + 4 * (a * b);
  }

  lemma MulMono(a: nat, b: nat)
    requires a <= b
    ensures a * a <= b * b
  {
    assert b * b == a * a + (b - a) * (b + a);
  }

  lemma QuotientFits(q: nat, x: nat, rest: nat, n: nat)
    requires 0 < x <= n && n == q * x + rest && rest < x
    ensures x + q <= n + 1
  {
    if q > 0 {
      assert (q - 1) * (x - 1) == q * x - q - x + 1;
      Product(q - 1, x - 1);
    }
  }

  lemma ExitIsRoot(n: nat, x: nat)
    requires 0 < x <= Guess(n, x)
    ensures NotAbove(x, n)
  {
    var q := n / x;
    assert n == q * x + n % x;
    assert q >= x;
    assert q * x == x * x + (q - x) * x;
    Product(q - x, x);
  }

  /** _int_sqrt in 32-bit arithmetic: the floor of the square root, or None where the loop divides by
      zero, which it does exactly for the largest argument. */
  method IntSqrt(n: uint32) returns (r: Option<nat>)
    ensures r.None? <==> n == UINT32_MAX
    ensures r.Some? ==> NotAbove(r.value, n) && NotBelow(r.value, n)
  {
    if n < 2 {
      return Some(n);
    }
    hide NotBelow, NotAbove, Guess;
    var x, y: nat := n, ((n + 1) % (UINT32_MAX + 1)) / 2;
    if n < UINT32_MAX {
      FirstGuess(n);
    }
    while y < x
      invariant 0 < x <= n
      invariant n == UINT32_MAX ==> y == 0 && x == n
      invariant n < UINT32_MAX ==> y == Guess(n, x) && NotBelow(x, n) && NotBelow(y, n)
      decreases x
    {
      x := y;
      if x == 0 {
        ZeroIsBelow(n);
        return None;
      }
      y := NextGuess(n, x);
    }
    ExitIsRoot(n, x);
    return Some(x);
  }

  lemma ZeroIsBelow(n: nat)
    ensures NotBelow(0, n) ==> n < 1
  {
  }

  /** The loop's division, for an argument that has not wrapped. */
  method NextGuess(n: uint32, x: nat) returns (y: nat)
    requires 0 < x <= n < UINT32_MAX
    ensures y == Guess(n, x) && NotBelow(y, n)
  {
    hide NotBelow;
    QuotientFits(n / x, x, n % x, n);
    NewtonBound(n, x);
    y := ((x + n / x) % (UINT32_MAX + 1)) / 2;
  }

  lemma FirstGuess(n: nat)
    requires 2 <= n < UINT32_MAX
    ensures ((n + 1) % (UINT32_MAX + 1)) / 2 == Guess(n, n)
    ensures NotBelow(n, n) && NotBelow(Guess(n, n), n)
  {
    assert n / n == 1;
    NewtonBound(n, n);
    assert (n + 1) * (n + 1) == n * n + 2 * n + 1;
  }

  // ---------------------------------------------------------------- the controller as values

  /** One channel: its level, its target, and the level in hundredths. */
  datatype Channel = Channel(curr: nat, dest: nat, fixed: nat)
  {
    function Distance(): nat {
      if curr > dest then curr - dest else dest - curr
    }

    predicate Dimming() {
      curr > dest
    }

    predicate Valid() {
      curr <= UINT16_MAX && dest <= UINT16_MAX
    }
  }

  /** The curve, the step limits, and the tick counter with its interval. */
  datatype Pace = Pace(divisor: nat, minStep: nat, maxStep: nat, interval: nat, acc: nat, prev: nat)
  {
    /** What initialisation and every later call keep: no step is shorter than one whole unit. */
    predicate Valid() {
      && divisor > 0 && minStep >= SCALE && SCALE <= maxStep <= UINT16_MAX * SCALE && prev >= SCALE
      && 1 <= interval <= UINT32_MAX && acc <= UINT32_MAX
    }
  }

  datatype Dimmer = Dimmer(channels: seq<Channel>, pace: Pace)
  {
    predicate Valid() {
      pace.Valid() && forall i :: 0 <= i < |channels| ==> channels[i].Valid()
    }
  }

  /** The step the leader asks for: the curve at its level, at least the minimum, at most the cap, and
      when brightening at most a quarter more than the last step. */
  function StepFor(p: Pace, leader: Channel): nat
    requires p.divisor > 0
  {
    StepAt(p, (leader.curr * leader.curr * SCALE / p.divisor) % (UINT32_MAX + 1), !leader.Dimming())
  }

  function StepAt(p: Pace, curve: nat, rising: bool): nat {
    var wanted := if curve > p.minStep then curve else p.minStep;
    var capped := if wanted > p.maxStep then p.maxStep else wanted;
    if rising && capped > p.prev then
      var growth := if p.prev / 4 < 1 then 1 else p.prev / 4;
      var allowed := (p.prev + growth) % (UINT32_MAX + 1);
      if capped > allowed then allowed else capped
    else capped
  }

  /** One channel's part of an effective tick. */
  function Move(c: Channel, step: nat): Channel {
    var goal := c.dest * SCALE;
    var fixed := if c.fixed / SCALE != c.curr then c.curr * SCALE else c.fixed;
    if c.curr == c.dest then c.(fixed := goal)
    else
      var moved :=
        if c.curr < c.dest then (if goal > fixed && goal - fixed > step then fixed + step else goal)
        else (if fixed > goal && fixed - goal > step then fixed - step else goal);
      Channel(moved / SCALE, c.dest, moved)
  }

  /** The channel that leads: of those farthest from their targets, the first that is dimming, or the
      first of all. */
  predicate IsLeader(channels: seq<Channel>, i: nat) {
    && i < |channels| && channels[i].Distance() > 0
    && (forall j :: 0 <= j < |channels| ==> channels[j].Distance() <= channels[i].Distance())
    && (forall j :: 0 <= j < i ==> channels[j].Distance() == channels[i].Distance() ==>
          channels[i].Dimming() && !channels[j].Dimming())
    && (!channels[i].Dimming() ==>
          forall j :: 0 <= j < |channels| && channels[j].Distance() == channels[i].Distance() ==>
            !channels[j].Dimming())
  }

  predicate Settled(channels: seq<Channel>) {
    forall i :: 0 <= i < |channels| ==> channels[i].Distance() == 0
  }

  // ---------------------------------------------------------------- one effective tick

  lemma StepIgnoresCounter(p: Pace, acc: nat, leader: Channel)
    requires p.divisor > 0
    ensures StepFor(p.(acc := acc), leader) == StepFor(p, leader)
  {
  }

  /** Every step lies between one unit and the cap, and a brightening leader speeds up by at most a quarter. */
  lemma StepBounds(p: Pace, leader: Channel)
    requires p.Valid()
    ensures SCALE <= StepFor(p, leader) <= p.maxStep
    ensures !leader.Dimming() ==> StepFor(p, leader) <= p.prev + p.prev / 4
  {
    var w: nat := (leader.curr * leader.curr * SCALE / p.divisor) % (UINT32_MAX + 1);
    StepAtIs(p, w, !leader.Dimming());
    hide StepAt;
  }

  // ---------------------------------------------------------------- what the step is

  function Min(a: int, b: int): int {
    if a < b then a else b
  }

  function Max(a: int, b: int): int {
    if a > b then a else b
  }

  /** The square curve at a level, in hundredths, rounded down. */
  function Curve(level: nat, divisor: nat): nat
    requires divisor > 0
  {
    QuotientNat(level * level * SCALE, divisor);
    level * level * SCALE / divisor
  }

  /** `q` is that value: the largest number whose product with the divisor does not exceed the square. */
  lemma CurveIs(level: nat, divisor: nat, q: nat)
    requires divisor > 0
    ensures q == Curve(level, divisor) <==> divisor * q <= SCALE * (level * level) < divisor * (q + 1)
  {
    var n := level * level * SCALE;
    assert n == SCALE * (level * level);
    assert divisor * (q + 1) == divisor * q + divisor;
    QuotientNat(n, divisor);
    if divisor * q <= n < divisor * (q + 1) {
      Exact(n, divisor, q, n - divisor * q);
    }
  }

  /** The longest step a leader may take: the cap, and when it rises a quarter more than the last step. */
  function Limit(p: Pace, rising: bool): int {
    if rising then Min(p.maxStep, p.prev + Max(p.prev / 4, 1)) else p.maxStep
  }

  /** The step meant: the curve, at least the minimum, at most the limit. */
  function MeantStep(p: Pace, leader: Channel): int
    requires p.divisor > 0
  {
    Min(Max(Curve(leader.curr, p.divisor), p.minStep), Limit(p, !leader.Dimming()))
  }

  /** The step is the one meant exactly when the curve value fits 32 bits, or what is left of it reaches the
      limit all the same. */
  lemma StepIff(p: Pace, leader: Channel)
    requires p.Valid()
    ensures var q, limit := Curve(leader.curr, p.divisor), Limit(p, !leader.Dimming());
            StepFor(p, leader) == MeantStep(p, leader) <==>
            q <= UINT32_MAX || q % (UINT32_MAX + 1) >= limit || p.minStep >= limit
  {
    var q := Curve(leader.curr, p.divisor);
    hide Curve;
    LimitIs(p, leader, q % (UINT32_MAX + 1));
  }

  lemma LimitIs(p: Pace, leader: Channel, w: nat)
    requires p.Valid() && w == Curve(leader.curr, p.divisor) % (UINT32_MAX + 1)
    ensures StepFor(p, leader) == Min(Max(w, p.minStep), Limit(p, !leader.Dimming()))
  {
    StepAtIs(p, w, !leader.Dimming());
    hide StepAt, Limit;
  }

  lemma StepAtIs(p: Pace, w: nat, rising: bool)
    requires p.Valid()
    ensures StepAt(p, w, rising) == Min(Max(w, p.minStep), Limit(p, rising))
  {
    var growth := Max(p.prev / 4, 1);
    if p.prev < p.maxStep {
      Exact(p.prev + growth, UINT32_MAX + 1, 0, p.prev + growth);
    }
    Within(Min(Max(w, p.minStep), p.maxStep), p.maxStep, p.prev, p.prev + growth);
  }

  /** A limit above the last step binds only what is above the last step. */
  lemma Within(capped: int, cap: int, last: int, limit: int)
    requires capped <= cap && last < limit
    ensures capped <= last ==> Min(capped, limit) == capped
  {
  }

  /** A wrapped curve: at level 6554 with a divisor of 1 the curve asks for more than 2^32 hundredths, and
      what is left of it is less than the cap. */
  lemma WrappedCurve()
    ensures var p, leader := Pace(1, SCALE, UINT16_MAX * SCALE, 1, 0, SCALE), Channel(6554, 0, 655400);
            p.Valid() && MeantStep(p, leader) == p.maxStep && StepFor(p, leader) == 524304
  {
    assert 6554 * 6554 * SCALE / 1 == 4295491600;
  }

  /** With no wrap: a step strictly between its limits is the curve value itself. */
  lemma StepFollowsCurve(p: Pace, leader: Channel)
    requires p.Valid() && SCALE * (leader.curr * leader.curr) <= p.divisor * UINT32_MAX
    ensures var step, limit := StepFor(p, leader), Limit(p, !leader.Dimming());
            && step == MeantStep(p, leader)
            && (p.minStep < step < limit ==>
                  p.divisor * step <= SCALE * (leader.curr * leader.curr) < p.divisor * (step + 1))
            && (step == p.minStep < limit ==> SCALE * (leader.curr * leader.curr) < p.divisor * (step + 1))
            && (step == limit > p.minStep ==> p.divisor * step <= SCALE * (leader.curr * leader.curr))
  {
    var q := Curve(leader.curr, p.divisor);
    CurveIs(leader.curr, p.divisor, q);
    assert q <= UINT32_MAX by {
      if q > UINT32_MAX {
        ProductMono(p.divisor, UINT32_MAX + 1, p.divisor, q);
      }
    }
    StepIff(p, leader);
    hide StepFor, Curve;
    var step, limit := StepFor(p, leader), Limit(p, !leader.Dimming());
    if step <= q {
      ProductMono(p.divisor, step, p.divisor, q);
    }
    if q <= step {
      ProductMono(p.divisor, q + 1, p.divisor, step + 1);
    }
  }

  /** The brighter the leader, the longer the step. */
  lemma StepGrows(p: Pace, a: Channel, b: Channel)
    requires p.Valid() && a.curr <= b.curr && (a.Dimming() <==> b.Dimming())
    requires SCALE * (b.curr * b.curr) <= p.divisor * UINT32_MAX
    ensures StepFor(p, a) <= StepFor(p, b)
  {
    ProductMono(a.curr, a.curr, b.curr, b.curr);
    StepFollowsCurve(p, a);
    StepFollowsCurve(p, b);
    QuotientMono(a.curr * a.curr * SCALE, b.curr * b.curr * SCALE, p.divisor);
    hide StepFor;
  }

  /** From 2000 down with a divisor of 10000, the step is 400 units. */
  lemma DimmingStep()
    ensures var p := Pace(10000, SCALE, 500 * SCALE, 1, 0, SCALE); StepFor(p, Channel(2000, 0, 200000)) == 40000
  {
  }

  // ---------------------------------------------------------------- how a channel moves

  /** The level in hundredths that a move starts from: the stored one, unless it has lost its level. */
  function From(c: Channel): nat {
    if c.fixed / SCALE == c.curr then c.fixed else c.curr * SCALE
  }

  /** A channel moves by exactly the step, in hundredths, but not past its target, and its level is the
      whole units of that. */
  lemma MoveIs(c: Channel, step: nat)
    ensures var m := Move(c, step);
            && m.dest == c.dest && m.curr == m.fixed / SCALE
            && m.fixed == if c.curr < c.dest then Min(From(c) + step, c.dest * SCALE)
                          else if c.curr > c.dest then Max(From(c) - step, c.dest * SCALE)
                          else c.dest * SCALE
  {
  }

  /** A moving channel gets at least one unit closer, on its own side of the target. */
  lemma MoveApproaches(c: Channel, step: nat)
    requires c.Valid() && step >= SCALE
    ensures var m := Move(c, step);
            && m.dest == c.dest && m.Valid() && m.fixed / SCALE == m.curr && m.fixed <= UINT16_MAX * SCALE
            && (c.curr == c.dest ==> m.curr == c.dest)
            && (c.curr < c.dest ==> c.curr < m.curr <= c.dest)
            && (c.curr > c.dest ==> c.dest <= m.curr < c.curr)
  {
  }

  // ---------------------------------------------------------------- one call

  function FindLeader(channels: seq<Channel>): (leader: Option<nat>)
    ensures leader.Some? ==> leader.value < |channels| && channels[leader.value].Distance() > 0
  {
    if channels == [] then None
    else
      var i := |channels| - 1;
      var c, best := channels[i], FindLeader(channels[..i]);
      if c.Distance() == 0 then best
      else if best.None? then Some(i)
      else
        var b := channels[best.value];
        if c.Distance() > b.Distance() then Some(i)
        else if c.Distance() == b.Distance() && c.Dimming() && !b.Dimming() then Some(i)
        else best
  }

  /** The search with one channel more. */
  lemma LeaderStep(rows: seq<Channel>, i: nat)
    requires i < |rows|
    ensures var c, best := rows[i], FindLeader(rows[..i]);
            FindLeader(rows[..i + 1]) ==
            if c.Distance() == 0 then best
            else if best.None? || c.Distance() > rows[best.value].Distance() then Some(i)
            else
              var b := rows[best.value];
              if c.Distance() == b.Distance() && c.Dimming() && !b.Dimming() then Some(i) else best
  {
    assert rows[..i + 1][..i] == rows[..i];
  }

  /** The search finds the leader, or nothing exactly when every channel has arrived. */
  lemma {:induction false} LeaderFound(channels: seq<Channel>)
    ensures FindLeader(channels).None? <==> Settled(channels)
    ensures FindLeader(channels).Some? ==> IsLeader(channels, FindLeader(channels).value)
  {
    if channels != [] {
      var i := |channels| - 1;
      LeaderFound(channels[..i]);
      var best := FindLeader(channels[..i]);
      if best.Some? {
        LeaderKept(channels, best.value);
      }
    }
  }

  lemma LeaderKept(channels: seq<Channel>, best: nat)
    requires channels != [] && IsLeader(channels[..|channels| - 1], best)
    ensures var c, b := channels[|channels| - 1], channels[best];
            if c.Distance() > b.Distance() || (c.Distance() == b.Distance() && c.Dimming() && !b.Dimming())
            then IsLeader(channels, |channels| - 1) else IsLeader(channels, best)
  {
    var front := channels[..|channels| - 1];
    assert forall j :: 0 <= j < |front| ==> front[j] == channels[j];
  }

  function MoveAll(channels: seq<Channel>, step: nat): (moved: seq<Channel>)
    ensures |moved| == |channels| && forall i :: 0 <= i < |channels| ==> moved[i] == Move(channels[i], step)
  {
    seq(|channels|, i requires 0 <= i < |channels| => Move(channels[i], step))
  }

  /** Whether a call gets past the tick counter. */
  predicate Effective(p: Pace) {
    (p.acc + 1) % (UINT32_MAX + 1) >= p.interval
  }

  /** qm_softdim_run: most calls only count; an effective one moves every channel by the leader's step. */
  function Tick(d: Dimmer): Dimmer
    requires d.pace.divisor > 0
  {
    if !Effective(d.pace) then d.(pace := d.pace.(acc := (d.pace.acc + 1) % (UINT32_MAX + 1)))
    else
      var leader := FindLeader(d.channels);
      if leader.None? then d.(pace := d.pace.(acc := 0))
      else
        var step := StepFor(d.pace, d.channels[leader.value]);
        Dimmer(MoveAll(d.channels, step), d.pace.(acc := 0, prev := step))
  }

  /** A call changes nothing of the pace but its counter and the last step. */
  lemma CounterIs(d: Dimmer)
    requires d.pace.Valid()
    ensures var p, q := d.pace, Tick(d).pace;
            && q == p.(acc := q.acc, prev := q.prev)
            && q.acc == if (p.acc + 1) % (UINT32_MAX + 1) >= p.interval then 0 else (p.acc + 1) % (UINT32_MAX + 1)
  {
    hide StepFor, Move;
  }

  /** A call that only counts, or finds every channel arrived, moves nothing. */
  lemma QuietCall(d: Dimmer)
    requires d.pace.Valid() && (!Effective(d.pace) || Settled(d.channels))
    ensures Tick(d).channels == d.channels && Tick(d).pace.prev == d.pace.prev
  {
    hide StepFor, Move, Settled, IsLeader, FindLeader;
    LeaderFound(d.channels);
  }

  /** Any other call moves every channel by the step of the leader, and remembers it. */
  lemma MovingCall(d: Dimmer) returns (leader: nat)
    requires d.pace.Valid() && Effective(d.pace) && !Settled(d.channels)
    ensures IsLeader(d.channels, leader)
    ensures Tick(d).pace.prev == StepFor(d.pace, d.channels[leader])
    ensures Moved(d.channels, Tick(d).channels, Tick(d).pace.prev)
  {
    hide StepFor, Move, Settled, IsLeader, FindLeader;
    LeaderFound(d.channels);
    leader := FindLeader(d.channels).value;
  }

  predicate Moved(before: seq<Channel>, after: seq<Channel>, step: nat) {
    |before| == |after| && forall i :: 0 <= i < |before| ==> after[i] == Move(before[i], step)
  }

  /** An interval of n means every n-th call: until then a controller that has just moved only counts. */
  lemma {:induction false} OnlyEveryNth(d: Dimmer, n: nat)
    requires d.pace.Valid() && d.pace.acc == 0 && n < d.pace.interval
    ensures RunMany(d, n) == d.(pace := d.pace.(acc := n))
    ensures n == d.pace.interval - 1 ==> Effective(RunMany(d, n).pace)
  {
    CountsFrom(d, 0, n);
  }

  lemma {:induction false} CountsFrom(d: Dimmer, k: nat, n: nat)
    requires d.pace.Valid() && d.pace.acc == k && k + n < d.pace.interval
    ensures RunMany(d, n) == d.(pace := d.pace.(acc := k + n))
    decreases n
  {
    if n > 0 {
      var e := d.(pace := d.pace.(acc := k + 1));
      CountsOne(d, k);
      hide Tick;
      CountsFrom(e, k + 1, n - 1);
    }
  }

  lemma CountsOne(d: Dimmer, k: nat)
    requires d.pace.Valid() && d.pace.acc == k && k + 1 < d.pace.interval
    ensures Tick(d) == d.(pace := d.pace.(acc := k + 1))
  {
    hide StepFor, Move, FindLeader;
  }

  // ---------------------------------------------------------------- convergence

  predicate Reaches(channels: seq<Channel>, m: nat) {
    exists i :: 0 <= i < |channels| && channels[i].Distance() == m
  }

  function MaxDistance(channels: seq<Channel>): (m: nat)
    ensures forall i :: 0 <= i < |channels| ==> channels[i].Distance() <= m
    ensures m > 0 ==> Reaches(channels, m)
  {
    if channels == [] then 0
    else
      var m := MaxDistance(channels[..|channels| - 1]);
      var c := channels[|channels| - 1];
      if c.Distance() > m then c.Distance() else m
  }

  /** Calls up to and including the next effective one. */
  function Wait(interval: nat, acc: nat): int {
    if acc == UINT32_MAX then 1 + interval
    else if interval - acc > 1 then interval - acc
    else 1
  }

  function Remaining(m: nat, interval: nat, acc: nat): int {
    if m == 0 then 0 else Wait(interval, acc) + (m - 1) * interval
  }

  /** Calls within which every channel arrives. */
  function CallsNeeded(d: Dimmer): int {
    Remaining(MaxDistance(d.channels), d.pace.interval, d.pace.acc)
  }

  function Less(n: int): int {
    if n > 0 then n - 1 else 0
  }

  lemma WaitShrinks(m: nat, interval: nat, acc: nat)
    requires 1 <= interval <= UINT32_MAX && acc <= UINT32_MAX && (acc + 1) % (UINT32_MAX + 1) < interval
    ensures Remaining(m, interval, (acc + 1) % (UINT32_MAX + 1)) <= Less(Remaining(m, interval, acc))
  {
    Product(m, interval);
  }

  lemma DistanceShrinks(m: nat, m': nat, interval: nat, acc: nat)
    requires m' <= Less(m) && 1 <= interval <= UINT32_MAX
    ensures Remaining(m', interval, 0) <= Less(Remaining(m, interval, acc))
  {
    if m' > 0 {
      assert interval + (m' - 1) * interval == m' * interval;
      assert (m - 1) * interval == m' * interval + (m - 1 - m') * interval;
      Product(m - 1 - m', interval);
    } else if m > 0 {
      Product(m - 1, interval);
    }
  }

  /** With every step at least one unit, the longest distance drops by at least one and no target moves. */
  lemma TickApproaches(channels: seq<Channel>, step: nat)
    requires step >= SCALE && forall i :: 0 <= i < |channels| ==> channels[i].Valid()
    ensures forall i :: 0 <= i < |channels| ==>
              MoveAll(channels, step)[i].Valid() && MoveAll(channels, step)[i].dest == channels[i].dest
    ensures MaxDistance(MoveAll(channels, step)) <= Less(MaxDistance(channels))
  {
    var moved := MoveAll(channels, step);
    forall i | 0 <= i < |channels|
      ensures moved[i].Valid() && moved[i].dest == channels[i].dest
      ensures moved[i].Distance() <= Less(channels[i].Distance())
    {
      MoveApproaches(channels[i], step);
    }
  }

  lemma NoneLeft(channels: seq<Channel>)
    ensures FindLeader(channels).None? ==> MaxDistance(channels) == 0
  {
    LeaderFound(channels);
  }

  /** Each call keeps the controller valid and its targets, and brings the arrival of all channels
      closer by one. */
  lemma CallApproaches(d: Dimmer)
    requires d.Valid()
    ensures Tick(d).Valid() && SameTargets(d, Tick(d)) && Tick(d).pace.interval == d.pace.interval
    ensures CallsNeeded(Tick(d)) <= Less(CallsNeeded(d))
  {
    hide StepFor, Move, MaxDistance, Remaining;
    if Effective(d.pace) {
      var leader := FindLeader(d.channels);
      NoneLeft(d.channels);
      if leader.Some? {
        var step := StepFor(d.pace, d.channels[leader.value]);
        StepBounds(d.pace, d.channels[leader.value]);
        TickApproaches(d.channels, step);
      }
      DistanceShrinks(MaxDistance(d.channels), MaxDistance(Tick(d).channels), d.pace.interval, d.pace.acc);
    } else {
      WaitShrinks(MaxDistance(d.channels), d.pace.interval, d.pace.acc);
    }
  }

  predicate SameTargets(d: Dimmer, e: Dimmer) {
    |d.channels| == |e.channels| && forall i :: 0 <= i < |d.channels| ==> d.channels[i].dest == e.channels[i].dest
  }

  function RunMany(d: Dimmer, n: nat): Dimmer
    requires d.pace.divisor > 0
    decreases n
  {
    if n == 0 then d else RunMany(Tick(d), n - 1)
  }

  /** After the calls needed, and for ever after, every channel stands on the target it was given. */
  lemma {:induction false} Arrives(d: Dimmer, n: nat)
    requires d.Valid() && n >= CallsNeeded(d)
    ensures SameTargets(d, RunMany(d, n)) && Settled(RunMany(d, n).channels)
    decreases n
  {
    hide Tick, StepFor;
    if n > 0 {
      CallApproaches(d);
      Arrives(Tick(d), n - 1);
    } else if MaxDistance(d.channels) > 0 {
      Product(MaxDistance(d.channels) - 1, d.pace.interval);
    }
  }

  // ---------------------------------------------------------------- setting targets

  /** _update_tick_interval on the pace: the fade's timer ticks over the estimated steps, rounded up in
      32-bit arithmetic. */
  function Repace(p: Pace, period: nat, steps: nat, fade: nat): Pace {
    if period == 0 then p
    else
      var interval := IntervalFor(fade / period, Count(steps));
      p.(interval := interval, acc := interval, prev := p.minStep)
  }

  /** The estimated steps, guarded against zero. */
  function Count(steps: nat): nat {
    if steps == 0 then 1 else steps
  }

  function IntervalFor(ticks: nat, count: nat): nat
    requires count > 0
  {
    var interval := ((ticks + count - 1) % (UINT32_MAX + 1)) / count;
    if interval < 1 then 1 else interval
  }

  lemma RepaceKeepsValid(p: Pace, period: nat, steps: nat, fade: nat)
    requires p.Valid()
    ensures Repace(p, period, steps, fade).Valid()
  {
    if period > 0 {
      var count := if steps == 0 then 1 else steps;
      QuotientShrinks((fade / period + count - 1) % (UINT32_MAX + 1), count);
    }
  }

  /** The quotient rounded up, and at least one. */
  function RoundedUp(ticks: nat, count: nat): nat
    requires count > 0
  {
    if ticks == 0 then 1 else (ticks + count - 1) / count
  }

  /** The interval is that exactly when the sum has not wrapped, or one step takes all the ticks anyway. */
  lemma RoundsUpIff(p: Pace, period: uint32, steps: uint32, fade: uint32)
    requires period > 0
    ensures Repace(p, period, steps, fade).interval == RoundedUp(fade / period, Count(steps)) <==>
            fade / period + Count(steps) - 1 <= UINT32_MAX || fade / period <= Count(steps)
  {
    hide IntervalFor, RoundedUp;
    QuotientShrinks(fade, period);
    IntervalIff(fade / period, Count(steps));
  }

  lemma IntervalIff(ticks: nat, count: nat)
    requires ticks <= UINT32_MAX && 0 < count <= UINT32_MAX
    ensures IntervalFor(ticks, count) == RoundedUp(ticks, count) <==>
            ticks + count - 1 <= UINT32_MAX || ticks <= count
  {
    var sum := ticks + count - 1;
    if sum <= UINT32_MAX {
      RoundedUpPositive(ticks, count);
    } else if ticks <= count {
      Exact(sum, count, 1, ticks - 1);
      Exact(sum - UINT32_MAX - 1, count, 0, sum - UINT32_MAX - 1);
    } else {
      WrappedIsLess(sum, count);
      Exact(count + count, count, 2, 0);
      QuotientMono(count + count, sum, count);
      assert sum % (UINT32_MAX + 1) == sum - UINT32_MAX - 1;
    }
  }

  lemma RoundedUpPositive(ticks: nat, count: nat)
    requires count > 0
    ensures (ticks + count - 1) / count >= 1 <==> ticks > 0
  {
    if ticks == 0 {
      Exact(count - 1, count, 0, count - 1);
    } else {
      QuotientMono(count, ticks + count - 1, count);
      Exact(count, count, 1, 0);
    }
  }

  lemma QuotientMono(a: nat, b: nat, d: nat)
    requires a <= b && d > 0
    ensures a / d <= b / d
  {
    var p, q := a / d, b / d;
    assert a == d * p + a % d && b == d * q + b % d;
    if p > q {
      assert d * p == d * q + d + d * (p - q - 1);
      Product(d, p - q - 1);
    }
  }

  lemma WrappedIsLess(sum: nat, count: nat)
    requires UINT32_MAX < sum && 0 < count <= UINT32_MAX
    ensures (sum - UINT32_MAX - 1) / count < sum / count
  {
    QuotientMono(sum - UINT32_MAX - 1, sum - count, count);
    var q := sum / count;
    Exact(sum - count, count, q - 1, sum % count);
  }

  /** 2^32 - 1 milliseconds in two steps at a period of one: the sum wraps and every tick counts. */
  lemma LongFadeHurries(p: Pace)
    ensures Repace(p, 1, 2, UINT32_MAX).interval == 1 && RoundedUp(UINT32_MAX, 2) == 0x8000_0000
  {
  }

  /** The one fade whose interval is the largest 32-bit number. */
  predicate Longest(period: nat, steps: nat, fade: nat) {
    period == 1 && steps <= 1 && fade == UINT32_MAX
  }

  lemma LongestIff(p: Pace, period: uint32, steps: uint32, fade: uint32)
    requires period > 0
    ensures Repace(p, period, steps, fade).interval == UINT32_MAX <==> Longest(period, steps, fade)
  {
    var ticks, count := fade / period, if steps == 0 then 1 else steps;
    assert 0 <= ticks <= fade by { QuotientShrinks(fade, period); }
    if count == 1 {
      assert period > 1 ==> ticks < UINT32_MAX by {
        if period > 1 {
          HalfAtMost(fade, period);
        }
      }
    } else {
      HalfAtMost((ticks + count - 1) % (UINT32_MAX + 1), count);
    }
  }

  lemma HalfAtMost(n: nat, d: nat)
    requires d > 1
    ensures 0 <= n / d <= n / 2
  {
    var q := n / d;
    assert n == d * q + n % d;
    assert d * q == 2 * q + (d - 2) * q;
    Product(d - 2, q);
  }

  /** After a set with a running timer every channel stands on its target after 1 + (D - 1) * interval
      calls, D being the longest distance, and for ever after, and the very next call moves them; only
      after the longest fade does the counter wrap and a whole further interval pass. */
  lemma SetArrives(channels: seq<Channel>, p: Pace, period: uint32, steps: uint32, fade: uint32, n: nat)
    requires Dimmer(channels, p).Valid() && period > 0 && !Settled(channels)
    requires n >= ArrivalBound(channels, Repace(p, period, steps, fade).interval, Longest(period, steps, fade))
    ensures var d := Dimmer(channels, Repace(p, period, steps, fade));
            && d.Valid() && (Effective(d.pace) <==> !Longest(period, steps, fade))
            && SameTargets(d, RunMany(d, n)) && Settled(RunMany(d, n).channels)
  {
    hide Repace, RunMany, Settled;
    var q := Repace(p, period, steps, fade);
    RepaceKeepsValid(p, period, steps, fade);
    RepaceFills(p, period, steps, fade);
    LongestIff(p, period, steps, fade);
    Unsettled(channels);
    Arrives(Dimmer(channels, q), n);
  }

  function ArrivalBound(channels: seq<Channel>, interval: nat, longest: bool): int {
    1 + (MaxDistance(channels) - 1) * interval + if longest then interval else 0
  }

  lemma Unsettled(channels: seq<Channel>)
    requires !Settled(channels)
    ensures MaxDistance(channels) > 0
  {
  }

  lemma RepaceFills(p: Pace, period: nat, steps: nat, fade: nat)
    requires period > 0
    ensures Repace(p, period, steps, fade).acc == Repace(p, period, steps, fade).interval
  {
  }

  /** The wrap is real: a fade of 2^32 - 1 milliseconds in one step at a period of one. */
  lemma LongestFadeWaits(p: Pace)
    requires p.Valid()
    ensures !Effective(Repace(p, 1, 1, UINT32_MAX))
  {
  }

  /** A new pace is as valid as the old one, and immediate but for the longest fade; it starts from the
      minimum step again, and the curve and the step limits stay. */
  lemma RepaceMeans(p: Pace, period: uint32, steps: uint32, fade: uint32)
    ensures var q := Repace(p, period, steps, fade);
            && q == p.(interval := q.interval, acc := q.acc, prev := q.prev)
            && if period > 0 then q.acc == q.interval && q.prev == p.minStep else q == p
    ensures p.Valid() ==> Repace(p, period, steps, fade).Valid()
    ensures period > 0 ==> (Effective(Repace(p, period, steps, fade)) <==> !Longest(period, steps, fade))
  {
    hide IntervalFor;
    RepaceRests(p, period, steps, fade);
    hide Repace, Longest;
    if p.Valid() {
      RepaceKeepsValid(p, period, steps, fade);
    }
    if period > 0 {
      LongestIff(p, period, steps, fade);
      RepaceBounds(p, period, steps, fade);
      RepaceFills(p, period, steps, fade);
    }
  }

  lemma RepaceRests(p: Pace, period: nat, steps: nat, fade: nat)
    ensures var q := Repace(p, period, steps, fade);
            && q == p.(interval := q.interval, acc := q.acc, prev := q.prev)
            && if period > 0 then q.acc == q.interval && q.prev == p.minStep else q == p
  {
  }

  lemma RepaceBounds(p: Pace, period: nat, steps: nat, fade: nat)
    requires period > 0
    ensures 1 <= Repace(p, period, steps, fade).interval <= UINT32_MAX
  {
    var count := if steps == 0 then 1 else steps;
    QuotientShrinks((fade / period + count - 1) % (UINT32_MAX + 1), count);
  }

  /** A call that only counts answers false, although a channel has not arrived. */
  lemma CountingCall()
    ensures var d := Dimmer([Channel(0, 10, 0)], Pace(1, SCALE, SCALE, 3, 0, SCALE));
            d.Valid() && !Effective(d.pace) && !Settled(d.channels) && Tick(d).channels == d.channels
  {
    assert [Channel(0, 10, 0)][0].Distance() == 10;
  }

  // ---------------------------------------------------------------- initialisation

  /** What qm_softdim_init computes; `maxInt` is the 16-bit speed limit it takes from a float. */
  function InitialPace(resolution: uint32, hardware: uint32, damping: uint32, maxInt: nat): Pace
    requires hardware > 0 && maxInt <= UINT16_MAX
  {
    var ratio := if resolution / hardware < 1 then 1 else resolution / hardware;
    var minStep := (ratio * SCALE) % (UINT32_MAX + 1);
    Pace((resolution * damping) % (UINT32_MAX + 1), minStep, (if maxInt < 1 then 1 else maxInt) * SCALE, 1, 0, minStep)
  }

  /** A fresh controller is valid, and no leader can ever ask it for less than one unit, exactly when
      neither 32-bit product has lost its high part that way. */
  lemma InitialIff(resolution: uint32, hardware: uint32, damping: uint32, maxInt: nat)
    requires hardware > 0 && maxInt <= UINT16_MAX && (resolution * damping) % (UINT32_MAX + 1) > 0
    ensures var p := InitialPace(resolution, hardware, damping, maxInt);
            && (p.Valid() <==> resolution / hardware < 1 || (resolution / hardware * SCALE) % (UINT32_MAX + 1) >= SCALE)
            && (p.Valid() <==> forall leader: Channel :: leader.Valid() ==> StepFor(p, leader) >= SCALE)
  {
    hide StepFor;
    var p := InitialPace(resolution, hardware, damping, maxInt);
    if p.Valid() {
      forall leader: Channel | leader.Valid() ensures StepFor(p, leader) >= SCALE {
        StepBounds(p, leader);
      }
    } else {
      var dark := Channel(0, 1, 0);
      DarkStep(p);
      assert dark.Valid() && StepFor(p, dark) < SCALE;
    }
  }

  lemma DarkStep(p: Pace)
    requires p.divisor > 0 && p.minStep < SCALE <= p.maxStep && p.prev == p.minStep
    ensures StepFor(p, Channel(0, 1, 0)) < SCALE
  {
    var none := 0 * SCALE / p.divisor;
    assert none == 0;
  }

  // ---------------------------------------------------------------- the handle

  /** The channels that the three arrays of the handle describe. */
  function Rows(curr: seq<nat>, dest: seq<nat>, fixed: seq<nat>): (rows: seq<Channel>)
    requires |curr| == |dest| == |fixed|
    ensures |rows| == |curr| && forall i :: 0 <= i < |curr| ==> rows[i] == Channel(curr[i], dest[i], fixed[i])
  {
    seq(|curr|, i requires 0 <= i < |curr| => Channel(curr[i], dest[i], fixed[i]))
  }

  class Handle {
    const curr: array<nat>
    const dest: array<nat>
    const fixed: array<nat>
    const active: nat
    const timerPeriod: uint32
    var totalSteps: uint32
    var pace: Pace

    ghost predicate Valid()
      reads this
    {
      && curr.Length == dest.Length == fixed.Length == MAX_CHANNELS && active <= MAX_CHANNELS
      && curr != dest && dest != fixed && curr != fixed && pace.divisor > 0
    }

    ghost function View(): Dimmer
      requires Valid()
      reads this, curr, dest, fixed
    {
      Dimmer(Rows(curr[..active], dest[..active], fixed[..active]), pace)
    }

    constructor (channels: nat, resolution: uint32, hardware: uint32, damping: uint32, maxInt: nat,
                 timerBase: uint32, steps: uint32)
      requires hardware > 0 && maxInt <= UINT16_MAX && (resolution * damping) % (UINT32_MAX + 1) > 0
      ensures Valid() && fresh(curr) && fresh(dest) && fresh(fixed)
      ensures active == (if channels > MAX_CHANNELS then MAX_CHANNELS else channels) && timerPeriod == timerBase
      ensures totalSteps == (if steps == 0 then 1 else steps)
      ensures View().pace == InitialPace(resolution, hardware, damping, maxInt)
      ensures pace.divisor == (resolution * damping) % (UINT32_MAX + 1) && pace.maxStep == SCALE * Max(maxInt, 1)
      ensures pace.minStep == (SCALE * Max(resolution / hardware, 1)) % (UINT32_MAX + 1) == pace.prev
      ensures pace.interval == 1 && pace.acc == 0
      ensures |View().channels| == active && forall i :: 0 <= i < active ==> View().channels[i] == Channel(0, 0, 0)
    {
      curr := new nat[MAX_CHANNELS](_ => 0);
      dest := new nat[MAX_CHANNELS](_ => 0);
      fixed := new nat[MAX_CHANNELS](_ => 0);
      active := if channels > MAX_CHANNELS then MAX_CHANNELS else channels;
      timerPeriod := timerBase;
      totalSteps := if steps == 0 then 1 else steps;
      pace := InitialPace(resolution, hardware, damping, maxInt);
    }

    /** The search for the channel with the longest way, dimming channels first among equals. */
    method Elect() returns (leader: Option<nat>)
      requires Valid()
      ensures leader == FindLeader(View().channels)
    {
      ghost var rows := View().channels;
      var i, maxDiff := 0, 0;
      leader := None;
      assert FindLeader(rows[..0]) == None;
      hide FindLeader;
      while i < active
        invariant 0 <= i <= active && leader == FindLeader(rows[..i])
        invariant maxDiff == (if leader.None? then 0 else rows[leader.value].Distance())
      {
        LeaderStep(rows, i);
        var dimming := curr[i] > dest[i];
        var diff := if dimming then curr[i] - dest[i] else dest[i] - curr[i];
        if diff > maxDiff {
          maxDiff := diff;
          leader := Some(i);
        } else if diff != 0 && diff == maxDiff && dimming && !(curr[leader.value] > dest[leader.value]) {
          leader := Some(i);
        }
        i := i + 1;
      }
      assert rows[..i] == rows;
    }

    /** The step for this tick: the curve, the minimum, the cap, and the limit on speeding up. */
    method NextStep(level: nat, target: nat, ghost exact: nat) returns (step: nat)
      requires Valid()
      ensures step == StepFor(pace, Channel(level, target, exact))
      ensures pace.Valid() ==> SCALE <= step <= pace.maxStep
      ensures pace.Valid() && level <= target ==> step <= pace.prev + pace.prev / 4
      ensures pace.Valid() && SCALE * (level * level) <= pace.divisor * UINT32_MAX ==>
                && step == Min(Max(Curve(level, pace.divisor), pace.minStep), Limit(pace, level <= target))
    {
      if pace.Valid() {
        if SCALE * (level * level) <= pace.divisor * UINT32_MAX {
          StepFollowsCurve(pace, Channel(level, target, exact));
        }
        StepBounds(pace, Channel(level, target, exact));
      }
      step := (level * level * SCALE / pace.divisor) % (UINT32_MAX + 1);
      if step <= pace.minStep {
        step := pace.minStep;
      }
      if step > pace.maxStep {
        step := pace.maxStep;
      }
      if level <= target && step > pace.prev {
        var growth := pace.prev / 4;
        if growth < 1 {
          growth := 1;
        }
        var allowed := (pace.prev + growth) % (UINT32_MAX + 1);
        if step > allowed {
          step := allowed;
        }
      }
    }

    /** The update loop: every channel moves by the same step. */
    method Advance(step: nat)
      requires Valid()
      modifies curr, fixed
      ensures View() == Dimmer(MoveAll(old(View()).channels, step), old(pace))
    {
      ghost var rows := View().channels;
      var i := 0;
      while i < active
        invariant 0 <= i <= active
        invariant forall k :: 0 <= k < i ==> Channel(curr[k], dest[k], fixed[k]) == Move(rows[k], step)
        invariant forall k :: i <= k < active ==> Channel(curr[k], dest[k], fixed[k]) == rows[k]
      {
        AdvanceOne(i, step);
        i := i + 1;
      }
      assert View().channels == MoveAll(rows, step);
    }

    method AdvanceOne(i: nat, step: nat)
      requires Valid() && i < active
      modifies curr, fixed
      ensures Channel(curr[i], dest[i], fixed[i]) == Move(old(Channel(curr[i], dest[i], fixed[i])), step)
      ensures forall k :: 0 <= k < MAX_CHANNELS && k != i ==> curr[k] == old(curr[k]) && fixed[k] == old(fixed[k])
    {
      var goal := dest[i] * SCALE;
      if fixed[i] / SCALE != curr[i] {
        fixed[i] := curr[i] * SCALE;
      }
      if curr[i] == dest[i] {
        fixed[i] := goal;
        return;
      }
      if curr[i] < dest[i] {
        fixed[i] := if goal > fixed[i] && goal - fixed[i] > step then fixed[i] + step else goal;
      } else {
        fixed[i] := if fixed[i] > goal && fixed[i] - goal > step then fixed[i] - step else goal;
      }
      curr[i] := fixed[i] / SCALE;
    }

    /** qm_softdim_run. Its answer is true only on an effective call with something left to move. */
    method Run() returns (moved: bool)
      requires Valid()
      modifies this, curr, fixed
      ensures Valid() && View() == Tick(old(View()))
      ensures moved <==> Effective(old(pace)) && !Settled(old(View()).channels)
      ensures totalSteps == old(totalSteps) && dest[..] == old(dest[..])
    {
      hide Move, StepFor, Settled;
      LeaderFound(View().channels);
      pace := pace.(acc := (pace.acc + 1) % (UINT32_MAX + 1));
      if pace.acc < pace.interval {
        return false;
      }
      pace := pace.(acc := 0);
      var leader := Elect();
      if leader.None? {
        return false;
      }
      var l := leader.value;
      var step := NextStep(curr[l], dest[l], fixed[l]);
      StepIgnoresCounter(old(pace), 0, Channel(curr[l], dest[l], fixed[l]));
      pace := pace.(prev := step);
      Advance(step);
      return true;
    }

    /** softdim_setTarget: an index past the active channels changes no target but restarts the pace. */
    method SetTarget(index: nat, value: nat, fade: uint32)
      requires Valid() && value <= UINT16_MAX
      modifies this, dest
      ensures Valid() && View().pace == Repace(old(pace), timerPeriod, old(totalSteps), fade)
      ensures View().channels == if index < active
                                 then old(View()).channels[index := old(View()).channels[index].(dest := value)]
                                 else old(View()).channels
    {
      if index < active {
        dest[index] := value;
      }
      Retime(fade);
    }

    method Retime(fade: uint32)
      requires Valid()
      modifies this
      ensures Valid() && pace == Repace(old(pace), timerPeriod, old(totalSteps), fade)
      ensures old(pace).Valid() ==> pace.Valid()
      ensures timerPeriod > 0 ==> pace.acc == pace.interval && pace.prev == pace.minStep
      ensures pace == old(pace).(interval := pace.interval, acc := pace.acc, prev := pace.prev)
      ensures timerPeriod > 0 ==> totalSteps > 0 && (Effective(pace) <==> !Longest(timerPeriod, old(totalSteps), fade))
    {
      RepaceMeans(old(pace), timerPeriod, totalSteps, fade);
      hide Effective, Longest, Pace.Valid;
      if timerPeriod == 0 {
        return;
      }
      var ticks := fade / timerPeriod;
      if totalSteps == 0 {
        totalSteps := 1;
      }
      var interval := ((ticks + totalSteps - 1) % (UINT32_MAX + 1)) / totalSteps;
      if interval < 1 {
        interval := 1;
      }
      pace := pace.(interval := interval, acc := interval, prev := pace.minStep);
    }

    /** softdim_setAll. */
    method SetAll(value: nat, fade: uint32)
      requires Valid() && value <= UINT16_MAX
      modifies this, dest
      ensures Valid() && View().pace == Repace(old(pace), timerPeriod, old(totalSteps), fade)
      ensures |View().channels| == active
      ensures forall i :: 0 <= i < active ==> View().channels[i] == old(View()).channels[i].(dest := value)
    {
      var i := 0;
      while i < active
        invariant 0 <= i <= active
        invariant forall k :: 0 <= k < i ==> dest[k] == value
        modifies dest
      {
        dest[i] := value;
        i := i + 1;
      }
      Retime(fade);
    }
  }
}
