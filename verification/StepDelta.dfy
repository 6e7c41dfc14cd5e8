/** Step-delta interpolation: a value walks from `start` to `end` in a number of calls, along a curve
    evaluated in Q14, with the fractions carried from call to call. */
module StepDelta {
  import opened Arithmetic
  import opened Bytes

  const BASE := 16384
  const INT_MAX := 0x7FFF_FFFF

  datatype Curve = Linear | Square | Cubic | Hybrid | SCurve | SmootherStep

  /** The value of an unsigned 32-bit expression. */
  function Wrap(n: nat): nat {
    n % (UINT32_MAX + 1)
  }

  // ---------------------------------------------------------------- the curve in 32 bits

  /** Progress in Q14. */
  function Progress(step: nat, steps: nat): nat
    requires steps > 0
  {
    Wrap(step * BASE) / steps
  }

  /** The bracket of the smootherstep polynomial in Q28, from the progress and its square. */
  function Bracket(t: nat, square: nat): nat {
    var sum, middle := Wrap(Wrap(6 * square) + 0xA000_0000), Wrap(Wrap(15 * t) * 16384);
    if sum > middle then sum - middle else 0
  }

  function SquareQ14(t: nat): nat {
    Wrap(t * t) / BASE
  }

  function CubeQ14(t: nat): nat {
    Wrap(SquareQ14(t) * t) / BASE
  }

  function CurveQ14(curve: Curve, t: nat): nat {
    match curve
    case SmootherStep => Wrap(CubeQ14(t) * (Bracket(t, t * t) / BASE)) / BASE
    case Square => SquareQ14(t)
    case Cubic => CubeQ14(t)
    case _ => t
  }

  /** Progress never reaches the end before the last step, wrapped or not. */
  lemma ProgressBelow(step: nat, steps: nat)
    requires step < steps
    ensures Progress(step, steps) < BASE
  {
    QuotientBelow(Wrap(step * BASE), steps, BASE);
  }

  lemma QuotientBelow(n: nat, d: nat, bound: nat)
    requires d > 0 && n < d * bound
    ensures n / d < bound
  {
    var q := n / d;
    assert n == d * q + n % d;
  }

  /** The progress of every step is computed without overflow exactly when there are at most 2^18 steps. */
  lemma ProgressExactIff(steps: nat)
    requires 2 <= steps <= INT_MAX
    ensures (forall step :: 1 <= step < steps ==> Progress(step, steps) == step * BASE / steps) <==> steps <= 262144
  {
    if steps > 262144 {
      WrapsToNothing(steps);
    } else {
      forall step | 1 <= step < steps ensures Progress(step, steps) == step * BASE / steps {
        assert step * BASE <= UINT32_MAX;
      }
    }
  }

  /** With one step more than that, the progress of the last one wraps to zero. */
  lemma OneStepTooMany()
    ensures Progress(262144, 262145) == 0 && 262144 * BASE / 262145 == 16383
  {
  }

  lemma WrapsToNothing(steps: nat)
    requires 262144 < steps <= INT_MAX
    ensures Progress(262144, steps) != 262144 * BASE / steps
  {
    var n := 262144 * BASE;
    assert n / steps > 0 by {
      assert n == steps * (n / steps) + n % steps;
    }
  }

  // ---------------------------------------------------------------- no term overflows

  function Polynomial(t: int, b: int): int {
    6 * (t * t) - 15 * (t * b) + 10 * (b * b)
  }

  function Cubed(x: int): int {
    x * x * x
  }

  /** 1 - s(t) = (1 - t)^3 (6 t^2 + 3 t + 1), with denominators cleared. */
  lemma SmootherRest(t: int, b: int)
    ensures Cubed(b) * (b * b) - Cubed(t) * Polynomial(t, b) == Cubed(b - t) * (6 * (t * t) + 3 * (t * b) + b * b)
  {
  }

  /** The smootherstep polynomial stays below one before the end. */
  lemma SmootherBelow(t: nat, b: nat)
    requires t < b
    ensures Cubed(t) * Polynomial(t, b) < Cubed(b) * (b * b)
  {
    SmootherRest(t, b);
    var u, v := Cubed(b - t), 6 * (t * t) + 3 * (t * b) + b * b;
    assert u > 0 by { ProductPositive(b - t, b - t); ProductPositive((b - t) * (b - t), b - t); }
    assert v > 0 by { Product(t, t); Product(t, b); ProductPositive(b, b); }
    ProductPositive(u, v);
  }

  /** Every 32-bit term of the curve computation fits. */
  predicate TermsFit(t: nat) {
    && t * t <= UINT32_MAX && SquareQ14(t) * t <= UINT32_MAX
    && 6 * (t * t) + 0xA000_0000 <= UINT32_MAX && 15 * (t * BASE) <= UINT32_MAX
    && 6 * (t * t) + 0xA000_0000 > 15 * (t * BASE)
    && CubeQ14(t) * (Bracket(t, t * t) / BASE) <= UINT32_MAX
  }

  lemma SquareBelow(t: nat)
    requires t < BASE
    ensures t * t < BASE * BASE && SquareQ14(t) == t * t / BASE && SquareQ14(t) < BASE
  {
    ProductMono(t, t, BASE - 1, BASE - 1);
  }

  lemma CubeBelow(t: nat)
    requires t < BASE
    ensures SquareQ14(t) * t < BASE * BASE && CubeQ14(t) < BASE
    ensures CubeQ14(t) * (BASE * BASE) <= Cubed(t)
  {
    SquareBelow(t);
    var q := SquareQ14(t);
    ProductMono(q, t, BASE - 1, BASE - 1);
    assert q * BASE <= t * t;
    ProductMono(q * BASE, t, t * t, t);
    assert q * BASE * t == (q * t) * BASE;
    assert CubeQ14(t) * BASE <= q * t;
  }

  lemma BracketIs(t: nat)
    requires t < BASE
    ensures Bracket(t, t * t) == Polynomial(t, BASE)
    ensures 6 * (t * t) + 0xA000_0000 <= UINT32_MAX && 15 * (t * BASE) <= UINT32_MAX
    ensures 6 * (t * t) + 0xA000_0000 > 15 * (t * BASE)
  {
    hide Bracket;
    SquareBelow(t);
    NoRealRoot(t, t * t);
    BracketFits(t, t * t);
  }

  lemma BracketFits(t: nat, square: nat)
    requires t < 16384 && square < 0x1000_0000 && 6 * square + 0xA000_0000 > 15 * (t * 16384)
    ensures Bracket(t, square) == 6 * square + 0xA000_0000 - 15 * (t * 16384)
  {
  }

  /** The discriminant of the bracket is negative, so it is positive everywhere. */
  lemma NoRealRoot(t: nat, square: nat)
    requires square == t * t
    ensures 6 * square + 10 * (BASE * BASE) > 15 * (t * BASE)
  {
    var d: int := 12 * t - 15 * BASE;
    assert d * d >= 0;
    assert d * d == 144 * (t * t) - 360 * t * BASE + 225 * (BASE * BASE);
  }

  lemma SmootherFits(t: nat)
    requires t < BASE
    ensures CubeQ14(t) * (Bracket(t, t * t) / BASE) < BASE * BASE
  {
    var c, p := CubeQ14(t), Bracket(t, t * t) / BASE;
    CubeBelow(t);
    BracketIs(t);
    SmootherBelow(t, BASE);
    assert p * BASE <= Polynomial(t, BASE);
    ProductMono(c * (BASE * BASE), p * BASE, Cubed(t), Polynomial(t, BASE));
    Regroup(c, p);
  }

  lemma Regroup(c: nat, p: nat)
    ensures (c * (BASE * BASE)) * (p * BASE) == (c * p) * (BASE * BASE * BASE)
  {
  }

  /** For every progress below one, no term overflows and every curve stays below one. */
  lemma CurveBelow(curve: Curve, t: nat)
    requires t < BASE
    ensures TermsFit(t) && CurveQ14(curve, t) < BASE
  {
    hide TermsFit, SquareQ14, CubeQ14;
    NoOverflow(t);
    CubeBelow(t);
    SquareBelow(t);
    SmootherFits(t);
    hide Bracket, Wrap;
    ShiftBelow(CubeQ14(t) * (Bracket(t, t * t) / BASE));
  }

  lemma NoOverflow(t: nat)
    requires t < BASE
    ensures TermsFit(t)
  {
    hide SquareQ14, CubeQ14, Bracket, Wrap, Polynomial, Cubed;
    SquareBelow(t);
    CubeBelow(t);
    BracketIs(t);
    SmootherFits(t);
  }

  lemma ShiftBelow(n: nat)
    requires n < BASE * BASE
    ensures Wrap(n) / BASE < BASE && n <= UINT32_MAX
  {
  }

  // ---------------------------------------------------------------- the curve is the curve meant

  /** The curve as a polynomial, multiplied by b^4: the value one of the fade is b^5. */
  function Ideal(curve: Curve, t: int, b: int): int {
    match curve
    case SmootherStep => Cubed(t) * Polynomial(t, b)
    case Square => (t * t) * Cubed(b)
    case Cubic => Cubed(t) * (b * b)
    case _ => t * Fourth(b)
  }

  function Fourth(b: int): int {
    (b * b) * (b * b)
  }

  /** `v` is `ideal`, rounded down by at most 22 units. */
  predicate Close(ideal: int, v: int, b: int) {
    v * Fourth(b) <= ideal <= (v + 22) * Fourth(b)
  }

  /** All the roundings together cost at most 22 units of Q14, and always downwards. */
  lemma CurveClose(curve: Curve, t: nat)
    requires t < BASE
    ensures Close(Ideal(curve, t, BASE), CurveQ14(curve, t), BASE)
  {
    match curve
    case SmootherStep => SmootherClose(t);
    case Square => SquareClose(t);
    case Cubic => CubicClose(t);
    case _ =>
  }

  lemma SquareClose(t: nat)
    requires t < BASE
    ensures Close((t * t) * Cubed(BASE), SquareQ14(t), BASE)
  {
    SquareBelow(t);
    Scaled(t * t, SquareQ14(t), BASE);
  }

  lemma Scaled(n: nat, q: nat, b: nat)
    requires q * b <= n <= (q + 22) * b
    ensures Close(n * Cubed(b), q, b)
  {
    assert Cubed(b) >= 0 by { Product(b, b); Product(b * b, b); }
    ProductMono(q * b, Cubed(b), n, Cubed(b));
    ProductMono(n, Cubed(b), (q + 22) * b, Cubed(b));
    assert b * Cubed(b) == Fourth(b);
    assert (q * b) * Cubed(b) == q * Fourth(b);
    assert ((q + 22) * b) * Cubed(b) == (q + 22) * Fourth(b);
  }

  lemma CubicClose(t: nat)
    requires t < BASE
    ensures Close(Cubed(t) * (BASE * BASE), CubeQ14(t), BASE)
  {
    CubeParts(t);
  }

  lemma SmootherClose(t: nat)
    requires t < BASE
    ensures Close(Cubed(t) * Polynomial(t, BASE), CurveQ14(SmootherStep, t), BASE)
  {
    hide Close, CubeQ14, Bracket;
    CubeParts(t);
    BracketIs(t);
    SmootherFits(t);
    AtMostTen(t);
    var c, p := CubeQ14(t), Bracket(t, t * t) / BASE;
    SmootherParts(BASE, Cubed(t), Polynomial(t, BASE), c, p, c * p / BASE);
  }

  lemma AtMostTen(t: nat)
    requires t < BASE
    ensures Polynomial(t, BASE) <= 10 * (BASE * BASE)
  {
    ProductMono(t, t, t, BASE);
  }

  lemma CubeParts(t: nat)
    requires t < BASE
    ensures CubeQ14(t) < BASE && 0 <= Cubed(t) - CubeQ14(t) * (BASE * BASE) < 2 * (BASE * BASE)
  {
    CubeBelow(t);
    SquareBelow(t);
    var q := SquareQ14(t);
    var r, s := t * t - q * BASE, q * t - CubeQ14(t) * BASE;
    assert Cubed(t) == (q * BASE + r) * t == (q * t) * BASE + r * t;
    ProductMono(r, t, BASE - 1, BASE - 1);
  }

  lemma SmootherParts(b: nat, cube: nat, poly: nat, c: nat, p: nat, v: nat)
    requires 0 <= cube - c * (b * b) < 2 * (b * b) && 0 <= poly - p * b < b && 0 <= c * p - v * b < b
    requires c < b && poly <= 10 * (b * b)
    ensures Close(cube * poly, v, b)
  {
    hide Fourth, Cubed;
    var e, u, w := cube - c * (b * b), poly - p * b, c * p - v * b;
    Expand(b, c, p, e, u);
    Collect(b, v, w);
    FirstRest(b, w);
    SecondRest(b, c, u);
    ThirdRest(b, e, poly);
    Sums(v, Fourth(b), cube * poly, w * Cubed(b), (c * u) * (b * b), e * poly);
  }

  lemma Sums(v: nat, unit: nat, total: int, x: nat, y: nat, z: nat)
    requires total == v * unit + x + y + z && x <= unit && y <= unit && z <= 20 * unit
    ensures v * unit <= total <= (v + 22) * unit
  {
  }

  lemma FirstRest(b: nat, w: nat)
    requires w < b
    ensures 0 <= w * Cubed(b) <= Fourth(b)
  {
    Product(b, b);
    Product(b * b, b);
    ProductMono(w, Cubed(b), b, Cubed(b));
    Product(w, Cubed(b));
  }

  lemma SecondRest(b: nat, c: nat, u: nat)
    requires c < b && u < b
    ensures 0 <= (c * u) * (b * b) <= Fourth(b)
  {
    ProductMono(c, u, b, b);
    ProductMono(c * u, b * b, b * b, b * b);
    Product(c * u, b * b);
  }

  lemma ThirdRest(b: nat, e: nat, poly: nat)
    requires e < 2 * (b * b) && poly <= 10 * (b * b)
    ensures 0 <= e * poly <= 20 * Fourth(b)
  {
    ProductMono(e, poly, 2 * (b * b), 10 * (b * b));
    Product(e, poly);
  }

  lemma Expand(b: nat, c: nat, p: nat, e: nat, u: nat)
    ensures (c * (b * b) + e) * (p * b + u) == (c * p) * Cubed(b) + (c * u) * (b * b) + e * (p * b + u)
  {
  }

  lemma Collect(b: nat, v: nat, w: nat)
    ensures (v * b + w) * Cubed(b) == v * Fourth(b) + w * Cubed(b)
  {
  }

  // ---------------------------------------------------------------- one call

  datatype Fade = Fade(start: int, end: int, steps: int, step: int, curve: Curve, error: int)
  {
    predicate Valid() {
      0 <= start <= UINT16_MAX && 0 <= end <= UINT16_MAX && 1 <= step <= steps <= INT_MAX && ErrorFits()
    }

    /** The carried fraction is less than one and never points away from the end. */
    predicate ErrorFits() {
      if start <= end then 0 <= error < BASE else -BASE < error <= 0
    }

    predicate Done() {
      step >= steps
    }

    /** Whether this call carries its fraction on: every one but the last before the end. */
    predicate Dithers() {
      steps - step > 1
    }
  }

  function Init(start: int, end: int, count: int, curve: Curve): Fade {
    var steps := if count <= 0 then 1 else count;
    Fade(start, end, steps, if start == end then steps else 1, curve, 0)
  }

  function Level(f: Fade): nat
    requires f.Valid()
  {
    CurveQ14(f.curve, Progress(f.step, f.steps))
  }

  /** The exact distance from the start, in Q14. */
  function Delta(f: Fade): int
    requires f.Valid()
  {
    (f.end - f.start) * Level(f)
  }

  /** The remainder operator of C: it takes the sign of its left operand. */
  function Remainder(n: int): int {
    if n >= 0 then n % BASE else -((-n) % BASE)
  }

  function Carry(e: int): int {
    if e >= BASE then 1 else if e <= -BASE then -1 else 0
  }

  /** The output before clamping: the shift rounds down. */
  function Raw(f: Fade): int
    requires f.Valid()
  {
    f.start + Delta(f) / BASE + if f.Dithers() then Carry(f.error + Remainder(Delta(f))) else 0
  }

  function Value(f: Fade): int
    requires f.Valid()
  {
    if f.Done() then f.end
    else if Raw(f) > 65535 then 65535
    else if Raw(f) < 0 then 0
    else Raw(f)
  }

  function Advance(f: Fade): Fade
    requires f.Valid()
  {
    if f.Done() then f
    else
      var e := f.error + Remainder(Delta(f));
      f.(step := f.step + 1, error := if f.Dithers() then e - Carry(e) * BASE else 0)
  }

  /** Before the end the exact distance lies strictly short of the whole way, and fits in 32 bits. */
  lemma DeltaShort(f: Fade)
    requires f.Valid() && !f.Done()
    ensures f.start < f.end ==> 0 <= Delta(f) < (f.end - f.start) * BASE
    ensures f.end < f.start ==> (f.end - f.start) * BASE < Delta(f) <= 0
    ensures -INT_MAX <= Delta(f) <= INT_MAX
  {
    ProgressBelow(f.step, f.steps);
    CurveBelow(f.curve, Progress(f.step, f.steps));
    ShortOf(f.end - f.start, Level(f));
  }

  lemma ShortOf(way: int, level: nat)
    requires level < BASE && -65535 <= way <= 65535
    ensures way > 0 ==> 0 <= way * level < way * BASE
    ensures way < 0 ==> way * BASE < way * level <= 0
    ensures -INT_MAX <= way * level <= INT_MAX
  {
    if way >= 0 {
      ProductMono(way, level, way, BASE - 1);
    } else {
      ProductMono(-way, level, -way, BASE - 1);
      assert way * level == -((-way) * level);
    }
  }

  /** A rising call stays between start and end, and what it rounds off it carries on. */
  lemma RisingCall(f: Fade)
    requires f.Valid() && !f.Done() && f.start <= f.end
    ensures f.start <= Raw(f) <= f.end && Value(f) == Raw(f) && Advance(f).Valid()
    ensures f.Dithers() ==> (Value(f) - f.start) * BASE + Advance(f).error == f.error + Delta(f)
  {
    hide Level;
    DeltaShort(f);
    var delta := Delta(f);
    assert f.start == f.end ==> delta == 0;
  }

  /** What one falling call loses: the shift rounds down while the remainder rounds towards zero. */
  function Loss(delta: int): nat {
    if delta < 0 && delta % BASE != 0 then 1 else 0
  }

  predicate Overshoots(f: Fade)
    requires f.Valid()
  {
    f.Dithers() && Delta(f) / BASE == f.end - f.start && f.error + Remainder(Delta(f)) <= -BASE
  }

  /** A falling call comes out one below the end exactly when it has already rounded down to the end and
      the carry is due; and each fraction costs it a whole unit of the exact sum. */
  lemma FallingCall(f: Fade)
    requires f.Valid() && !f.Done() && f.end < f.start
    ensures f.end - 1 <= Raw(f) <= f.start && Advance(f).Valid()
    ensures Raw(f) < f.end <==> Overshoots(f)
    ensures f.Dithers() ==> (Raw(f) - f.start) * BASE + Advance(f).error == f.error + Delta(f) - Loss(Delta(f)) * BASE
    ensures Raw(f) < 0 ==> f.error < 0 && Loss(Delta(f)) == 1
  {
    hide Level;
    DeltaShort(f);
    var delta := Delta(f);
    assert delta == -(-delta);
    Signs(delta);
  }

  lemma Signs(n: int)
    requires n <= 0
    ensures Remainder(n) == if n % BASE == 0 then 0 else n % BASE - BASE
  {
  }

  /** The last call before the end carries nothing in and nothing on: its output is the exact distance
      rounded down, so it never leaves the way, even when falling. */
  lemma LastCall(f: Fade)
    requires f.Valid() && f.step == f.steps - 1
    ensures (Value(f) - f.start) * BASE <= Delta(f) < (Value(f) - f.start + 1) * BASE
    ensures if f.start <= f.end then f.start <= Value(f) <= f.end else f.end <= Value(f) <= f.start
    ensures Advance(f).error == 0 && Value(Advance(f)) == f.end
  {
    hide Level;
    DeltaShort(f);
    assert f.start == f.end ==> Delta(f) == 0;
    if f.start <= f.end {
      RisingCall(f);
    } else {
      FallingCall(f);
    }
  }

  // ---------------------------------------------------------------- whole runs

  lemma CallKeepsValid(f: Fade)
    requires f.Valid()
    ensures Advance(f).Valid()
  {
    if !f.Done() {
      if f.start <= f.end { RisingCall(f); } else { FallingCall(f); }
    }
  }

  /** The state after `n` calls. */
  function After(f: Fade, n: nat): (g: Fade)
    requires f.Valid()
    ensures g.Valid() && g.start == f.start && g.end == f.end && g.steps == f.steps && g.curve == f.curve
    ensures g.step == if f.step + n < f.steps then f.step + n else f.steps
  {
    if n == 0 then f
    else
      CallKeepsValid(After(f, n - 1));
      Advance(After(f, n - 1))
  }

  /** The sum of the first `n` outputs, measured from the start. */
  function Sum(f: Fade, n: nat): int
    requires f.Valid()
  {
    if n == 0 then 0 else Sum(f, n - 1) + Value(After(f, n - 1)) - f.start
  }

  /** The exact sum of the curve over the same calls, in Q14. */
  function ExactSum(f: Fade, n: nat): int
    requires f.Valid()
  {
    if n == 0 then 0 else ExactSum(f, n - 1) + Delta(After(f, n - 1))
  }

  function Losses(f: Fade, n: nat): int
    requires f.Valid()
  {
    if n == 0 then 0 else Losses(f, n - 1) + Loss(Delta(After(f, n - 1)))
  }

  function Clamps(f: Fade, n: nat): int
    requires f.Valid()
  {
    if n == 0 then 0 else Clamps(f, n - 1) + if Raw(After(f, n - 1)) < 0 then 1 else 0
  }

  /** The accounting law of every fade: outputs and carried fraction make up the exact curve sum, less
      one unit for each falling fraction, plus one for each output the clamp lifted to zero. */
  lemma {:induction false} Accounting(f: Fade, n: nat)
    requires f.Valid() && f.step + n < f.steps
    ensures Sum(f, n) * BASE + After(f, n).error == ExactSum(f, n) + f.error - (Losses(f, n) - Clamps(f, n)) * BASE
    ensures f.start <= f.end ==> Losses(f, n) == Clamps(f, n) == 0
  {
    if n > 0 {
      hide Delta, Raw;
      Accounting(f, n - 1);
      var g := After(f, n - 1);
      if f.start <= f.end { RisingCall(g); RisingLosesNothing(g); } else { FallingCall(g); }
    }
  }

  lemma RisingLosesNothing(f: Fade)
    requires f.Valid() && !f.Done() && f.start <= f.end
    ensures Loss(Delta(f)) == 0
  {
    hide Level;
    DeltaShort(f);
    assert f.start == f.end ==> Delta(f) == 0;
  }

  /** The first falling fraction is never made good by the clamp, and no call makes good more than it loses. */
  lemma {:induction false} LossesOutweigh(f: Fade, n: nat)
    requires f.Valid() && f.step + n < f.steps && f.end < f.start && f.error == 0
    ensures Losses(f, n) == 0 ==> Clamps(f, n) == 0 && After(f, n).error == 0
    ensures Losses(f, n) > 0 ==> Clamps(f, n) < Losses(f, n)
    ensures Losses(f, n) >= 0
  {
    if n > 0 {
      hide Delta, Raw, Loss, Advance;
      LossesOutweigh(f, n - 1);
      var g := After(f, n - 1);
      FallingCall(g);
      if Loss(Delta(g)) == 0 && g.error == 0 { WholeStep(g); }
    }
  }

  lemma WholeStep(f: Fade)
    requires f.Valid() && f.Dithers() && f.end < f.start && f.error == 0 && Loss(Delta(f)) == 0
    ensures Advance(f).error == 0
  {
    hide Level;
    DeltaShort(f);
    Signs(Delta(f));
  }

  /** Whether the exact distance of call `k` is a whole number of units. */
  predicate WholeUnits(f: Fade, k: nat)
    requires f.Valid()
  {
    Delta(After(f, k)) % BASE == 0
  }

  lemma LossIff(f: Fade, k: nat)
    requires f.Valid() && f.step + k < f.steps && f.end < f.start
    ensures Loss(Delta(After(f, k))) == if WholeUnits(f, k) then 0 else 1
  {
    hide Delta;
    NeverRises(After(f, k));
  }

  lemma {:induction false} NoLossIff(f: Fade, n: nat)
    requires f.Valid() && f.step + n < f.steps && f.end < f.start
    ensures Losses(f, n) >= 0
    ensures Losses(f, n) == 0 <==> forall k :: 0 <= k < n ==> WholeUnits(f, k)
  {
    if n > 0 {
      hide Delta, WholeUnits, Loss;
      NoLossIff(f, n - 1);
      LossIff(f, n - 1);
    }
  }

  /** Until its last step a new fade conserves the exact sum if it rises, or if it falls through whole
      units only, and in no other case. */
  lemma ConservedIff(start: int, end: int, count: int, curve: Curve, n: nat)
    requires 0 <= start <= UINT16_MAX && 0 <= end <= UINT16_MAX && count <= INT_MAX && n + 1 < count
    ensures var f := Init(start, end, count, curve);
            Sum(f, n) * BASE + After(f, n).error == ExactSum(f, n) <==>
            start <= end || forall k :: 0 <= k < n ==> WholeUnits(f, k)
  {
    var f := Init(start, end, count, curve);
    if start == end {
      Still(f, n);
    } else {
      hide Delta, Sum, ExactSum, Losses, Clamps, After, WholeUnits;
      Accounting(f, n);
      if end < start {
        LossesOutweigh(f, n);
        NoLossIff(f, n);
      }
    }
  }

  lemma NeverRises(f: Fade)
    requires f.Valid() && !f.Done() && f.end < f.start
    ensures Delta(f) <= 0
  {
    DeltaShort(f);
  }

  /** A fade to its own start is over at once. */
  lemma {:induction false} Still(f: Fade, n: nat)
    requires f.Valid() && f.start == f.end && f.Done() && f.error == 0
    ensures After(f, n) == f && Sum(f, n) == ExactSum(f, n) == 0
  {
    if n > 0 {
      Still(f, n - 1);
    }
  }

  /** Every output of a rising fade lies between start and end, and the running sum is never a whole
      unit away from the exact one. */
  lemma RisingRun(start: int, end: int, count: int, curve: Curve, n: nat)
    requires 0 <= start <= end <= UINT16_MAX && count <= INT_MAX
    ensures var f := Init(start, end, count, curve);
            && start <= Value(After(f, n)) <= end
            && (n + 1 < count ==> 0 <= ExactSum(f, n) - Sum(f, n) * BASE < BASE)
  {
    var f := Init(start, end, count, curve);
    var g := After(f, n);
    hide Delta, Raw, Sum, ExactSum;
    if !g.Done() {
      RisingCall(g);
    }
    if n + 1 < count {
      ConservedIff(start, end, count, curve, n);
    }
  }

  /** A falling output is below the end exactly when the call overshoots; the clamp hides it only at zero. */
  lemma FallingRun(start: int, end: int, count: int, curve: Curve, n: nat)
    requires 0 <= end < start <= UINT16_MAX && count <= INT_MAX
    ensures var g := After(Init(start, end, count, curve), n);
            && (end <= Value(g) <= start <==> g.Done() || !Overshoots(g) || end == 0)
            && end - 1 <= Value(g)
  {
    var g := After(Init(start, end, count, curve), n);
    if !g.Done() {
      hide Delta, Raw;
      FallingCall(g);
    }
  }

  /** From 101 to 100 in five linear steps, the third output is 99. */
  lemma FallingOvershoots()
    ensures Value(After(Init(101, 100, 5, Linear), 2)) == 99
  {
    var f := Init(101, 100, 5, Linear);
    assert Delta(f) == -3276;
    var g := Advance(f);
    assert g == After(f, 1) && g.error == -3276 && Delta(g) == -6553;
    var h := Advance(g);
    assert h == After(f, 2) && h.error == -9829 && Delta(h) == -9830;
  }

  /** After one call fewer than the steps asked for, the output is the end for ever. */
  lemma EndIsKept(start: int, end: int, count: int, curve: Curve, n: nat)
    requires 0 <= start <= UINT16_MAX && 0 <= end <= UINT16_MAX && count <= INT_MAX
    requires n >= count - 1 || start == end
    ensures Value(After(Init(start, end, count, curve), n)) == end
  {
  }

  // ---------------------------------------------------------------- outputs against the polynomial

  /** The progress of a step, without wrap-around. */
  function ExactProgress(step: nat, steps: nat): (t: nat)
    requires steps > 0
  {
    QuotientNat(step * BASE, steps);
    step * BASE / steps
  }

  /** `way` times a curve value is `way` times the polynomial, rounded towards the start by at most 22
      units of Q14 a step. All of it is multiplied by `unit`. */
  predicate NearWay(way: int, delta: int, ideal: int, unit: int, n: nat) {
    if way >= 0 then way * ideal - 22 * n * (way * unit) <= delta * unit <= way * ideal
    else way * ideal <= delta * unit <= way * ideal - 22 * n * (way * unit)
  }

  lemma TimesWay(way: int, level: nat, ideal: int, unit: nat)
    requires level * unit <= ideal <= (level + 22) * unit
    ensures NearWay(way, way * level, ideal, unit, 1)
  {
    var rest: nat := ideal - level * unit;
    assert rest <= 22 * unit;
    assert way * ideal == way * (level * unit) + way * rest;
    assert way * (level * unit) == (way * level) * unit;
    if way >= 0 {
      Product(way, rest);
      ProductMono(way, rest, way, 22 * unit);
      assert way * (22 * unit) == 22 * (way * unit);
    } else {
      Product(-way, rest);
      ProductMono(-way, rest, -way, 22 * unit);
      assert (-way) * (22 * unit) == -(22 * (way * unit)) && way * rest == -((-way) * rest);
    }
  }

  /** The exact distance of a call is that of the polynomial of the fade's own curve at its own progress. */
  lemma DeltaNear(f: Fade)
    requires f.Valid() && !f.Done() && f.steps <= 262144
    ensures NearWay(f.end - f.start, Delta(f), Ideal(f.curve, ExactProgress(f.step, f.steps), BASE), Fourth(BASE), 1)
  {
    ExactBelow(f.step, f.steps);
    CurveClose(f.curve, ExactProgress(f.step, f.steps));
    hide CurveQ14, Ideal, Fourth;
    FourthPositive(BASE);
    TimesWay(f.end - f.start, Level(f), Ideal(f.curve, ExactProgress(f.step, f.steps), BASE), Fourth(BASE));
  }

  lemma ExactBelow(step: nat, steps: nat)
    requires step < steps <= 262144
    ensures Progress(step, steps) == ExactProgress(step, steps) < BASE
  {
    ProgressBelow(step, steps);
    assert step * BASE <= UINT32_MAX;
  }

  lemma FourthPositive(b: int)
    ensures Fourth(b) >= 0
  {
    assert (b * b) * (b * b) >= 0;
  }

  /** An output is less than one unit above its exact distance, two below it when falling and one when
      rising: the shift, the carry and the clamp together. */
  lemma ValueByDelta(f: Fade)
    requires f.Valid() && !f.Done()
    ensures var off := (Value(f) - f.start) * BASE - Delta(f);
            if f.start <= f.end then -BASE < off <= BASE else -2 * BASE < off <= 0
  {
    hide Level;
    DeltaShort(f);
    if f.start <= f.end {
      RisingCall(f);
    } else {
      FallingCall(f);
    }
  }

  /** Every output before the end against the polynomial, in units of 2^-70: off by the rounding of the curve,
      at most 22 / 16384 of the way, and by at most one unit when rising and two when falling. */
  lemma ValueNear(f: Fade)
    requires f.Valid() && !f.Done() && f.steps <= 262144
    ensures var way, ideal := f.end - f.start, Ideal(f.curve, ExactProgress(f.step, f.steps), BASE);
            var moved, unit := (Value(f) - f.start) * BASE, Fourth(BASE);
            if f.start <= f.end
            then way * ideal - 22 * (way * unit) - BASE * unit <= moved * unit <= way * ideal + BASE * unit
            else way * ideal - 2 * BASE * unit <= moved * unit <= way * ideal - 22 * (way * unit)
  {
    hide Ideal, Fourth, Value, Delta;
    ValueByDelta(f);
    DeltaNear(f);
    FourthPositive(BASE);
    Shifted((Value(f) - f.start) * BASE, Delta(f), Fourth(BASE));
  }

  lemma Shifted(moved: int, delta: int, unit: nat)
    ensures -BASE <= moved - delta ==> delta * unit - BASE * unit <= moved * unit
    ensures -2 * BASE <= moved - delta ==> delta * unit - 2 * BASE * unit <= moved * unit
    ensures moved - delta <= BASE ==> moved * unit <= delta * unit + BASE * unit
    ensures moved <= delta ==> moved * unit <= delta * unit
  {
    var off := moved - delta;
    assert moved * unit == delta * unit + off * unit;
    if off >= -BASE { Product(off + BASE, unit); }
    if off >= -2 * BASE { Product(off + 2 * BASE, unit); }
    if off <= BASE { Product(BASE - off, unit); }
    if off <= 0 { Product(-off, unit); }
  }

  /** The sum of the polynomial over the first `n` calls of a fade. */
  function IdealSum(f: Fade, n: nat): int
    requires f.Valid()
  {
    if n == 0 then 0 else IdealSum(f, n - 1) + Ideal(f.curve, ExactProgress(f.step + n - 1, f.steps), BASE)
  }

  /** The exact sum that the accounting law speaks of is that of the polynomial, up to the rounding of the
      curve. */
  lemma {:induction false} SumNear(f: Fade, n: nat)
    requires f.Valid() && f.step + n <= f.steps <= 262144
    ensures NearWay(f.end - f.start, ExactSum(f, n), IdealSum(f, n), Fourth(BASE), n)
  {
    if n > 0 {
      hide Ideal, Fourth, Delta, NearWay;
      SumNear(f, n - 1);
      DeltaNear(After(f, n - 1));
      NearMore(f.end - f.start, ExactSum(f, n - 1), IdealSum(f, n - 1), Delta(After(f, n - 1)),
               Ideal(f.curve, ExactProgress(f.step + n - 1, f.steps), BASE), Fourth(BASE), n - 1);
    } else {
      assert (f.end - f.start) * 0 == 0;
    }
  }

  lemma NearMore(way: int, delta: int, ideal: int, more: int, moreIdeal: int, unit: int, n: nat)
    requires NearWay(way, delta, ideal, unit, n) && NearWay(way, more, moreIdeal, unit, 1)
    ensures NearWay(way, delta + more, ideal + moreIdeal, unit, n + 1)
  {
    assert (delta + more) * unit == delta * unit + more * unit;
    assert way * (ideal + moreIdeal) == way * ideal + way * moreIdeal;
    assert 22 * (n + 1) * (way * unit) == 22 * n * (way * unit) + 22 * (way * unit);
  }

  /** The outputs of a rising fade together: within one unit, and the rounding of the curve, of the sum of
      the polynomial. */
  lemma RisingSumNear(start: int, end: int, count: int, curve: Curve, n: nat)
    requires 0 <= start <= end <= UINT16_MAX && n + 1 < count <= 262144
    ensures var f := Init(start, end, count, curve);
            var way, unit := end - start, Fourth(BASE);
            start < end ==>
              way * IdealSum(f, n) - 22 * n * (way * unit) - BASE * unit <= Sum(f, n) * BASE * unit
                <= way * IdealSum(f, n)
  {
    var f := Init(start, end, count, curve);
    if start < end {
      RisingRun(start, end, count, curve, n);
      SumNear(f, n);
      hide Ideal, Fourth, Sum, ExactSum, IdealSum;
      FourthPositive(BASE);
      Shifted(Sum(f, n) * BASE, ExactSum(f, n), Fourth(BASE));
    }
  }

  /** The outputs of a falling fade together, with the units it lost put back: within one unit, and the
      rounding of the curve, of the sum of the polynomial. */
  lemma FallingSumNear(start: int, end: int, count: int, curve: Curve, n: nat)
    requires 0 <= end < start <= UINT16_MAX && n + 1 < count <= 262144
    ensures var f := Init(start, end, count, curve);
            var way, unit := end - start, Fourth(BASE);
            var moved := (Sum(f, n) + Losses(f, n) - Clamps(f, n)) * BASE;
            way * IdealSum(f, n) <= moved * unit <= way * IdealSum(f, n) - 22 * n * (way * unit) + BASE * unit
  {
    var f := Init(start, end, count, curve);
    Accounting(f, n);
    SumNear(f, n);
    assert After(f, n).ErrorFits();
    hide Ideal, Fourth, Sum, ExactSum, IdealSum, Losses, Clamps;
    FourthPositive(BASE);
    var moved := (Sum(f, n) + Losses(f, n) - Clamps(f, n)) * BASE;
    assert 0 <= moved - ExactSum(f, n) < BASE;
    Shifted(moved, ExactSum(f, n), Fourth(BASE));
    Shifted(ExactSum(f, n), moved, Fourth(BASE));
  }

  /** From 0 to 1000 in four steps on the square curve the first output is 62, a sixteenth of the way. */
  lemma SquareStarts()
    ensures Value(Init(0, 1000, 4, Square)) == 62
  {
  }

  // ---------------------------------------------------------------- the stepper

  class Stepper {
    var start: int
    var end: int
    var steps: int
    var currentStep: int
    var curve: Curve
    var errorAcc: int

    ghost function View(): Fade
      reads this
    {
      Fade(start, end, steps, currentStep, curve, errorAcc)
    }

    constructor (start: int, end: int, count: int, curve: Curve)
      requires count <= INT_MAX
      ensures View() == Init(start, end, count, curve)
      ensures 0 <= start <= UINT16_MAX && 0 <= end <= UINT16_MAX ==> View().Valid()
    {
      this.start := start;
      this.end := end;
      steps := if count <= 0 then 1 else count;
      currentStep := 1;
      errorAcc := 0;
      if start == end {
        currentStep := if count <= 0 then 1 else count;
      }
      this.curve := curve;
    }

    /** qm_step_delta_get_next. */
    method GetNext() returns (value: int)
      requires View().Valid()
      modifies this
      ensures value == Value(old(View())) && View() == Advance(old(View())) && View().Valid()
    {
      hide CurveQ14, Progress;
      CallKeepsValid(View());
      if currentStep >= steps {
        return end;
      }
      var level := CurveQ14(curve, Progress(currentStep, steps));
      var delta := (end - start) * level;
      var whole := delta / BASE;
      if steps - currentStep > 1 {
        errorAcc := errorAcc + Remainder(delta);
        if errorAcc >= BASE {
          whole := whole + 1;
          errorAcc := errorAcc - BASE;
        } else if errorAcc <= -BASE {
          whole := whole - 1;
          errorAcc := errorAcc + BASE;
        }
      } else {
        errorAcc := 0;
      }
      currentStep := currentStep + 1;
      value := start + whole;
      if value > 65535 {
        value := 65535;
      }
      if value < 0 {
        value := 0;
      }
    }

    /** qm_step_delta_left_steps: the calls until the output is the end. */
    method LeftSteps() returns (left: nat)
      requires View().Valid()
      ensures forall n: nat :: After(View(), n).Done() <==> n >= left
    {
      left := if currentStep >= steps then 0 else steps - currentStep;
    }
  }
}
