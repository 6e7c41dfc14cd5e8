/** The MQTT client's connection machine: keep-alive probes, detection of a lost connection, and
    reconnection with back-off. One thread yields; what the network, the clock and the random
    generator do are arbitrary inputs. */
module MqttConnection {
  import opened Bytes

  const FAIL_RETURN: int := -1
  const PROBE_MAX: nat := 3
  const INTERVAL_MIN_MS: nat := 1000
  const INTERVAL_MAX_MS: nat := 60000

  datatype State = Invalid | Connected | Disconnected | Reconnecting

  /** What the application is told; a reconnect carries the result code, 0 for success. */
  datatype Event = Disconnect | Reconnect(code: int)

  /** A reconnection attempt scheduled `ms` ahead, after so many failed attempts. */
  datatype Delay = Delay(failures: nat, ms: nat)

  /** The fields the machine changes, then its history: events, scheduled delays, and the attempts
      failed since the connection was lost. */
  datatype View = View(state: State, probes: nat, interval: nat, events: seq<Event>, delays: seq<Delay>, failures: nat)

  datatype PingResult = Sent | NetworkError | PacketError

  /** Everything iot_mc_keepalive may meet: is a ping due and how does it go; is a reconnection due,
      does authentication succeed, what does connecting return, what is drawn; and does a handler,
      told of the new connection, break it again by a failing request. */
  datatype KeepaliveInput = KeepaliveInput(pingDue: bool, ping: PingResult, reconnectDue: bool, authenticated: bool,
                                           connect: int, random: nat, handlerBreaks: bool)

  datatype Read = ReadError | NoPacket | Packet

  datatype CycleInput = CycleInput(read: Read, handlerBreaks: bool)

  // ---------------------------------------------------------------- the steps as functions

  function PingIfDue(v: View, i: KeepaliveInput): View {
    if v.state != Connected || !i.pingDue then v
    else match i.ping
      case Sent => v.(probes := (v.probes + 1) % 256)
      case NetworkError => v.(state := Disconnected)
      case PacketError => v
  }

  /** The doubled interval after a failed attempt. */
  function NextInterval(interval: nat): nat {
    if INTERVAL_MAX_MS > interval then interval * 2 else INTERVAL_MAX_MS
  }

  /** The delay drawn from it, in 32-bit arithmetic. */
  function DrawnDelay(interval: nat, random: nat): nat {
    var ms := (interval + random) % (UINT32_MAX + 1);
    if INTERVAL_MAX_MS < ms then INTERVAL_MAX_MS else ms
  }

  function AttemptReconnect(v: View, i: KeepaliveInput): (View, int) {
    if !i.reconnectDue || !i.authenticated then (v, FAIL_RETURN)
    else if i.connect == 0 then (v.(state := Connected), 0)
    else
      var interval := NextInterval(v.interval);
      var failures := v.failures + 1;
      (v.(interval := interval, failures := failures,
          delays := v.delays + [Delay(failures, DrawnDelay(interval, i.random))]), i.connect)
  }

  function Keepalive(v: View, i: KeepaliveInput): View {
    var v := PingIfDue(v, i);
    match v.state
    case Reconnecting =>
      var (w, rc) := AttemptReconnect(v, i);
      if rc == FAIL_RETURN then w
      else if rc != 0 then w.(events := w.events + [Reconnect(rc)])
      else w.(events := w.events + [Reconnect(0)], interval := INTERVAL_MIN_MS, failures := 0,
              state := if i.handlerBreaks then Disconnected else Connected)
    case Disconnected =>
      v.(events := v.events + [Disconnect], interval := INTERVAL_MIN_MS, failures := 0,
         delays := v.delays + [Delay(0, INTERVAL_MIN_MS)], state := Reconnecting)
    case Invalid => v
    case Connected => v
  }

  /** Reading goes on even when the probes have just run out. */
  function Cycle(v: View, i: CycleInput): View {
    if v.state != Connected then v
    else
      var v := if PROBE_MAX < v.probes then v.(state := Disconnected, probes := 0) else v;
      match i.read
      case ReadError => v.(state := Disconnected)
      case NoPacket => v
      case Packet => Request(v.(probes := 0), i.handlerBreaks)
  }

  /** A publish, subscribe or unsubscribe: only attempted when connected, and a network error ends that. */
  function Request(v: View, fails: bool): View {
    if v.state == Connected && fails then v.(state := Disconnected) else v
  }

  // ---------------------------------------------------------------- the client object

  class MqttClient {
    var state: State
    var probes: nat
    var interval: nat
    ghost var events: seq<Event>
    ghost var delays: seq<Delay>
    ghost var failures: nat

    ghost function Now(): View
      reads this
    {
      View(state, probes, interval, events, delays, failures)
    }

    /** A client whose first connect has succeeded. */
    constructor ()
      ensures Now() == Constructed()
    {
      state, probes, interval, events, delays, failures := Connected, 0, INTERVAL_MIN_MS, [], [], 0;
    }

    /** iot_mc_keepalive_sub: one probe at most, and only the loss of a connection changes the state. */
    method KeepaliveSub(i: KeepaliveInput)
      modifies this
      ensures Now() == PingIfDue(old(Now()), i)
      ensures Inv(old(Now())) ==> probes == old(probes) + if PingSent(old(Now()), i) then 1 else 0
      ensures state == if PingBreaks(old(Now()), i) then Disconnected else old(state)
      ensures Inv(old(Now())) ==> Inv(Now().(probes := 0)) && probes <= PROBE_MAX + 1
    {
      if Inv(old(Now())) {
        PingKeeps(Now(), i);
      }
      if state != Connected || !i.pingDue {
        return;
      }
      match i.ping
      case NetworkError => state := Disconnected;
      case PacketError =>
      case Sent => probes := (probes + 1) % 256;
    }

    /** iot_mc_handle_reconnect: zero exactly for a connection, and otherwise the delays stay good and the
        interval that of the failures so far. */
    method HandleReconnect(i: KeepaliveInput) returns (rc: int)
      modifies this
      ensures (Now(), rc) == AttemptReconnect(old(Now()), i)
      ensures rc == 0 <==> Connects(i)
      ensures state == if Connects(i) then Connected else old(state)
      ensures Inv(old(Now())) && DrawFits(old(Now()), i) && rc != 0 ==>
                Inv(Now()) && |delays| <= |old(delays)| + 1 && interval <= 64000
    {
      if Inv(old(Now())) && DrawFits(old(Now()), i) {
        AttemptKeeps(Now(), i);
        BackoffValues(AttemptReconnect(Now(), i).0.failures);
      }
      if !i.reconnectDue {
        return FAIL_RETURN;
      }
      if !i.authenticated {
        return -1;
      }
      if i.connect == 0 {
        state := Connected;
        return 0;
      }
      if INTERVAL_MAX_MS > interval {
        interval := interval * 2;
      } else {
        interval := INTERVAL_MAX_MS;
      }
      var ms := (interval + i.random) % (UINT32_MAX + 1);
      if INTERVAL_MAX_MS < ms {
        ms := INTERVAL_MAX_MS;
      }
      failures := failures + 1;
      delays := delays + [Delay(failures, ms)];
      return i.connect;
    }

    /** iot_mc_keepalive: whatever the network does, the invariant is kept but for one probe too many, which
        is noticed in the same turn. */
    method KeepAlive(i: KeepaliveInput)
      modifies this
      ensures Now() == Keepalive(old(Now()), i)
      ensures Inv(old(Now())) && DrawFits(old(Now()), i) ==>
                Inv(Now().(probes := 0)) && probes <= PROBE_MAX + 1 && (probes > PROBE_MAX ==> state == Connected)
    {
      hide Inv, DrawFits;
      if Inv(old(Now())) && DrawFits(old(Now()), i) {
        KeepaliveKeeps(Now(), i);
      }
      KeepaliveSub(i);
      if state == Reconnecting {
        var rc := HandleReconnect(i);
        if rc != 0 {
          if rc != FAIL_RETURN {
            events := events + [Reconnect(rc)];
          }
        } else {
          events := events + [Reconnect(0)];
          state := if i.handlerBreaks then Disconnected else Connected;
          interval, failures := INTERVAL_MIN_MS, 0;
        }
      } else if state == Disconnected {
        events := events + [Disconnect];
        interval, failures := INTERVAL_MIN_MS, 0;
        delays := delays + [Delay(0, interval)];
        state := Reconnecting;
      }
    }

    /** iot_mc_cycle: it restores the limit on probes, and can only lose the connection. */
    method CycleOnce(i: CycleInput)
      modifies this
      ensures Now() == Cycle(old(Now()), i)
      ensures Inv(old(Now()).(probes := 0)) && (old(probes) > PROBE_MAX ==> old(state) == Connected) ==> Inv(Now())
      ensures old(state) == Connected && old(probes) > PROBE_MAX ==> state == Disconnected && probes == 0
      ensures state != old(state) ==> old(state) == Connected && state == Disconnected
    {
      if state != Connected {
        return;
      }
      if PROBE_MAX < probes {
        state := Disconnected;
        probes := 0;
      }
      if i.read == ReadError {
        state := Disconnected;
        return;
      }
      if i.read == NoPacket {
        return;
      }
      probes := 0;
      if state == Connected && i.handlerBreaks {
        state := Disconnected;
      }
    }
  }

  // ---------------------------------------------------------------- runs

  function Constructed(): View {
    View(Connected, 0, INTERVAL_MIN_MS, [], [], 0)
  }

  /** One turn of iot_mqtt_client_yield, a request of the application, or the release of the client. */
  datatype Step = Yield(keepalive: KeepaliveInput, cycle: CycleInput) | Ask(fails: bool) | Release

  function Apply(v: View, step: Step): View {
    match step
    case Yield(k, c) => Cycle(Keepalive(v, k), c)
    case Ask(fails) => Request(v, fails)
    case Release => v.(state := Invalid)
  }

  /** A random draw stays in the range asked for. */
  predicate DrawFits(v: View, i: KeepaliveInput) {
    i.random <= NextInterval(v.interval)
  }

  predicate Possible(v: View, step: Step) {
    step.Yield? ==> DrawFits(v, step.keepalive)
  }

  predicate PossibleRun(v: View, run: seq<Step>)
    decreases |run|
  {
    run == [] || (Possible(v, run[0]) && PossibleRun(Apply(v, run[0]), run[1..]))
  }

  function After(v: View, run: seq<Step>): View
    decreases |run|
  {
    if run == [] then v else After(Apply(v, run[0]), run[1..])
  }

  /** The events that end or restore a connection. */
  function Turns(events: seq<Event>): seq<Event> {
    if events == [] then []
    else
      var last := events[|events| - 1];
      Turns(events[..|events| - 1]) + if last == Disconnect || last == Reconnect(0) then [last] else []
  }

  predicate Alternate(turns: seq<Event>) {
    forall i :: 0 <= i < |turns| ==> turns[i] == if i % 2 == 0 then Disconnect else Reconnect(0)
  }

  /** The interval after a number of failed attempts in a row. */
  function Backoff(failures: nat): nat {
    if failures == 0 then INTERVAL_MIN_MS else NextInterval(Backoff(failures - 1))
  }

  function Power2(k: nat): nat {
    if k == 0 then 1 else 2 * Power2(k - 1)
  }

  function Capped(ms: nat): nat {
    if ms > INTERVAL_MAX_MS then INTERVAL_MAX_MS else ms
  }

  /** After `k` failures in a row the delay lies between 2^k seconds and twice that, both at most a minute;
      the first attempt after a loss comes after one second. */
  predicate GoodDelay(d: Delay) {
    if d.failures == 0 then d.ms == INTERVAL_MIN_MS
    else if d.failures <= 6 then
      Capped(INTERVAL_MIN_MS * Power2(d.failures)) <= d.ms <= Capped(2 * INTERVAL_MIN_MS * Power2(d.failures))
    else d.ms == INTERVAL_MAX_MS
  }

  /** What that means for the wait alone. */
  lemma DelayBounds(d: Delay)
    requires GoodDelay(d)
    ensures INTERVAL_MIN_MS <= d.ms <= INTERVAL_MAX_MS && (d.failures >= 6 ==> d.ms == INTERVAL_MAX_MS)
  {
    if 0 < d.failures <= 6 {
      Powers2(d.failures);
    }
  }

  lemma Powers2(k: nat)
    requires k <= 6
    ensures Power2(k) == [1, 2, 4, 8, 16, 32, 64][k]
  {
    assert Power2(1) == 2 && Power2(2) == 4 && Power2(3) == 8;
    assert Power2(4) == 16 && Power2(5) == 32 && Power2(6) == 64;
  }

  predicate Inv(v: View) {
    && Alternate(Turns(v.events))
    && (v.state == Reconnecting ==> |Turns(v.events)| % 2 == 1)
    && (v.state == Connected || v.state == Disconnected ==> |Turns(v.events)| % 2 == 0)
    && v.probes <= PROBE_MAX
    && v.interval == Backoff(v.failures)
    && forall i :: 0 <= i < |v.delays| ==> GoodDelay(v.delays[i])
  }

  lemma TurnsMore(events: seq<Event>, e: Event)
    ensures Turns(events + [e]) == Turns(events) + if e == Disconnect || e == Reconnect(0) then [e] else []
  {
    assert (events + [e])[..|events|] == events;
  }

  /** 1, 2, 4, 8, 16, 32, 64 seconds, then 60 for good. */
  lemma {:induction false} BackoffValues(k: nat)
    ensures k <= 6 ==> Backoff(k) == INTERVAL_MIN_MS * Power2(k)
    ensures INTERVAL_MIN_MS <= Backoff(k) <= 64000
    ensures k >= 6 ==> Backoff(k) >= INTERVAL_MAX_MS
    ensures k >= 7 ==> Backoff(k) == INTERVAL_MAX_MS
  {
    if k > 7 {
      BackoffValues(k - 1);
    } else {
      if k <= 6 {
        Powers2(k);
      }
      assert Backoff(0) == 1000 && Backoff(1) == 2000 && Backoff(2) == 4000 && Backoff(3) == 8000;
      assert Backoff(4) == 16000 && Backoff(5) == 32000 && Backoff(6) == 64000 && Backoff(7) == 60000;
    }
  }

  lemma DelayIsGood(failures: nat, random: nat)
    requires failures > 0 && random <= Backoff(failures)
    ensures GoodDelay(Delay(failures, DrawnDelay(Backoff(failures), random)))
  {
    hide Backoff;
    BackoffValues(failures);
    if failures <= 6 {
      Powers2(failures);
    }
    var sum := Backoff(failures) + random;
    assert sum % (UINT32_MAX + 1) == sum;
  }

  lemma BackoffStep(k: nat)
    ensures Backoff(0) == INTERVAL_MIN_MS && Backoff(k + 1) == NextInterval(Backoff(k))
  {
  }

  lemma PingKeeps(v: View, k: KeepaliveInput)
    requires Inv(v)
    ensures var w := PingIfDue(v, k); Inv(w.(probes := 0)) && v.probes <= w.probes <= PROBE_MAX + 1
  {
  }

  /** An attempt that does not connect keeps the invariant. */
  lemma AttemptKeeps(v: View, k: KeepaliveInput)
    requires Inv(v) && DrawFits(v, k)
    ensures AttemptReconnect(v, k).1 != 0 ==> Inv(AttemptReconnect(v, k).0)
  {
    hide Turns, Backoff, DrawnDelay, NextInterval, GoodDelay;
    BackoffStep(v.failures);
    DelayIsGood(v.failures + 1, k.random);
  }

  /** Keep-alive may raise the probe count to 4, once, and only in the connected state. */
  lemma KeepaliveKeeps(v: View, k: KeepaliveInput)
    requires Inv(v) && DrawFits(v, k)
    ensures var w := Keepalive(v, k);
            && Inv(w.(probes := 0)) && w.probes <= PROBE_MAX + 1
            && (w.probes == PROBE_MAX + 1 ==> w.state == Connected)
  {
    hide Turns, Backoff, DrawnDelay, NextInterval;
    BackoffStep(v.failures);
    TurnsMore(v.events, Disconnect);
    TurnsMore(v.events, Reconnect(0));
    TurnsMore(v.events, Reconnect(k.connect));
    DelayIsGood(v.failures + 1, k.random);
  }

  lemma StepKeepsInv(v: View, step: Step)
    requires Inv(v) && Possible(v, step)
    ensures Inv(Apply(v, step))
  {
    if step.Yield? {
      KeepaliveKeeps(v, step.keepalive);
    }
  }

  /** In every run: lost and restored connections alternate, starting with a loss; probes stay within
      the limit between turns; every scheduled delay lies between one second and one minute, and from
      the sixth failed attempt in a row on it is exactly one minute. */
  lemma {:induction false} RunKeepsInv(v: View, run: seq<Step>)
    requires Inv(v) && PossibleRun(v, run)
    ensures Inv(After(v, run))
    decreases |run|
  {
    hide Inv, Apply;
    if run != [] {
      StepKeepsInv(v, run[0]);
      RunKeepsInv(Apply(v, run[0]), run[1..]);
    }
  }

  lemma ConstructedInv()
    ensures Inv(Constructed())
  {
  }

  /** The properties of a whole run, spelled out. */
  lemma EveryRun(run: seq<Step>)
    requires PossibleRun(Constructed(), run)
    ensures var v := After(Constructed(), run);
            && Alternate(Turns(v.events))
            && v.probes <= PROBE_MAX && v.interval <= 64000
            && forall i :: 0 <= i < |v.delays| ==>
                 GoodDelay(v.delays[i]) && INTERVAL_MIN_MS <= v.delays[i].ms <= INTERVAL_MAX_MS
  {
    ConstructedInv();
    RunKeepsInv(Constructed(), run);
    var v := After(Constructed(), run);
    BackoffValues(v.failures);
    forall i | 0 <= i < |v.delays|
      ensures GoodDelay(v.delays[i]) && INTERVAL_MIN_MS <= v.delays[i].ms <= INTERVAL_MAX_MS
    {
      DelayBounds(v.delays[i]);
    }
  }

  // ---------------------------------------------------------------- what a turn does

  /** A ping is sent in this turn. */
  predicate PingSent(v: View, k: KeepaliveInput) {
    v.state == Connected && k.pingDue && k.ping == Sent
  }

  /** A ping finds the network broken. */
  predicate PingBreaks(v: View, k: KeepaliveInput) {
    v.state == Connected && k.pingDue && k.ping == NetworkError
  }

  /** An attempt to reconnect is made: it is time, and authentication succeeds. */
  predicate Attempts(k: KeepaliveInput) {
    k.reconnectDue && k.authenticated
  }

  predicate Connects(k: KeepaliveInput) {
    Attempts(k) && k.connect == 0
  }

  /** A loss is reported in this turn. */
  predicate Reports(v: View, k: KeepaliveInput) {
    v.state == Disconnected || PingBreaks(v, k)
  }

  /** The connection is up when the turn comes to reading: it was and the ping did not break it, or it has
      just been restored and the handler told of it did not break it. */
  predicate Live(v: View, k: KeepaliveInput) {
    || (v.state == Connected && !PingBreaks(v, k))
    || (v.state == Reconnecting && Connects(k) && !k.handlerBreaks)
  }

  /** Pings not answered, with the one of this turn. */
  function Unanswered(v: View, k: KeepaliveInput): nat {
    v.probes + if PingSent(v, k) then 1 else 0
  }

  /** A live connection is lost in this turn. */
  predicate Lost(v: View, k: KeepaliveInput, c: CycleInput) {
    Unanswered(v, k) > PROBE_MAX || c.read == ReadError || (c.read == Packet && c.handlerBreaks)
  }

  /** The whole of a turn, output by output: the count of unanswered pings, the state, the events and the
      attempts scheduled. */
  lemma TurnIs(v: View, k: KeepaliveInput, c: CycleInput)
    requires v.probes <= PROBE_MAX
    ensures var w := Apply(v, Yield(k, c));
            && w.probes == (if Live(v, k) && (c.read == Packet || Unanswered(v, k) > PROBE_MAX) then 0
                            else Unanswered(v, k))
            && w.state == (if Live(v, k) then (if Lost(v, k, c) then Disconnected else Connected)
                           else if Reports(v, k) then Reconnecting
                           else if v.state == Reconnecting && Connects(k) then Disconnected
                           else v.state)
  {
  }

  lemma TurnReports(v: View, k: KeepaliveInput, c: CycleInput)
    ensures var w := Apply(v, Yield(k, c));
            && w.events == v.events + (if Reports(v, k) then [Disconnect]
                                       else if v.state == Reconnecting && Attempts(k) && k.connect != FAIL_RETURN
                                       then [Reconnect(k.connect)] else [])
            && |w.delays| == |v.delays| + (if Reports(v, k) then 1
                                           else if v.state == Reconnecting && Attempts(k) && k.connect != 0 then 1
                                           else 0)
            && v.delays <= w.delays
            && (w.delays != v.delays ==>
                  w.delays[|v.delays|].failures == if Reports(v, k) then 0 else v.failures + 1)
            && w.failures == (if Reports(v, k) || (v.state == Reconnecting && Connects(k)) then 0
                              else if v.state == Reconnecting && Attempts(k) then v.failures + 1 else v.failures)
  {
    assert v.events + [] == v.events;
    hide DrawnDelay, NextInterval;
  }

  /** The wait after a failed attempt: the interval of the failures so far plus what was drawn, at most a
      minute. */
  lemma DelayIs(v: View, k: KeepaliveInput, c: CycleInput)
    requires Inv(v) && DrawFits(v, k) && v.state == Reconnecting && Attempts(k) && k.connect != 0
    ensures var next := v.failures + 1;
            Apply(v, Yield(k, c)).delays == v.delays + [Delay(next, Capped(Backoff(next) + k.random))]
  {
    hide Backoff, Turns, GoodDelay;
    BackoffStep(v.failures);
    BackoffValues(v.failures + 1);
    var sum := Backoff(v.failures + 1) + k.random;
    assert sum % (UINT32_MAX + 1) == sum;
  }

  /** A request loses the connection exactly when it fails on a live one, and does nothing else. */
  lemma RequestIs(v: View, fails: bool)
    ensures Apply(v, Ask(fails)) == v.(state := if v.state == Connected && fails then Disconnected else v.state)
  {
  }

  /** The reconnecting state is left exactly by a successful connect, which is then the last turn
      reported, or by release. */
  lemma ReconnectingIsLeft(v: View, step: Step)
    requires Inv(v) && v.state == Reconnecting
    ensures Apply(v, step).state != Reconnecting <==> step.Release? || (step.Yield? && Connects(step.keepalive))
    ensures step.Yield? && Connects(step.keepalive) ==> Apply(v, step).events == v.events + [Reconnect(0)]
  {
    if step.Yield? {
      TurnIs(v, step.keepalive, step.cycle);
      TurnReports(v, step.keepalive, step.cycle);
    }
  }

  // ---------------------------------------------------------------- silent peers and answering ones

  /** Nothing goes wrong but that packets may fail to come: no error of the network or of a handler. */
  predicate Calm(step: Step) {
    match step
    case Yield(k, c) =>
      !(k.pingDue && k.ping == NetworkError) && c.read != ReadError && !(c.read == Packet && c.handlerBreaks)
    case Ask(fails) => !fails
    case Release => false
  }

  function Pings(step: Step): nat {
    if step.Yield? && step.keepalive.pingDue && step.keepalive.ping == Sent then 1 else 0
  }

  /** The pings unanswered after a calm run that started with `n`: a packet answers all of them. */
  function Open(n: nat, run: seq<Step>): nat
    decreases |run|
  {
    if run == [] then n
    else Open(if run[0].Yield? && run[0].cycle.read == Packet then 0 else n + Pings(run[0]), run[1..])
  }

  /** Never more than three at a time, counting each ping before the packets of its own turn. */
  predicate Tolerated(n: nat, run: seq<Step>)
    decreases |run|
  {
    run == [] ||
    (n + Pings(run[0]) <= PROBE_MAX &&
     Tolerated(if run[0].Yield? && run[0].cycle.read == Packet then 0 else n + Pings(run[0]), run[1..]))
  }

  ghost predicate StaysConnected(v: View, run: seq<Step>) {
    forall j :: 0 <= j <= |run| ==> After(v, run[..j]).state == Connected
  }

  /** A connection on which nothing breaks stays up exactly as long as no fourth ping goes unanswered, and
      the count is that of the unanswered pings. */
  lemma {:induction false} StaysConnectedIff(v: View, run: seq<Step>)
    requires v.state == Connected && v.probes <= PROBE_MAX && forall i :: 0 <= i < |run| ==> Calm(run[i])
    ensures StaysConnected(v, run) <==> Tolerated(v.probes, run)
    ensures Tolerated(v.probes, run) ==>
              After(v, run).probes == Open(v.probes, run) && After(v, run).events == v.events
    decreases |run|
  {
    hide Apply;
    if run == [] {
      assert run[..0] == [];
    } else {
      var step, rest := run[0], run[1..];
      var w := Apply(v, step);
      CalmStep(v, step);
      StaysUnfold(v, run);
      if w.state == Connected {
        StaysConnectedIff(w, rest);
      } else {
        assert rest[..0] == [];
      }
    }
  }

  lemma CalmStep(v: View, step: Step)
    requires v.state == Connected && v.probes <= PROBE_MAX && Calm(step)
    ensures var w := Apply(v, step);
            && (w.state == Connected <==> v.probes + Pings(step) <= PROBE_MAX)
            && w.state in {Connected, Disconnected} && w.events == v.events && w.probes <= PROBE_MAX
            && (w.state == Connected ==>
                  w.probes == if step.Yield? && step.cycle.read == Packet then 0 else v.probes + Pings(step))
  {
    if step.Yield? {
      TurnIs(v, step.keepalive, step.cycle);
      TurnReports(v, step.keepalive, step.cycle);
    }
  }

  lemma StaysUnfold(v: View, run: seq<Step>)
    requires run != []
    ensures StaysConnected(v, run) <==> v.state == Connected && StaysConnected(Apply(v, run[0]), run[1..])
  {
    hide Apply;
    assert run[..0] == [];
    forall j | 0 < j <= |run| ensures After(v, run[..j]) == After(Apply(v, run[0]), run[1..][..j - 1]) {
      assert run[..j][0] == run[0] && run[..j][1..] == run[1..][..j - 1];
    }
    forall i | 0 <= i <= |run[1..]| ensures After(v, run[..i + 1]) == After(Apply(v, run[0]), run[1..][..i]) {
    }
  }

  /** A peer that answers every turn is never dropped, however many pings it takes. */
  lemma {:induction false} AnsweringPeer(v: View, run: seq<Step>)
    requires v.state == Connected && v.probes < PROBE_MAX
    requires forall i :: 0 <= i < |run| ==> Calm(run[i]) && (run[i].Yield? ==> run[i].cycle.read == Packet)
    ensures StaysConnected(v, run)
  {
    AnsweredIsTolerated(v.probes, run);
    StaysConnectedIff(v, run);
  }

  lemma {:induction false} AnsweredIsTolerated(n: nat, run: seq<Step>)
    requires n < PROBE_MAX
    requires forall i :: 0 <= i < |run| ==> Calm(run[i]) && (run[i].Yield? ==> run[i].cycle.read == Packet)
    ensures Tolerated(n, run)
    decreases |run|
  {
    if run != [] {
      AnsweredIsTolerated(if run[0].Yield? then 0 else n, run[1..]);
    }
  }

  /** A silent peer is noticed: with `k` pings open, the turn that sends the (4 - k)-th more finds the
      connection lost, and the next turn reports it. */
  lemma {:induction false} SilentPeer(v: View, run: seq<Step>, next: Step)
    requires v.state == Connected && v.probes <= 3 && |run| == 4 - v.probes && next.Yield?
    requires forall i :: 0 <= i < |run| ==> Calm(run[i]) && Pings(run[i]) == 1 && run[i].cycle.read == NoPacket
    ensures After(v, run).state == Disconnected && After(v, run).probes == 0 && After(v, run).events == v.events
    ensures Apply(After(v, run), next).state == Reconnecting
    ensures Apply(After(v, run), next).events == v.events + [Disconnect]
    decreases |run|
  {
    hide Apply;
    var step, w := run[0], Apply(v, run[0]);
    CalmStep(v, step);
    TurnIs(v, step.keepalive, step.cycle);
    if v.probes == PROBE_MAX {
      assert run[1..] == [];
      TurnIs(w, next.keepalive, next.cycle);
      TurnReports(w, next.keepalive, next.cycle);
    } else {
      SilentPeer(w, run[1..], next);
    }
  }

  /** A step sends a ping, or sets the count back: a packet is read, or a fourth ping went unanswered. */
  predicate Sends(v: View, step: Step) {
    step.Yield? && PingSent(v, step.keepalive)
  }

  predicate Clears(v: View, step: Step) {
    && step.Yield? && Live(v, step.keepalive)
    && (step.cycle.read == Packet || Unanswered(v, step.keepalive) > 3)
  }

  function SentIn(v: View, run: seq<Step>): nat
    decreases |run|
  {
    if run == [] then 0 else (if Sends(v, run[0]) then 1 else 0) + SentIn(Apply(v, run[0]), run[1..])
  }

  predicate NeverClears(v: View, run: seq<Step>)
    decreases |run|
  {
    run == [] || (!Clears(v, run[0]) && NeverClears(Apply(v, run[0]), run[1..]))
  }

  lemma CountStep(v: View, step: Step)
    requires v.probes <= PROBE_MAX
    ensures Apply(v, step).probes == if Clears(v, step) then 0 else v.probes + if Sends(v, step) then 1 else 0
    ensures Apply(v, step).probes <= PROBE_MAX
  {
    if step.Yield? {
      TurnIs(v, step.keepalive, step.cycle);
    }
  }

  lemma {:induction false} CountRun(v: View, run: seq<Step>)
    requires v.probes <= PROBE_MAX
    ensures After(v, run).probes <= PROBE_MAX
    ensures NeverClears(v, run) ==> After(v, run).probes == v.probes + SentIn(v, run)
    decreases |run|
  {
    hide Apply, Clears, Sends;
    if run != [] {
      CountStep(v, run[0]);
      CountRun(Apply(v, run[0]), run[1..]);
    }
  }

  /** The count in every run, losses, reconnects and releases included: the pings sent since the last step
      that set it back. */
  lemma ProbesAre(v: View, before: seq<Step>, step: Step, since: seq<Step>)
    requires v.probes <= PROBE_MAX && Clears(After(v, before), step)
    requires NeverClears(Apply(After(v, before), step), since)
    ensures After(v, before + [step] + since).probes == SentIn(Apply(After(v, before), step), since)
  {
    hide Apply, Clears, Sends;
    var u := After(v, before);
    CountRun(v, before);
    CountStep(u, step);
    CountRun(Apply(u, step), since);
    AfterSum(v, before, [step] + since);
    AfterFirst(u, [step] + since);
    assert before + [step] + since == before + ([step] + since) && ([step] + since)[1..] == since;
  }

  lemma {:induction false} AfterSum(v: View, a: seq<Step>, b: seq<Step>)
    ensures After(v, a + b) == After(After(v, a), b)
    decreases |a|
  {
    if a == [] {
      assert a + b == b;
    } else {
      AfterSum(Apply(v, a[0]), a[1..], b);
      assert (a + b)[0] == a[0] && (a + b)[1..] == a[1..] + b;
    }
  }

  /** A turn in which the connection is lost leaves no pings counted exactly when there were none, a packet
      was read in it, or the fourth ping is why it was lost. */
  lemma LossResetsIff(v: View, k: KeepaliveInput, c: CycleInput)
    requires v.state == Connected && v.probes <= PROBE_MAX && Apply(v, Yield(k, c)).state != Connected
    ensures Apply(v, Yield(k, c)).probes == 0 <==>
            Unanswered(v, k) == 0 || (!PingBreaks(v, k) && (c.read == Packet || Unanswered(v, k) == 4))
  {
    TurnIs(v, k, c);
  }

  /** The count outlives the connection it was made on: three unanswered pings, a read error, a successful
      reconnect, and the very first ping of the new connection ends it. */
  lemma NewConnectionInheritsProbes(v: View, read: Step, lost: Step, back: Step, ping: Step)
    requires v.state == Connected && v.probes == PROBE_MAX
    requires read.Yield? && !read.keepalive.pingDue && read.cycle.read == ReadError && lost.Yield?
    requires back.Yield? && Connects(back.keepalive) && !back.keepalive.handlerBreaks && back.cycle.read == NoPacket
    requires ping.Yield? && Pings(ping) == 1 && ping.cycle.read == NoPacket
    ensures After(v, [read, lost, back]).state == Connected && After(v, [read, lost, back, ping]).state == Disconnected
  {
    var v1 := Apply(v, read);
    TurnIs(v, read.keepalive, read.cycle);
    var v2 := Apply(v1, lost);
    TurnIs(v1, lost.keepalive, lost.cycle);
    var v3 := Apply(v2, back);
    TurnIs(v2, back.keepalive, back.cycle);
    TurnIs(v3, ping.keepalive, ping.cycle);
    hide Apply;
    AfterFirst(v, [read, lost, back]);
    AfterFirst(v1, [lost, back]);
    AfterFirst(v2, [back]);
    AfterFirst(v, [read, lost, back, ping]);
    AfterFirst(v1, [lost, back, ping]);
    AfterFirst(v2, [back, ping]);
    AfterFirst(v3, [ping]);
    assert [read, lost, back][1..] == [lost, back] && [lost, back][1..] == [back] && [back][1..] == [];
    assert [read, lost, back, ping][1..] == [lost, back, ping] && [lost, back, ping][1..] == [back, ping];
    assert [back, ping][1..] == [ping] && [ping][1..] == [];
    hide After;
  }

  lemma AfterFirst(v: View, run: seq<Step>)
    requires run != []
    ensures After(v, run) == After(Apply(v, run[0]), run[1..])
  {
  }

  // ---------------------------------------------------------------- one outage

  /** A step that leaves the client without a connection: an attempt that fails, or none. */
  predicate Fruitless(step: Step) {
    step.Ask? || (step.Yield? && !Connects(step.keepalive))
  }

  function Tries(run: seq<Step>): nat
    decreases |run|
  {
    if run == [] then 0 else (if run[0].Yield? && Attempts(run[0].keepalive) then 1 else 0) + Tries(run[1..])
  }

  /** While attempts fail, each schedules the next one, numbered from the loss on, and the interval is that
      of the failures so far; turns without an attempt schedule nothing. */
  lemma {:induction false} Outage(v: View, run: seq<Step>)
    requires Inv(v) && v.state == Reconnecting && PossibleRun(v, run)
    requires forall i :: 0 <= i < |run| ==> Fruitless(run[i])
    ensures var w := After(v, run);
            && w.state == Reconnecting && |w.delays| == |v.delays| + Tries(run) && v.delays <= w.delays
            && (forall i :: |v.delays| <= i < |w.delays| ==>
                  w.delays[i].failures == v.failures + 1 + i - |v.delays|)
            && w.failures == v.failures + Tries(run) && w.interval == Backoff(v.failures + Tries(run))
    decreases |run|
  {
    hide Apply, Backoff;
    if run != [] {
      var step, w := run[0], Apply(v, run[0]);
      StepKeepsInv(v, step);
      if step.Yield? {
        TurnIs(v, step.keepalive, step.cycle);
        TurnReports(v, step.keepalive, step.cycle);
      } else {
        RequestIs(v, step.fails);
      }
      Outage(w, run[1..]);
    }
  }

  /** Whatever requests the application makes first, the next turn reports a lost connection, once, and
      goes to reconnecting. */
  lemma {:induction false} LossIsReported(v: View, asks: seq<Step>, k: KeepaliveInput, c: CycleInput)
    requires v.state == Disconnected && forall i :: 0 <= i < |asks| ==> asks[i].Ask?
    ensures var w := After(v, asks + [Yield(k, c)]);
            w.state == Reconnecting && w.events == v.events + [Disconnect]
    decreases |asks|
  {
    var run := asks + [Yield(k, c)];
    if asks == [] {
      assert run == [Yield(k, c)] && run[1..] == [];
    } else {
      assert run[0] == asks[0] && asks[0].Ask? && run[1..] == asks[1..] + [Yield(k, c)];
      LossIsReported(v, asks[1..], k, c);
    }
  }
}
