/** The static event bus: two rings carved from one buffer, one for normal and one for emergency
    events, drained by peeking at an event, calling every handler that matches it, and dropping it. */
module EventBus {
  import opened Bytes
  import opened VarRing
  import opened Wrappers

  const QM_ENOENT: int := 12
  const ALL_EVENT: byte := 0xFF

  /** A row of the event table; the terminating row with module id 0 is not part of the sequence. */
  datatype Row = Row(moduleId: byte, eventId: byte)

  predicate IsEmergency(eventId: byte) {
    eventId >= 128
  }

  /** A row wants an event: same module, and any event or the same 7-bit event number. */
  predicate Matches(row: Row, moduleId: byte, eventId: byte) {
    row.moduleId == moduleId && (row.eventId == ALL_EVENT || row.eventId % 128 == eventId % 128)
  }

  /** The top bit of an event id marks an emergency and is not looked at when handlers are found: a row
      serves an event of its module exactly when it serves all, or the ids are the same but for that bit. */
  lemma MatchesIff(row: Row, moduleId: byte, eventId: byte)
    ensures Matches(row, moduleId, eventId) <==>
            row.moduleId == moduleId &&
            (row.eventId == 0xFF || row.eventId == eventId || row.eventId == eventId + 0x80 ||
             row.eventId + 0x80 == eventId)
    ensures IsEmergency(eventId) <==> (eventId as bv8) & 0x80 != 0
  {
  }

  predicate AnyMatch(rows: seq<Row>, moduleId: byte, eventId: byte) {
    exists i :: 0 <= i < |rows| && Matches(rows[i], moduleId, eventId)
  }

  /** What a handler asks of the bus: post these bytes with this size. */
  datatype Post = Post(ev: seq<byte>, size: int)
  {
    predicate Valid() {
      2 <= |ev| && size <= |ev|
    }

    /** What is stored of it holds an event id, so that it can be dispatched. */
    predicate Dispatchable() {
      Valid() && (size <= 0 || size % 256 != 1)
    }

    /** The record that is stored: the size is cut to 8 bits. */
    function Record(): seq<byte>
      requires Valid() && size > 0
    {
      ev[..size % 256]
    }
  }

  /** A handler invocation: the row, the event it was given, and what its own peek returned. */
  datatype Call = Call(row: nat, event: seq<byte>, seen: seq<byte>)

  /** The whole event is stored exactly when its size is below 256. */
  lemma RecordIsWholeIff(p: Post)
    requires p.Valid() && p.size > 0
    ensures p.Record() == p.ev[..p.size] <==> p.size < 256
  {
    assert |p.Record()| == p.size % 256;
  }

  /** Of an event of 258 bytes two are stored. */
  lemma LongEventIsCut(ev: seq<byte>)
    requires |ev| == 258
    ensures Post(ev, 258).Record() == ev[..2]
  {
  }

  // ---------------------------------------------------------------- what should be called

  /** The rows from `i` on that match, in table order. */
  function RowsFrom(table: seq<Row>, r: seq<byte>, i: nat): seq<nat>
    requires |r| >= 2 && i <= |table|
    decreases |table| - i
  {
    if i == |table| then []
    else (if Matches(table[i], r[0], r[1]) then [i] else []) + RowsFrom(table, r, i + 1)
  }

  function CallsFor(rows: seq<nat>, r: seq<byte>): (calls: seq<Call>)
    requires |r| >= 2
    ensures |calls| == |rows|
  {
    seq(|rows|, k requires 0 <= k < |rows| => Call(rows[k], r[..2], r))
  }

  /** The calls one event is due: one for each matching row. */
  function Due(table: seq<Row>, r: seq<byte>): seq<Call>
    requires |r| >= 2
  {
    DueFrom(table, r, 0)
  }

  function DueFrom(table: seq<Row>, r: seq<byte>, i: nat): seq<Call>
    requires |r| >= 2 && i <= |table|
  {
    CallsFor(RowsFrom(table, r, i), r)
  }

  /** The calls a list of events is due, event by event. */
  function AllDue(table: seq<Row>, events: seq<seq<byte>>): seq<Call>
    requires forall k :: 0 <= k < |events| ==> |events[k]| >= 2
  {
    if events == [] then [] else AllDue(table, events[..|events| - 1]) + Due(table, events[|events| - 1])
  }

  /** A row is due a call exactly when it matches, once, and rows are called in table order. */
  lemma RowsAreTheMatches(table: seq<Row>, r: seq<byte>, i: nat)
    requires |r| >= 2 && i <= |table|
    ensures var rows := RowsFrom(table, r, i);
            && (forall k :: 0 <= k < |rows| ==> i <= rows[k] < |table|)
            && (forall j, k :: 0 <= j < k < |rows| ==> rows[j] < rows[k])
            && (forall row: nat :: i <= row < |table| ==> (row in rows <==> Matches(table[row], r[0], r[1])))
  {
    hide RowsFrom, Matches;
    RowsRise(table, r, i);
    assert Rising(RowsFrom(table, r, i), i, |table|);
    forall row: nat | i <= row < |table|
      ensures row in RowsFrom(table, r, i) <==> Matches(table[row], r[0], r[1])
    {
      RowIsDue(table, r, i, row);
    }
  }

  /** Rising numbers from `lo` up to but not `hi`. */
  predicate Rising(rows: seq<nat>, lo: nat, hi: nat) {
    && (forall k :: 0 <= k < |rows| ==> lo <= rows[k] < hi)
    && (forall j, k :: 0 <= j < k < |rows| ==> rows[j] < rows[k])
  }

  lemma RisingMore(rows: seq<nat>, lo: nat, hi: nat)
    requires lo < hi && Rising(rows, lo + 1, hi)
    ensures Rising([lo] + rows, lo, hi) && Rising(rows, lo, hi)
  {
    var all := [lo] + rows;
    forall j, k | 0 <= j < k < |all| ensures all[j] < all[k] {
      assert all[k] == rows[k - 1];
      if j > 0 {
        assert all[j] == rows[j - 1];
      }
    }
  }

  lemma {:induction false} RowsRise(table: seq<Row>, r: seq<byte>, i: nat)
    requires |r| >= 2 && i <= |table|
    ensures Rising(RowsFrom(table, r, i), i, |table|)
    decreases |table| - i
  {
    if i < |table| {
      RowsRise(table, r, i + 1);
      RowsUnfold(table, r, i);
      RisingMore(RowsFrom(table, r, i + 1), i, |table|);
      hide RowsFrom, Rising;
    }
  }

  lemma {:induction false} RowIsDue(table: seq<Row>, r: seq<byte>, i: nat, row: nat)
    requires |r| >= 2 && i <= row < |table|
    ensures row in RowsFrom(table, r, i) <==> Matches(table[row], r[0], r[1])
    decreases |table| - i
  {
    RowsUnfold(table, r, i);
    hide RowsFrom;
    if i < row {
      RowIsDue(table, r, i + 1, row);
    } else {
      RowsRise(table, r, i + 1);
    }
  }

  lemma RowsUnfold(table: seq<Row>, r: seq<byte>, i: nat)
    requires |r| >= 2 && i < |table|
    ensures RowsFrom(table, r, i) ==
            if Matches(table[i], r[0], r[1]) then [i] + RowsFrom(table, r, i + 1) else RowsFrom(table, r, i + 1)
  {
    assert [] + RowsFrom(table, r, i + 1) == RowsFrom(table, r, i + 1);
  }

  // ---------------------------------------------------------------- the bus

  predicate Tagged(records: seq<seq<byte>>, emergency: bool) {
    forall k :: 0 <= k < |records| && |records[k]| >= 2 ==> IsEmergency(records[k][1]) == emergency
  }

  lemma TaggedMore(records: seq<seq<byte>>, emergency: bool, r: seq<byte>)
    requires Tagged(records, emergency) && (|r| >= 2 ==> IsEmergency(r[1]) == emergency)
    ensures Tagged(records + [r], emergency)
  {
  }

  function Only(log: seq<seq<byte>>, emergency: bool): seq<seq<byte>>
    requires forall k :: 0 <= k < |log| ==> |log[k]| >= 2
  {
    if log == [] then []
    else
      var last := log[|log| - 1];
      Only(log[..|log| - 1], emergency) + if IsEmergency(last[1]) == emergency then [last] else []
  }

  /** What a ring of `size` bytes holding `records` answers to a record of `len` bytes more. */
  function PushReply(records: seq<seq<byte>>, size: nat, len: byte): int {
    if len == 0 || size == 0 then -QM_EINVAL
    else if |Encode(records)| + len + 1 > size - 1 then -QM_ENOMEM
    else QM_EOK
  }

  class EventBus {
    var table: Option<seq<Row>>
    const normal: CircBuf
    const emerge: CircBuf
    /** Every record accepted since the bus was initialised. */
    ghost var log: seq<seq<byte>>

    ghost predicate Valid()
      reads normal, emerge, normal.buffer, emerge.buffer
    {
      && normal != emerge && normal.Valid() && emerge.Valid()
      && (normal.size > 0 && emerge.size > 0 && normal.buffer == emerge.buffer ==>
            normal.base + normal.size <= emerge.base)
      && Tagged(normal.records, false) && Tagged(emerge.records, true)
    }

    /** Every event in the rings has an event id. */
    ghost predicate Ready()
      reads normal, emerge, normal.buffer, emerge.buffer
    {
      Valid() && Long(normal.records) && Long(emerge.records)
    }

    constructor ()
      ensures Valid() && table == None && log == [] && normal.records == emerge.records == []
      ensures fresh(normal) && fresh(emerge) && fresh(normal.buffer) && fresh(emerge.buffer)
    {
      normal := new CircBuf();
      emerge := new CircBuf();
      table, log := None, [];
    }

    /** The share of the buffer set aside for emergency events, rounded up to a multiple of four. */
    static function EmergencyShare(size: int, percent: int): (n: int)
      requires size > 0 && size % 4 == 0
      ensures 0 <= n && n % 4 == 0
      ensures percent > 0 ==> size * percent / 100 <= n < size * percent / 100 + 4
      ensures n <= size <==> percent <= 0 || size * percent / 100 <= size
      ensures percent <= 100 ==> n <= size
    {
      var n := if percent > 0 then size * percent / 100 else 0;
      ShareFits(size, percent);
      if n % 4 != 0 then (n / 4 + 1) * 4 else n
    }

    static lemma ShareFits(size: int, percent: int)
      requires size > 0
      ensures percent > 0 ==> 0 <= size * percent / 100
      ensures 0 < percent <= 100 ==> size * percent / 100 <= size
    {
    }

    /** A ring that is given no share stays as it was; it collides with the other one if that is laid over
        the same bytes of the same buffer. */
    ghost predicate Collides(buf: array<byte>, size: int, share: int)
      reads this, normal, emerge
    {
      || (share == 0 && emerge.size > 0 && emerge.buffer == buf && size % 0x10000 > emerge.base)
      || (share == size && normal.size > 0 && normal.buffer == buf && size % 0x10000 > 0)
    }

    /** qm_eventbus_init: two empty rings at the two ends of the buffer, or an old ring beside a new one. */
    method Init(buf: array<byte>, size: int, rows: seq<Row>, percent: int) returns (ret: int)
      requires Valid() && size <= buf.Length
      requires size > 0 && size % 4 == 0 ==> EmergencyShare(size, percent) <= size
      modifies this, normal, emerge
      ensures size <= 0 || size % 4 != 0 ==>
                ret == -QM_EINVAL && Valid() && unchanged(this) && unchanged(normal) && unchanged(emerge)
      ensures size > 0 && size % 4 == 0 ==>
                var share := EmergencyShare(size, percent);
                && ret == QM_EOK && table == Some(rows) && log == []
                && (Valid() <==> !old(Collides(buf, size, share)))
                && (if share < size then Fresh(normal, buf, 0, size - share) else unchanged(normal))
                && (if share > 0 then Fresh(emerge, buf, size - share, share) else unchanged(emerge))
    {
      if size <= 0 || size % 4 != 0 {
        return -QM_EINVAL;
      }
      hide EmergencyShare;
      table, log := Some(rows), [];
      Carve(buf, size, EmergencyShare(size, percent));
      return QM_EOK;
    }

    /** A new ring over a part of a buffer. */
    ghost predicate Fresh(ring: CircBuf, buf: array<byte>, start: nat, length: nat)
      reads ring
    {
      ring.records == [] && ring.buffer == buf && ring.base == start && ring.size == length % 0x10000
    }

    method Carve(buf: array<byte>, size: nat, share: nat)
      requires Valid() && 0 < size <= buf.Length && share <= size
      modifies normal, emerge
      ensures Valid() <==> !old(Collides(buf, size, share))
      ensures if share < size then Fresh(normal, buf, 0, size - share) else unchanged(normal)
      ensures if share > 0 then Fresh(emerge, buf, size - share, share) else unchanged(emerge)
    {
      hide CircBuf.Valid;
      var _ := normal.Init(buf, 0, size - share);
      var _ := emerge.Init(buf, size - share, share);
    }

    /** The search for a handler in qm_eventbus_post_event. */
    method HasHandler(rows: seq<Row>, moduleId: byte, eventId: byte) returns (found: bool)
      ensures found <==> AnyMatch(rows, moduleId, eventId)
    {
      var i := 0;
      while i < |rows| && !Matches(rows[i], moduleId, eventId)
        invariant i <= |rows| && forall j :: 0 <= j < i ==> !Matches(rows[j], moduleId, eventId)
      {
        i := i + 1;
      }
      return i < |rows|;
    }

    /** Some handler of the bus is registered for the event. */
    predicate Wanted(moduleId: byte, eventId: byte)
      reads this
    {
      table.Some? && AnyMatch(table.value, moduleId, eventId)
    }

    ghost function Target(eventId: byte): CircBuf {
      if IsEmergency(eventId) then emerge else normal
    }

    /** qm_eventbus_post_event: the size is cut to 8 bits on its way into the ring. */
    method PostEvent(p: Post) returns (ret: int)
      requires Valid() && p.Valid()
      modifies `log, normal, emerge, normal.buffer, emerge.buffer
      ensures Valid() && normal.buffer == old(normal.buffer) && emerge.buffer == old(emerge.buffer)
      ensures ret == QM_EOK ==>
                p.size > 0 && p.size % 256 >= 1 &&
                var record := p.Record();
                && log == old(log) + [record]
                && (if IsEmergency(p.ev[1])
                    then normal.records == old(normal.records) && emerge.records == old(emerge.records) + [record]
                    else normal.records == old(normal.records) + [record] && emerge.records == old(emerge.records))
      ensures ret != QM_EOK ==>
                log == old(log) && normal.records == old(normal.records) && emerge.records == old(emerge.records)
      ensures ret == if p.size <= 0 then -QM_EINVAL
                     else if !old(Wanted(p.ev[0], p.ev[1])) then -QM_ENOENT
                     else PushReply(old(Target(p.ev[1]).records), old(Target(p.ev[1]).size), p.size % 256)
    {
      if p.size <= 0 {
        return -QM_EINVAL;
      }
      if table.None? {
        return -QM_ENOENT;
      }
      var found := HasHandler(table.value, p.ev[0], p.ev[1]);
      if !found {
        return -QM_ENOENT;
      }
      ret := PushTo(p);
    }

    method PushTo(p: Post) returns (ret: int)
      requires Valid() && p.Valid() && p.size > 0
      modifies `log, normal, emerge, normal.buffer, emerge.buffer
      ensures Valid() && normal.buffer == old(normal.buffer) && emerge.buffer == old(emerge.buffer)
      ensures ret == QM_EOK ==>
                p.size % 256 >= 1 &&
                var record := p.Record();
                && log == old(log) + [record]
                && (if IsEmergency(p.ev[1])
                    then normal.records == old(normal.records) && emerge.records == old(emerge.records) + [record]
                    else normal.records == old(normal.records) + [record] && emerge.records == old(emerge.records))
      ensures ret != QM_EOK ==>
                log == old(log) && normal.records == old(normal.records) && emerge.records == old(emerge.records)
      ensures ret == PushReply(old(Target(p.ev[1]).records), old(Target(p.ev[1]).size), p.size % 256)
    {
      hide Valid, Ring, Encode, Storable;
      if IsEmergency(p.ev[1]) {
        ret := PushEmergency(p.ev, p.size % 256);
      } else {
        ret := PushNormal(p.ev, p.size % 256);
      }
      if ret == QM_EOK {
        log := log + [p.ev[..p.size % 256]];
      }
    }

    method PushNormal(ev: seq<byte>, len: byte) returns (ret: int)
      requires Valid() && len <= |ev| && 2 <= |ev| && !IsEmergency(ev[1])
      modifies normal, normal.buffer
      ensures Valid() && normal.buffer == old(normal.buffer) && emerge.records == old(emerge.records)
      ensures ret == PushReply(old(normal.records), old(normal.size), len)
      ensures normal.records == if ret == QM_EOK then old(normal.records) + [ev[..len]] else old(normal.records)
    {
      hide Ring, Encode, Storable, Tagged;
      TaggedMore(normal.records, false, ev[..len]);
      ret := normal.Push(ev, len);
      assert emerge.Region() == old(emerge.Region());
    }

    method PushEmergency(ev: seq<byte>, len: byte) returns (ret: int)
      requires Valid() && len <= |ev| && 2 <= |ev| && IsEmergency(ev[1])
      modifies emerge, emerge.buffer
      ensures Valid() && emerge.buffer == old(emerge.buffer) && normal.records == old(normal.records)
      ensures ret == PushReply(old(emerge.records), old(emerge.size), len)
      ensures emerge.records == if ret == QM_EOK then old(emerge.records) + [ev[..len]] else old(emerge.records)
    {
      hide Ring, Encode, Storable, Tagged;
      TaggedMore(emerge.records, true, ev[..len]);
      ret := emerge.Push(ev, len);
      assert normal.Region() == old(normal.Region());
    }

    /** qm_eventbus_peek_event_data: look at the event being handled, in the ring its id points to. */
    method PeekEventData(eventId: byte, dst: array<byte>, size: nat) returns (ret: int)
      requires Valid() && 0 < size <= dst.Length && dst != normal.buffer && dst != emerge.buffer
      modifies normal, emerge, dst
      ensures Valid() && unchanged(normal) && unchanged(emerge)
      ensures Target(eventId).records != [] ==>
                var r := Target(eventId).records[0];
                ret == (if size < |r| then size else |r|) && dst[..ret] == r[..ret]
    {
      hide Ring, Encode, Storable;
      if IsEmergency(eventId) {
        ret := emerge.Pop(dst, size, true);
      } else {
        ret := normal.Pop(dst, size, true);
      }
    }

    /** Since the start of a round the log has grown by `delta`; what each ring held then and its part
        of `delta` is what has been handled from it and what it still holds. */
    ghost predicate Conserves(c: Round)
      reads this, normal, emerge
    {
      Growth(c, c.normalDone + normal.records, c.emergeDone + emerge.records, log)
    }

    method MakePost(p: Post, ghost c: Round) returns (ghost c': Round)
      requires Ready() && Conserves(c) && p.Dispatchable()
      modifies `log, normal, emerge, normal.buffer, emerge.buffer
      ensures Ready() && normal.buffer == old(normal.buffer) && emerge.buffer == old(emerge.buffer)
      ensures Conserves(c') && c' == c.(delta := c'.delta, tries := c'.tries) && |c'.delta| <= |c.delta| + 1
      ensures Made(c, c', [p])
      ensures old(normal.records) <= normal.records && old(emerge.records) <= emerge.records
    {
      hide Valid, Wanted, Encode, Growth, Made;
      ghost var n, e, l := c.normalDone + normal.records, c.emergeDone + emerge.records, log;
      var ret := PostEvent(p);
      c' := c.(tries := c.tries + [Try(p, ret)]);
      OneTry(c, c', Try(p, ret));
      if ret != QM_EOK {
        RefusedGrowth(c, n, e, l, Try(p, ret));
      } else {
        ghost var record := p.Record();
        MoreGrowth(c, n, e, l, p);
        c' := c'.(delta := c.delta + [record]);
        OneTry(c, c', Try(p, ret));
        assert c.normalDone + (old(normal.records) + [record]) == n + [record];
        assert c.emergeDone + (old(emerge.records) + [record]) == e + [record];
      }
    }

    /** The posts a handler makes, accepted or refused. */
    method MakePosts(posts: seq<Post>, ghost c: Round) returns (ghost c': Round)
      requires Ready() && Conserves(c)
      requires forall i :: 0 <= i < |posts| ==> posts[i].Dispatchable()
      modifies `log, normal, emerge, normal.buffer, emerge.buffer
      ensures Ready() && normal.buffer == old(normal.buffer) && emerge.buffer == old(emerge.buffer)
      ensures Conserves(c') && c' == c.(delta := c'.delta, tries := c'.tries) && |c'.delta| <= |c.delta| + |posts|
      ensures Made(c, c', posts)
      ensures old(normal.records) <= normal.records && old(emerge.records) <= emerge.records
    {
      hide Valid, Ready, Conserves, Made;
      c' := c;
      var i := 0;
      MadeNone(c);
      assert posts[..0] == [];
      while i < |posts|
        invariant i <= |posts| && Ready() && normal.buffer == old(normal.buffer) && emerge.buffer == old(emerge.buffer)
        invariant Conserves(c') && c' == c.(delta := c'.delta, tries := c'.tries) && |c'.delta| <= |c.delta| + i
        invariant Made(c, c', posts[..i])
        invariant old(normal.records) <= normal.records && old(emerge.records) <= emerge.records
      {
        ghost var d := c';
        c' := MakePost(posts[i], c');
        MadeMore(c, d, c', posts[..i], [posts[i]]);
        assert posts[..i + 1] == posts[..i] + [posts[i]];
        i := i + 1;
      }
      assert posts[..i] == posts;
    }

    /** A handler posts what it likes and then looks at the data of the event it was called for. */
    method RunHandler(posts: seq<Post>, ev: seq<byte>, ghost c: Round) returns (seen: seq<byte>, ghost c': Round)
      requires Ready() && Conserves(c) && |ev| == 2 && Target(ev[1]).records != []
      requires forall i :: 0 <= i < |posts| ==> posts[i].Dispatchable()
      modifies `log, normal, emerge, normal.buffer, emerge.buffer
      ensures Ready() && normal.buffer == old(normal.buffer) && emerge.buffer == old(emerge.buffer)
      ensures Conserves(c') && c' == c.(delta := c'.delta, tries := c'.tries) && |c'.delta| <= |c.delta| + |posts|
      ensures Made(c, c', posts)
      ensures old(normal.records) <= normal.records && old(emerge.records) <= emerge.records
      ensures seen == old(Target(ev[1]).records)[0]
    {
      c' := MakePosts(posts, c);
      ghost var r := Target(ev[1]).records[0];
      assert |r| <= 255 by { assert Storable(Target(ev[1]).records); }
      hide Valid, Ready, Growth, Made;
      var dst := new byte[255];
      var n := PeekEventData(ev[1], dst, 255);
      seen := dst[..n];
    }

    /** Call every matching row for the event at the front of its ring. The k-th handler call of a
        round makes the posts script[k]. */
    method CallHandlers(script: seq<seq<Post>>, k0: nat, ev: seq<byte>, ghost r: seq<byte>, ghost c: Round)
        returns (calls: seq<Call>, k: nat, ghost c': Round)
      requires Ready() && Conserves(c) && ValidScript(script) && table.Some?
      requires |r| >= 2 && ev == r[..2] && Target(ev[1]).records != [] && Target(ev[1]).records[0] == r
      modifies `log, normal, emerge, normal.buffer, emerge.buffer
      ensures Ready() && normal.buffer == old(normal.buffer) && emerge.buffer == old(emerge.buffer)
      ensures Conserves(c') && c' == c.(delta := c'.delta, tries := c'.tries)
      ensures |c'.delta| + PostsLeft(script, k) <= |c.delta| + PostsLeft(script, k0)
      ensures old(normal.records) <= normal.records && old(emerge.records) <= emerge.records
      ensures calls == Due(table.value, r) && k == k0 + |calls| && Made(c, c', Scripted(script, k0, k))
    {
      hide Valid, Ready, Conserves, DueFrom, Made, Scripted;
      MadeNone(c);
      ScriptedOne(script, k0);
      var rows := table.value;
      var i := 0;
      calls, k, c' := [], k0, c;
      assert [] + DueFrom(rows, r, 0) == Due(rows, r);
      while i < |rows|
        invariant i <= |rows| && Ready() && normal.buffer == old(normal.buffer) && emerge.buffer == old(emerge.buffer)
        invariant Conserves(c') && c' == c.(delta := c'.delta, tries := c'.tries)
        invariant |c'.delta| + PostsLeft(script, k) <= |c.delta| + PostsLeft(script, k0)
        invariant old(normal.records) <= normal.records && old(emerge.records) <= emerge.records
        invariant calls + DueFrom(rows, r, i) == Due(rows, r)
        invariant k == k0 + |calls| && Made(c, c', Scripted(script, k0, k))
      {
        DueStep(rows, r, i);
        if Matches(rows[i], ev[0], ev[1]) {
          var posts := if k < |script| then script[k] else [];
          var seen;
          ghost var d := c';
          seen, c' := RunHandler(posts, ev, c');
          ScriptedOne(script, k);
          MadeScripted(c, d, c', script, k0, k, k + 1);
          calls := calls + [Call(i, ev, seen)];
          k := k + 1;
        }
        i := i + 1;
      }
      DueEnd(rows, r);
    }

    /** One turn of either loop of qm_eventbus_process_events: peek, dispatch, drop. */
    method HandleFront(emergency: bool, script: seq<seq<Post>>, k0: nat, ghost c: Round)
        returns (calls: seq<Call>, k: nat, ghost c': Round)
      requires Ready() && Conserves(c) && ValidScript(script) && table.Some?
      requires (if emergency then emerge else normal).records != []
      modifies `log, normal, emerge, normal.buffer, emerge.buffer
      ensures Ready() && normal.buffer == old(normal.buffer) && emerge.buffer == old(emerge.buffer)
      ensures |c'.delta| + PostsLeft(script, k) <= |c.delta| + PostsLeft(script, k0)
      ensures Conserves(c') && k == k0 + |calls| && Made(c, c', Scripted(script, k0, k))
      ensures var r := old((if emergency then emerge else normal).records)[0];
              && |r| >= 2 && calls == Due(table.value, r)
              && c' == if emergency then c.(delta := c'.delta, tries := c'.tries, emergeDone := c.emergeDone + [r])
                       else c.(delta := c'.delta, tries := c'.tries, normalDone := c.normalDone + [r])
    {
      hide Valid, Ready, Conserves, Due, PostsLeft, ValidScript;
      ghost var r := (if emergency then emerge else normal).records[0];
      var ev := PeekFront(emergency, c);
      calls, k, c' := CallHandlers(script, k0, ev, r, c);
      DropFront(emergency, r, c');
      c' := if emergency then c'.(emergeDone := c.emergeDone + [r]) else c'.(normalDone := c.normalDone + [r]);
    }

    method PeekFront(emergency: bool, ghost c: Round) returns (ev: seq<byte>)
      requires Ready() && Conserves(c) && (if emergency then emerge else normal).records != []
      modifies normal, emerge
      ensures Ready() && Conserves(c) && unchanged(normal) && unchanged(emerge)
      ensures var r := (if emergency then emerge else normal).records[0];
              |r| >= 2 && ev == r[..2] && IsEmergency(ev[1]) == emergency
    {
      hide Ring, Encode, Storable, Growth;
      var ring := if emergency then emerge else normal;
      assert IsEmergency(ring.records[0][1]) == emergency by { assert Tagged(ring.records, emergency); }
      var dst := new byte[2];
      var _ := ring.Pop(dst, 2, true);
      ev := dst[..];
    }

    method DropFront(emergency: bool, ghost r: seq<byte>, ghost c: Round)
      requires Ready() && Conserves(c) && table.Some?
      requires var ring := if emergency then emerge else normal; ring.records != [] && ring.records[0] == r
      modifies normal, emerge
      ensures Ready() && normal.buffer == old(normal.buffer) && emerge.buffer == old(emerge.buffer)
      ensures Conserves(if emergency then c.(emergeDone := c.emergeDone + [r])
                        else c.(normalDone := c.normalDone + [r]))
    {
      hide Ring, Encode, Storable;
      if emergency {
        var _ := emerge.Drop();
        assert c.emergeDone + old(emerge.records) == (c.emergeDone + [r]) + emerge.records;
      } else {
        var _ := normal.Drop();
        assert c.normalDone + old(normal.records) == (c.normalDone + [r]) + normal.records;
      }
    }

    /** qm_eventbus_process_events: drain the emergency ring, then the normal ring.

        Every event of a ring is handled once, in posting order, by every matching row in table order,
        and its handlers see its own bytes; emergency events come first. What handlers post meanwhile
        is handled in the same round, except emergency events posted by handlers of normal events,
        which are exactly what is left. Every post of every handler called is made, and the events of
        the round are exactly those of the posts that were accepted. */
    method ProcessEvents(script: seq<seq<Post>>) returns (ret: int, calls: seq<Call>, ghost c: Round)
      requires Ready() && ValidScript(script)
      modifies `log, normal, emerge, normal.buffer, emerge.buffer
      ensures Ready()
      ensures table.None? ==>
                && ret == -QM_ENOENT && calls == []
                && normal.records == old(normal.records) && emerge.records == old(emerge.records)
      ensures table.Some? ==>
                && (forall k :: 0 <= k < |c.delta| ==> |c.delta[k]| >= 2) && log == old(log) + c.delta
                && c.emergeDone + emerge.records == old(emerge.records) + Only(c.delta, true)
                && old(emerge.records) <= c.emergeDone
                && c.normalDone == old(normal.records) + Only(c.delta, false) && normal.records == []
                && Long(c.emergeDone) && Long(c.normalDone)
                && calls == AllDue(table.value, c.emergeDone) + AllDue(table.value, c.normalDone)
                && ret == |emerge.records|
                && PostsOf(c.tries) == Scripted(script, 0, |calls|) && c.delta == Stored(c.tries)
    {
      calls := [];
      c := Round(normal.records, emerge.records, log, [], [], [], []);
      if table.None? {
        return -QM_ENOENT, calls, c;
      }
      StartConserves(c);
      hide Valid, Ready, Conserves, AllDue, Long, Only, Scripted, Stored;
      calls, c := DrainBoth(script, c);
      RoundIs(c);
      Counted();
      ret := normal.elemCnt + emerge.elemCnt;
    }

    lemma StartConserves(c: Round)
      requires c == Round(normal.records, emerge.records, log, [], [], [], [])
      ensures Conserves(c)
    {
    }

    method DrainBoth(script: seq<seq<Post>>, ghost start: Round) returns (calls: seq<Call>, ghost c: Round)
      requires Ready() && Conserves(start) && ValidScript(script) && table.Some?
      requires start.normalDone == [] && start.emergeDone == [] && start.tries == []
      modifies `log, normal, emerge, normal.buffer, emerge.buffer
      ensures Ready() && Conserves(c) && normal.records == [] && c.emerge0 <= c.emergeDone
      ensures c.normal0 == start.normal0 && c.emerge0 == start.emerge0 && c.log0 == start.log0
      ensures Long(c.emergeDone) && Long(c.normalDone)
      ensures calls == AllDue(table.value, c.emergeDone) + AllDue(table.value, c.normalDone)
      ensures PostsOf(c.tries) == Scripted(script, 0, |calls|)
    {
      hide Valid, Ready, Conserves, AllDue, Long, Made, Scripted;
      var k;
      k, calls, c := DrainEmergency(script, start);
      EmergencyFirst(c);
      var more;
      ghost var middle, half := c, k;
      k, more, c := DrainNormal(script, k, c);
      calls := calls + more;
      MadeScripted(start, middle, c, script, 0, half, k);
      MadeFirst(start, c, Scripted(script, 0, k));
    }

    lemma EmergencyFirst(c: Round)
      requires Conserves(c) && emerge.records == []
      ensures c.emerge0 <= c.emergeDone
    {
      assert c.emergeDone == c.emerge0 + Only(c.delta, true);
    }

    lemma RoundIs(c: Round)
      requires Conserves(c) && normal.records == []
      ensures (forall k :: 0 <= k < |c.delta| ==> |c.delta[k]| >= 2) && log == c.log0 + c.delta
      ensures c.emergeDone + emerge.records == c.emerge0 + Only(c.delta, true)
      ensures c.normalDone == c.normal0 + Only(c.delta, false) && c.delta == Stored(c.tries)
    {
    }

    lemma Counted()
      requires Ready()
      ensures normal.elemCnt == |normal.records| && emerge.elemCnt == |emerge.records|
    {
    }

    method DrainEmergency(script: seq<seq<Post>>, ghost c0: Round) returns (k: nat, calls: seq<Call>, ghost c: Round)
      requires Ready() && Conserves(c0) && ValidScript(script) && table.Some? && c0.emergeDone == []
      modifies `log, normal, emerge, normal.buffer, emerge.buffer
      ensures Ready() && Conserves(c) && normal.buffer == old(normal.buffer) && emerge.buffer == old(emerge.buffer)
      ensures c == c0.(delta := c.delta, tries := c.tries, emergeDone := c.emergeDone) && emerge.records == []
      ensures Long(c.emergeDone) && calls == AllDue(table.value, c.emergeDone)
      ensures k == |calls| && Made(c0, c, Scripted(script, 0, k))
    {
      hide Conserves, Growth, PostsLeft, Made, Scripted;
      k, calls, c := 0, [], c0;
      MadeNone(c0);
      ScriptedOne(script, 0);
      Pending(c);
      while emerge.elemCnt > 0
        invariant Ready() && Conserves(c) && normal.buffer == old(normal.buffer) && emerge.buffer == old(emerge.buffer)
        invariant c == c0.(delta := c.delta, tries := c.tries, emergeDone := c.emergeDone)
        invariant Long(c.emergeDone) && calls == AllDue(table.value, c.emergeDone)
        invariant k == |calls| && Made(c0, c, Scripted(script, 0, k))
        decreases ToDo(c) + PostsLeft(script, k)
      {
        var more;
        ghost var done, d, before := c.emergeDone, c, k;
        more, k, c := HandleFront(true, script, k, c);
        MadeScripted(c0, d, c, script, 0, before, k);
        AllDueMore(table.value, done, c.emergeDone[|done|]);
        calls := calls + more;
        Pending(c);
      }
    }

    method DrainNormal(script: seq<seq<Post>>, k0: nat, ghost c0: Round)
        returns (k: nat, calls: seq<Call>, ghost c: Round)
      requires Ready() && Conserves(c0) && ValidScript(script) && table.Some? && c0.normalDone == []
      modifies `log, normal, emerge, normal.buffer, emerge.buffer
      ensures Ready() && Conserves(c) && normal.buffer == old(normal.buffer) && emerge.buffer == old(emerge.buffer)
      ensures c == c0.(delta := c.delta, tries := c.tries, normalDone := c.normalDone) && normal.records == []
      ensures Long(c.normalDone) && calls == AllDue(table.value, c.normalDone)
      ensures k == k0 + |calls| && Made(c0, c, Scripted(script, k0, k))
    {
      hide Conserves, Growth, PostsLeft, Made, Scripted;
      k, calls, c := k0, [], c0;
      MadeNone(c0);
      ScriptedOne(script, k0);
      Pending(c);
      while normal.elemCnt > 0
        invariant Ready() && Conserves(c) && normal.buffer == old(normal.buffer) && emerge.buffer == old(emerge.buffer)
        invariant c == c0.(delta := c.delta, tries := c.tries, normalDone := c.normalDone)
        invariant Long(c.normalDone) && calls == AllDue(table.value, c.normalDone)
        invariant k == k0 + |calls| && Made(c0, c, Scripted(script, k0, k))
        decreases ToDo(c) + PostsLeft(script, k)
      {
        var more;
        ghost var done, d, before := c.normalDone, c, k;
        more, k, c := HandleFront(false, script, k, c);
        MadeScripted(c0, d, c, script, k0, before, k);
        AllDueMore(table.value, done, c.normalDone[|done|]);
        calls := calls + more;
        Pending(c);
      }
    }

    /** The events of a round not yet handled are those in the rings. */
    lemma Pending(c: Round)
      requires Conserves(c)
      ensures ToDo(c) == |normal.records| + |emerge.records|
    {
      OnlyLengths(c.delta);
    }
  }

  predicate Long(events: seq<seq<byte>>) {
    forall k :: 0 <= k < |events| ==> |events[k]| >= 2
  }

  function ToDo(c: Round): int {
    |c.normal0| + |c.emerge0| + |c.delta| - |c.normalDone| - |c.emergeDone|
  }

  lemma {:induction false} OnlyLengths(log: seq<seq<byte>>)
    requires Long(log)
    ensures |Only(log, true)| + |Only(log, false)| == |log|
  {
    if log != [] {
      OnlyLengths(log[..|log| - 1]);
    }
  }

  lemma AllDueMore(table: seq<Row>, events: seq<seq<byte>>, r: seq<byte>)
    requires Long(events) && |r| >= 2
    ensures Long(events + [r]) && AllDue(table, events + [r]) == AllDue(table, events) + Due(table, r)
  {
    assert (events + [r])[..|events|] == events;
  }

  predicate ValidScript(script: seq<seq<Post>>) {
    forall k, i :: 0 <= k < |script| && 0 <= i < |script[k]| ==> script[k][i].Dispatchable()
  }

  /** Posts that handlers will still make from their k-th call on. */
  function PostsLeft(script: seq<seq<Post>>, k: nat): nat
    decreases |script| - k
  {
    if k >= |script| then 0 else |script[k]| + PostsLeft(script, k + 1)
  }

  lemma DueStep(table: seq<Row>, r: seq<byte>, i: nat)
    requires |r| >= 2 && i < |table|
    ensures DueFrom(table, r, i) ==
            (if Matches(table[i], r[0], r[1]) then [Call(i, r[..2], r)] else []) + DueFrom(table, r, i + 1)
  {
  }

  lemma DueEnd(table: seq<Row>, r: seq<byte>)
    requires |r| >= 2
    ensures DueFrom(table, r, |table|) == []
  {
  }

  /** The start of a round of processing, what was accepted during it, and what has been handled. */
  datatype Round = Round(normal0: seq<seq<byte>>, emerge0: seq<seq<byte>>, log0: seq<seq<byte>>, delta: seq<seq<byte>>,
                         tries: seq<Try>, normalDone: seq<seq<byte>>, emergeDone: seq<seq<byte>>)

  /** A post made by a handler, and what it was answered. */
  datatype Try = Try(post: Post, reply: int)

  /** The records stored by the posts that were accepted. */
  function Stored(tries: seq<Try>): seq<seq<byte>> {
    if tries == [] then []
    else
      var t := tries[|tries| - 1];
      Stored(tries[..|tries| - 1]) +
      if t.reply == QM_EOK && t.post.Valid() && t.post.size > 0 then [t.post.Record()] else []
  }

  lemma StoredMore(tries: seq<Try>, t: Try)
    ensures Stored(tries + [t]) ==
            Stored(tries) + if t.reply == QM_EOK && t.post.Valid() && t.post.size > 0 then [t.post.Record()] else []
  {
    assert (tries + [t])[..|tries|] == tries;
  }

  function PostsOf(tries: seq<Try>): (posts: seq<Post>)
    ensures |posts| == |tries| && forall i :: 0 <= i < |tries| ==> posts[i] == tries[i].post
  {
    seq(|tries|, i requires 0 <= i < |tries| => tries[i].post)
  }

  /** The posts of the handler calls number `i` up to `j`. */
  function Scripted(script: seq<seq<Post>>, i: nat, j: nat): seq<Post> {
    if j <= i then [] else Scripted(script, i, j - 1) + if j - 1 < |script| then script[j - 1] else []
  }

  lemma {:induction false} ScriptedSum(script: seq<seq<Post>>, i: nat, j: nat, k: nat)
    requires i <= j <= k
    ensures Scripted(script, i, j) + Scripted(script, j, k) == Scripted(script, i, k)
  {
    if j < k {
      ScriptedSum(script, i, j, k - 1);
      var last := if k - 1 < |script| then script[k - 1] else [];
      assert Scripted(script, i, j) + (Scripted(script, j, k - 1) + last) == Scripted(script, i, k - 1) + last;
    } else {
      assert Scripted(script, i, j) + [] == Scripted(script, i, j);
    }
  }

  /** Since `c` exactly these posts have been made, in this order. */
  ghost predicate Made(c: Round, c': Round, posts: seq<Post>) {
    PostsOf(c'.tries) == PostsOf(c.tries) + posts
  }

  lemma MadeMore(c: Round, d: Round, e: Round, posts: seq<Post>, more: seq<Post>)
    requires Made(c, d, posts) && Made(d, e, more)
    ensures Made(c, e, posts + more)
  {
    assert PostsOf(c.tries) + posts + more == PostsOf(c.tries) + (posts + more);
  }

  lemma MadeFirst(c: Round, d: Round, posts: seq<Post>)
    requires c.tries == [] && Made(c, d, posts)
    ensures PostsOf(d.tries) == posts
  {
    assert [] + posts == posts;
  }

  lemma MadeNone(c: Round)
    ensures Made(c, c, [])
  {
    assert PostsOf(c.tries) + [] == PostsOf(c.tries);
  }

  lemma MadeScripted(c: Round, d: Round, e: Round, script: seq<seq<Post>>, i: nat, j: nat, k: nat)
    requires i <= j <= k && Made(c, d, Scripted(script, i, j)) && Made(d, e, Scripted(script, j, k))
    ensures Made(c, e, Scripted(script, i, k))
  {
    hide Made, Scripted;
    MadeMore(c, d, e, Scripted(script, i, j), Scripted(script, j, k));
    ScriptedSum(script, i, j, k);
  }

  lemma ScriptedOne(script: seq<seq<Post>>, k: nat)
    ensures Scripted(script, k, k + 1) == (if k < |script| then script[k] else []) && Scripted(script, k, k) == []
  {
    assert Scripted(script, k, k) == [];
  }

  ghost predicate Growth(c: Round, normal: seq<seq<byte>>, emerge: seq<seq<byte>>, log: seq<seq<byte>>) {
    && (forall k :: 0 <= k < |c.delta| ==> |c.delta[k]| >= 2)
    && log == c.log0 + c.delta && c.delta == Stored(c.tries)
    && normal == c.normal0 + Only(c.delta, false) && emerge == c.emerge0 + Only(c.delta, true)
  }

  lemma MoreGrowth(c: Round, normal: seq<seq<byte>>, emerge: seq<seq<byte>>, log: seq<seq<byte>>, p: Post)
    requires Growth(c, normal, emerge, log) && p.Valid() && p.size > 0 && p.size % 256 >= 2
    ensures var r := p.Record();
            var c' := c.(delta := c.delta + [r], tries := c.tries + [Try(p, QM_EOK)]);
            if IsEmergency(r[1]) then Growth(c', normal, emerge + [r], log + [r])
            else Growth(c', normal + [r], emerge, log + [r])
  {
    OnlyOneMore(c.delta, p.Record());
    StoredMore(c.tries, Try(p, QM_EOK));
    hide Growth, Only, Stored;
    GrowsBy(c, normal, emerge, log, p.Record(), c.tries + [Try(p, QM_EOK)]);
  }

  lemma GrowsBy(c: Round, normal: seq<seq<byte>>, emerge: seq<seq<byte>>, log: seq<seq<byte>>, r: seq<byte>,
                tries: seq<Try>)
    requires Growth(c, normal, emerge, log) && |r| >= 2 && Stored(tries) == Stored(c.tries) + [r]
    ensures var c' := c.(delta := c.delta + [r], tries := tries);
            if IsEmergency(r[1]) then Growth(c', normal, emerge + [r], log + [r])
            else Growth(c', normal + [r], emerge, log + [r])
  {
    OnlyOneMore(c.delta, r);
    LongMore(c.delta, r);
    hide Only, Stored;
    Appended(c.log0, c.delta, r);
    if IsEmergency(r[1]) {
      Appended(c.emerge0, Only(c.delta, true), r);
      NothingMore(Only(c.delta, false));
    } else {
      Appended(c.normal0, Only(c.delta, false), r);
      NothingMore(Only(c.delta, true));
    }
  }

  lemma Appended(a: seq<seq<byte>>, b: seq<seq<byte>>, r: seq<byte>)
    ensures a + (b + [r]) == (a + b) + [r]
  {
  }

  lemma NothingMore(a: seq<seq<byte>>)
    ensures a + [] == a
  {
  }

  lemma LongMore(events: seq<seq<byte>>, r: seq<byte>)
    requires (forall k :: 0 <= k < |events| ==> |events[k]| >= 2) && |r| >= 2
    ensures forall k :: 0 <= k < |events + [r]| ==> |(events + [r])[k]| >= 2
  {
  }

  lemma RefusedGrowth(c: Round, normal: seq<seq<byte>>, emerge: seq<seq<byte>>, log: seq<seq<byte>>, t: Try)
    requires Growth(c, normal, emerge, log) && t.reply != QM_EOK
    ensures Growth(c.(tries := c.tries + [t]), normal, emerge, log)
  {
    StoredMore(c.tries, t);
    assert Stored(c.tries) + [] == Stored(c.tries);
  }

  lemma OneTry(c: Round, c': Round, t: Try)
    requires c'.tries == c.tries + [t]
    ensures Made(c, c', [t.post])
  {
  }

  lemma OnlyOneMore(log: seq<seq<byte>>, r: seq<byte>)
    requires |r| >= 2 && forall k :: 0 <= k < |log| ==> |log[k]| >= 2
    ensures Only(log + [r], true) == Only(log, true) + if IsEmergency(r[1]) then [r] else []
    ensures Only(log + [r], false) == Only(log, false) + if IsEmergency(r[1]) then [] else [r]
  {
    assert (log + [r])[..|log|] == log;
  }
}
