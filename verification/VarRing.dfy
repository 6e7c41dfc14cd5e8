/** The variable-length ring buffer: length-prefixed records wrapped byte by byte through a circular
    region of a caller's buffer. It behaves as a FIFO of byte strings. */
module VarRing {
  import opened Arithmetic
  import opened Bytes

  const QM_EOK: int := 0
  const QM_ENOMEM: int := 5
  const QM_EINVAL: int := 10

  // ---------------------------------------------------------------- records as bytes

  /** The bytes that represent a queue of records, each preceded by its length. */
  function Encode(records: seq<seq<byte>>): seq<int> {
    if records == [] then [] else [|records[0]|] + records[0] + Encode(records[1..])
  }

  lemma EncodeFirst(records: seq<seq<byte>>)
    requires records != []
    ensures Encode(records) == [|records[0]|] + records[0] + Encode(records[1..])
  {
  }

  lemma NoRecords()
    ensures Encode([]) == []
  {
  }

  lemma {:induction false} EncodeSum(a: seq<seq<byte>>, b: seq<seq<byte>>)
    ensures Encode(a + b) == Encode(a) + Encode(b)
  {
    hide Encode;
    if a == [] {
      NoRecords();
      assert a + b == b;
    } else {
      EncodeFirst(a);
      EncodeFirst(a + b);
      EncodeSum(a[1..], b);
      assert (a + b)[1..] == a[1..] + b;
    }
  }

  lemma EncodeOne(r: seq<byte>)
    ensures Encode([r]) == [|r|] + r
  {
    assert [r][1..] == [];
    assert Encode([r]) == [|r|] + r + [];
  }

  predicate Storable(records: seq<seq<byte>>) {
    forall i :: 0 <= i < |records| ==> 1 <= |records[i]| <= 255
  }

  lemma StorableMore(records: seq<seq<byte>>, r: seq<byte>)
    requires Storable(records) && 1 <= |r| <= 255
    ensures Storable(records + [r])
  {
  }

  lemma StorableRest(records: seq<seq<byte>>)
    requires Storable(records) && records != []
    ensures Storable(records[1..])
  {
  }

  /** Every record takes at least two bytes, so the count of records fits a signed 16-bit integer in
      any ring of at most 65535 bytes. */
  lemma {:induction false} CountFits(records: seq<seq<byte>>)
    requires Storable(records)
    ensures 2 * |records| <= |Encode(records)|
  {
    if records != [] {
      CountFits(records[1..]);
    }
  }

  // ---------------------------------------------------------------- a circular window

  /** `n` bytes of a region from `pop` on, wrapping at its end. */
  function Window(region: seq<byte>, pop: nat, n: nat): (w: seq<int>)
    requires pop < |region| && n <= |region|
    ensures |w| == n && forall i :: 0 <= i < n ==> w[i] == region[Slot(pop, i, |region|)]
  {
    seq(n, i requires 0 <= i < n => region[Slot(pop, i, |region|)])
  }

  /** Writing the byte after the window extends the window by it. */
  lemma WindowGrows(region: seq<byte>, pop: nat, n: nat, b: byte)
    requires pop < |region| && n < |region|
    ensures Window(region[Slot(pop, n, |region|) := b], pop, n + 1) == Window(region, pop, n) + [b]
  {
    var region' := region[Slot(pop, n, |region|) := b];
    forall i | 0 <= i <= n ensures Window(region', pop, n + 1)[i] == (Window(region, pop, n) + [b])[i] {
    }
  }

  /** Skipping the front of a window. */
  lemma WindowDrops(region: seq<byte>, pop: nat, k: nat, n: nat)
    requires pop < |region| && k <= n <= |region|
    ensures k < |region| ==> Window(region, Slot(pop, k, |region|), n - k) == Window(region, pop, n)[k..]
  {
    if k < |region| {
      forall i | 0 <= i < n - k
        ensures Window(region, Slot(pop, k, |region|), n - k)[i] == Window(region, pop, n)[k..][i]
      {
        assert Slot(Slot(pop, k, |region|), i, |region|) == Slot(pop, k + i, |region|);
      }
    }
  }

  /** From `pop` up to `push`, the region holds `content`; one byte at least stays free. */
  predicate Ring(region: seq<byte>, pop: nat, push: nat, content: seq<int>) {
    && 0 < |region| <= UINT16_MAX && pop < |region| && |content| < |region|
    && push == Slot(pop, |content|, |region|)
    && Window(region, pop, |content|) == content
  }

  lemma RingGrows(region: seq<byte>, pop: nat, push: nat, content: seq<int>, b: byte)
    requires Ring(region, pop, push, content) && |content| + 1 < |region|
    ensures push < |region| && Ring(region[push := b], pop, (push + 1) % |region|, content + [b])
  {
    WindowGrows(region, pop, |content|, b);
    SlotIsMod(push, 1, |region|);
  }

  lemma RingUsed(region: seq<byte>, pop: nat, push: nat, content: seq<int>)
    requires Ring(region, pop, push, content)
    ensures (push - pop + |region|) % |region| == |content|
  {
    DifferenceOfSlot(pop, |content|, |region|);
  }

  lemma DifferenceOfSlot(pop: nat, n: nat, size: nat)
    requires pop < size && n < size
    ensures (Slot(pop, n, size) - pop + size) % size == n
  {
    Exact(Slot(pop, n, size) - pop + size, size, if pop + n < size then 1 else 0, n);
  }

  /** The first record of a ring: its length at the pop index, its bytes after it. */
  lemma FirstRecord(region: seq<byte>, pop: nat, push: nat, records: seq<seq<byte>>)
    requires Ring(region, pop, push, Encode(records)) && records != []
    ensures pop < |region| && pop % |region| == pop && |records[0]| + 1 < |region| && region[pop] == |records[0]|
    ensures forall i :: 0 <= i < |records[0]| ==> region[Slot(pop, i + 1, |region|)] == records[0][i]
  {
    EncodeFirst(records);
    hide Encode, Window, Slot;
    Exact(pop, |region|, 0, pop);
    WindowStarts(region, pop, Encode(records), records[0], Encode(records[1..]));
  }

  lemma WindowStarts(region: seq<byte>, pop: nat, content: seq<int>, r: seq<byte>, rest: seq<int>)
    requires pop < |region| && |content| < |region| && Window(region, pop, |content|) == content
    requires content == [|r|] + r + rest
    ensures |r| + 1 < |region| && region[pop] == |r|
    ensures forall i :: 0 <= i < |r| ==> region[Slot(pop, i + 1, |region|)] == r[i]
  {
    hide Window;
    assert content[0] == region[Slot(pop, 0, |region|)];
    forall i | 0 <= i < |r| ensures region[Slot(pop, i + 1, |region|)] == r[i] {
      assert content[i + 1] == r[i];
    }
  }

  /** Moving the pop index past the first record leaves the encoding of the others. */
  lemma WithoutFirst(region: seq<byte>, pop: nat, push: nat, records: seq<seq<byte>>)
    requires Ring(region, pop, push, Encode(records)) && records != []
    ensures var pop' := (pop + |records[0]| + 1) % |region|; Ring(region, pop', push, Encode(records[1..]))
    ensures pop < |region| && |records[0]| + 1 < |region|
    ensures Slot(pop, |records[0]| + 1, |region|) == (pop + |records[0]| + 1) % |region|
  {
    var content, rest := Encode(records), Encode(records[1..]);
    var k := |records[0]| + 1;
    assert content[k..] == rest;
    WindowDrops(region, pop, k, |content|);
    SlotIsMod(pop, k, |region|);
  }

  /** The same, with the length read from the region. */
  lemma PastHeader(region: seq<byte>, pop: nat, push: nat, records: seq<seq<byte>>)
    requires Ring(region, pop, push, Encode(records)) && records != []
    ensures pop < |region| && Ring(region, (pop + region[pop] + 1) % |region|, push, Encode(records[1..]))
  {
    hide Ring, Encode, Slot;
    FirstRecord(region, pop, push, records);
    WithoutFirst(region, pop, push, records);
  }

  /** Stopping `k` bytes into the first record does not leave the encoding of the others. */
  lemma ShortPop(region: seq<byte>, pop: nat, push: nat, records: seq<seq<byte>>, k: nat)
    requires Ring(region, pop, push, Encode(records)) && records != [] && k < |records[0]|
    ensures pop < |region| && k + 1 <= |region|
    ensures !Ring(region, Slot(pop, k + 1, |region|), push, Encode(records[1..]))
  {
    var content, rest := Encode(records), Encode(records[1..]);
    EncodeFirst(records);
    hide Encode;
    var pop', left := Slot(pop, k + 1, |region|), content[k + 1..];
    WindowDrops(region, pop, k + 1, |content|);
    assert Ring(region, pop', push, left);
    RingUsed(region, pop', push, left);
    hide Ring, Slot;
    if Ring(region, pop', push, rest) {
      RingUsed(region, pop', push, rest);
      assert false;
    }
  }

  // ---------------------------------------------------------------- the buffer

  class CircBuf {
    var buffer: array<byte>
    var base: nat
    var size: nat
    var pushIndex: nat
    var popIndex: nat
    var elemCnt: int
    ghost var records: seq<seq<byte>>

    /** The part of the caller's buffer that belongs to this ring. */
    ghost function Region(): (r: seq<byte>)
      requires base + size <= buffer.Length
      reads this, buffer
      ensures |r| == size
    {
      buffer[base..base + size]
    }

    /** The bytes stored are `content`. */
    ghost predicate Holds(content: seq<int>)
      reads this, buffer
    {
      base + size <= buffer.Length && Ring(Region(), popIndex, pushIndex, content)
    }

    ghost predicate Valid()
      reads this, buffer
    {
      && Storable(records) && elemCnt == |records|
      && if size == 0 then records == [] && pushIndex == popIndex == 0 && base <= buffer.Length
         else Holds(Encode(records))
    }

    /** A structure of static storage, all zero. */
    constructor ()
      ensures Valid() && size == 0 && records == [] && fresh(buffer)
    {
      buffer := new byte[0];
      base, size, pushIndex, popIndex, elemCnt, records := 0, 0, 0, 0, 0, [];
    }

    /** circbuf_var_init: a size is stored in 16 bits; a size of zero or less leaves all as it was. */
    method Init(buf: array<byte>, start: nat, length: int) returns (ret: int)
      requires Valid() && start + (if length > 0 then length else 0) <= buf.Length
      modifies this
      ensures Valid()
      ensures length <= 0 ==> ret == -QM_EINVAL && unchanged(this)
      ensures length > 0 ==>
                ret == QM_EOK && records == [] && buffer == buf && base == start && size == length % 0x10000
    {
      if length <= 0 {
        return -QM_EINVAL;
      }
      pushIndex, popIndex, elemCnt := 0, 0, 0;
      size := length % 0x10000;
      buffer, base := buf, start;
      records := [];
      return QM_EOK;
    }

    /** The record count always fits the signed 16 bits it is stored in. */
    lemma CountFitsInt16()
      requires Valid()
      ensures 0 <= elemCnt <= 0x7FFF
    {
      CountFits(records);
    }

    /** circbuf_var_size: the bytes in use. */
    function UsedBytes(): (n: int)
      requires Valid() && size > 0
      reads this, buffer
      ensures n == |Encode(records)|
    {
      RingUsed(Region(), popIndex, pushIndex, Encode(records));
      (pushIndex - popIndex + size) % size
    }

    /** circbuf_var_free_space: one byte always stays free. */
    function FreeSpace(): (n: int)
      requires Valid() && size > 0
      reads this, buffer
      ensures n == size - |Encode(records)| - 1
    {
      RingUsed(Region(), popIndex, pushIndex, Encode(records));
      size - (pushIndex - popIndex + size) % size - 1
    }

    method PutByte(b: byte, ghost content: seq<int>)
      requires Holds(content) && |content| + 1 < size
      modifies this`pushIndex, buffer
      ensures Holds(content + [b])
      ensures forall j :: 0 <= j < buffer.Length && !(base <= j < base + size) ==> buffer[j] == old(buffer[j])
    {
      ghost var region := Region();
      RingGrows(region, popIndex, pushIndex, content, b);
      buffer[base + pushIndex] := b;
      assert Region() == region[pushIndex := b];
      pushIndex := (pushIndex + 1) % size;
    }

    /** circbuf_var_push_elem: the first `len` bytes of `elem` become a record, unless the ring is too full. */
    method Push(elem: seq<byte>, len: byte) returns (ret: int)
      requires Valid() && len <= |elem|
      modifies this, buffer
      ensures Valid() && buffer == old(buffer) && base == old(base) && size == old(size) && popIndex == old(popIndex)
      ensures forall j :: 0 <= j < buffer.Length && !(base <= j < base + size) ==> buffer[j] == old(buffer[j])
      ensures ret == if len == 0 || size == 0 then -QM_EINVAL
                     else if |old(Encode(records))| + len + 1 > size - 1 then -QM_ENOMEM else QM_EOK
      ensures records == if ret == QM_EOK then old(records) + [elem[..len]] else old(records)
      ensures ret != QM_EOK ==> unchanged(this) && unchanged(buffer)
      ensures 0 <= elemCnt <= 0x7FFF
    {
      hide Ring, Encode, Storable;
      CountFitsInt16();
      if len == 0 || size == 0 {
        return -QM_EINVAL;
      }
      if FreeSpace() < len + 1 {
        return -QM_ENOMEM;
      }
      ghost var content := Encode(records);
      PutByte(len, content);
      PutBytes(elem, len, content + [len]);
      elemCnt := elemCnt + 1;
      PushedEncoding(records, elem[..len]);
      StorableMore(records, elem[..len]);
      records := records + [elem[..len]];
      CountFitsInt16();
      return QM_EOK;
    }

    /** The copy loop of circbuf_var_push_elem. */
    method PutBytes(elem: seq<byte>, len: nat, ghost content: seq<int>)
      requires len <= |elem| && Holds(content) && |content| + len < size
      modifies this`pushIndex, buffer
      ensures Holds(content + elem[..len])
      ensures forall j :: 0 <= j < buffer.Length && !(base <= j < base + size) ==> buffer[j] == old(buffer[j])
    {
      var i := 0;
      assert content + elem[..0] == content;
      while i < len
        invariant i <= len && Holds(content + elem[..i])
        invariant forall j :: 0 <= j < buffer.Length && !(base <= j < base + size) ==> buffer[j] == old(buffer[j])
      {
        PutByte(elem[i], content + elem[..i]);
        assert content + elem[..i + 1] == content + elem[..i] + [elem[i]];
        i := i + 1;
      }
    }

    /** circbuf_var_pop, peeking (`readOnly`) or consuming. The queue without its first record is what the
        ring holds after a consuming pop exactly when there was room for the whole record. */
    method Pop(dst: array<byte>, len: nat, readOnly: bool) returns (ret: int)
      requires Valid() && len <= dst.Length && dst != buffer
      modifies this, dst
      ensures buffer == old(buffer) && base == old(base) && size == old(size)
      ensures Valid() <==> readOnly || old(records) == [] || |old(records)[0]| <= len
      ensures readOnly || ret < 0 ==> unchanged(this)
      ensures old(records) == [] ==> ret == (if size == 0 then -QM_EINVAL else -QM_ENOMEM) && unchanged(dst)
      ensures old(records) != [] ==>
                var r := old(records)[0];
                && ret == (if len < |r| then len else |r|)
                && dst[..ret] == r[..ret] && dst[ret..] == old(dst[..])[ret..]
      ensures old(records) != [] && !readOnly ==>
                && records == old(records)[1..] && elemCnt == old(elemCnt) - 1 && pushIndex == old(pushIndex)
                && old(popIndex) < size && ret + 1 <= size && popIndex == Slot(old(popIndex), ret + 1, size)
    {
      hide Ring, Encode, Storable, Slot;
      if size == 0 {
        return -QM_EINVAL;
      }
      if elemCnt == 0 {
        return -QM_ENOMEM;
      }
      ghost var region := Region();
      ghost var first := records[0];
      WithoutFirst(region, popIndex, pushIndex, records);
      StorableRest(records);
      if len < |first| {
        ShortPop(region, popIndex, pushIndex, records, len);
      }
      var oldPopIndex := popIndex;
      ret := CopyFirst(dst, len);
      assert Region() == region;
      if readOnly {
        popIndex := oldPopIndex;
      } else {
        elemCnt := elemCnt - 1;
        records := records[1..];
      }
    }

    method CopyFirst(dst: array<byte>, len: nat) returns (n: nat)
      requires Valid() && records != [] && len <= dst.Length && dst != buffer
      modifies this`popIndex, dst
      ensures n == if len < |records[0]| then len else |records[0]|
      ensures dst[..n] == records[0][..n] && dst[n..] == old(dst[..])[n..]
      ensures old(popIndex) < size && n + 1 <= size && popIndex == Slot(old(popIndex), n + 1, size)
    {
      hide Ring, Encode, Storable;
      FirstRecord(Region(), popIndex, pushIndex, records);
      var elemSize := buffer[base + popIndex];
      n := if len < elemSize then len else elemSize;
      CopyOut(dst, n, records[0]);
    }

    /** The copy loop of circbuf_var_pop: it leaves the pop index after the bytes copied. */
    method CopyOut(dst: array<byte>, n: nat, ghost r: seq<byte>)
      requires base + size <= buffer.Length && popIndex < size && |r| + 1 < size
      requires n <= |r| && n <= dst.Length && dst != buffer
      requires forall i :: 0 <= i < |r| ==> Region()[Slot(popIndex, i + 1, size)] == r[i]
      modifies this`popIndex, dst
      ensures popIndex == Slot(old(popIndex), n + 1, size)
      ensures dst[..n] == r[..n] && dst[n..] == old(dst[..])[n..]
    {
      ghost var pop := popIndex;
      SlotIsMod(pop, 1, size);
      popIndex := (popIndex + 1) % size;
      var i := 0;
      while i < n
        invariant i <= n && popIndex == Slot(pop, i + 1, size)
        invariant dst[..i] == r[..i] && dst[i..] == old(dst[..])[i..]
      {
        assert buffer[base + popIndex] == old(Region())[Slot(pop, i + 1, size)] == r[i];
        dst[i] := buffer[base + popIndex];
        SlotIsMod(popIndex, 1, size);
        popIndex := (popIndex + 1) % size;
        i := i + 1;
      }
    }

    /** circbuf_var_drop_cur_elem. */
    method Drop() returns (ret: int)
      requires Valid()
      modifies this
      ensures Valid() && buffer == old(buffer) && base == old(base) && size == old(size)
      ensures old(records) == [] ==> ret == -QM_EINVAL && unchanged(this)
      ensures old(records) != [] ==> ret == QM_EOK && records == old(records)[1..]
    {
      if elemCnt == 0 || size == 0 {
        return -QM_EINVAL;
      }
      hide Ring, Encode, Storable, Slot;
      ghost var region := Region();
      PastHeader(region, popIndex, pushIndex, records);
      StorableRest(records);
      popIndex := (popIndex + buffer[base + popIndex] + 1) % size;
      elemCnt := elemCnt - 1;
      records := records[1..];
      assert Region() == region;
      return QM_EOK;
    }

    /** circbuf_var_cur_elem_size: the first record with its length byte. */
    method CurElemSize() returns (n: int)
      requires Valid()
      ensures n == if records == [] then -QM_EINVAL else |records[0]| + 1
    {
      hide Ring, Encode, Storable, Slot;
      if elemCnt == 0 || size == 0 {
        return -QM_EINVAL;
      }
      FirstRecord(Region(), popIndex, pushIndex, records);
      var header: int := buffer[base + popIndex % size];
      return header + 1;
    }
  }

  lemma PushedEncoding(records: seq<seq<byte>>, r: seq<byte>)
    ensures Encode(records + [r]) == Encode(records) + [|r|] + r
  {
    EncodeSum(records, [r]);
    EncodeOne(r);
    assert Encode(records) + ([|r|] + r) == Encode(records) + [|r|] + r;
  }
}
