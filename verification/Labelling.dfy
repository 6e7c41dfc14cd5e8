/** Byte automata that label each byte with the URL field it belongs to, and the slices such a
    labelling describes. Both passes of the URL splitter are instances. */
module Labelling {
  import opened Bytes

  datatype Field = Schema | UserInfo | Host | Port | Path | Query | Fragment
  {
    /** The order in which fields appear in a URL. */
    function Rank(): nat {
      match this
      case Schema => 0 case UserInfo => 1 case Host => 2 case Port => 3
      case Path => 4 case Query => 5 case Fragment => 6
    }
  }

  /** The field of a byte, or a delimiter between fields. */
  datatype Label = Delimiter | In(field: Field)

  datatype Automaton<!S> = Automaton(step: (S, byte) -> S, tag: S -> Label, level: S -> int)
  {
    function State(s: S, buf: seq<byte>): S {
      if buf == [] then s else step(State(s, buf[..|buf| - 1]), buf[|buf| - 1])
    }

    /** The label of each byte: that of the state it leads to. */
    function Labels(s: S, buf: seq<byte>): (labels: seq<Label>)
      ensures |labels| == |buf|
    {
      if buf == [] then [] else Labels(s, buf[..|buf| - 1]) + [tag(State(s, buf))]
    }
  }

  /** Fields appear in order and in one piece: no byte leads to a lower level, a field's level is its
      rank, and leaving a field for a delimiter raises the level. */
  ghost predicate Layered<S(!new)>(a: Automaton<S>) {
    && (forall s :: a.tag(s).In? ==> a.level(s) == a.tag(s).field.Rank())
    && (forall s, c :: a.level(s) <= a.level(a.step(s, c)))
    && (forall s, c :: a.tag(s).In? && a.tag(a.step(s, c)).Delimiter? ==> a.level(s) < a.level(a.step(s, c)))
  }

  // ---------------------------------------------------------------- slices of a labelling

  function Count(labels: seq<Label>, f: Field): (n: nat)
    ensures n <= |labels|
  {
    if labels == [] then 0
    else Count(labels[..|labels| - 1], f) + if labels[|labels| - 1] == In(f) then 1 else 0
  }

  predicate Has(labels: seq<Label>, f: Field) {
    Count(labels, f) > 0
  }

  /** The position of the first byte labelled `f`. */
  function First(labels: seq<Label>, f: Field): (i: nat)
    ensures i <= |labels|
  {
    if labels == [] then 0 else if labels[0] == In(f) then 0 else 1 + First(labels[1..], f)
  }

  lemma {:induction false} CountSum(a: seq<Label>, b: seq<Label>, f: Field)
    ensures Count(a + b, f) == Count(a, f) + Count(b, f)
  {
    if b == [] {
      assert a + b == a;
    } else {
      CountSum(a, b[..|b| - 1], f);
      assert (a + b)[..|a + b| - 1] == a + b[..|b| - 1];
    }
  }

  lemma {:induction false} FirstSum(a: seq<Label>, b: seq<Label>, f: Field)
    ensures First(a + b, f) == if Has(a, f) then First(a, f) else |a| + First(b, f)
  {
    if a == [] {
      assert a + b == b;
    } else {
      FirstSum(a[1..], b, f);
      assert (a + b)[1..] == a[1..] + b;
      CountSum([a[0]], a[1..], f);
      assert [a[0]] + a[1..] == a;
    }
  }

  /** Exactly the bytes labelled `f` lie between its first byte and as many bytes further. */
  ghost predicate OnePiece(labels: seq<Label>, f: Field) {
    && First(labels, f) + Count(labels, f) <= |labels|
    && forall i :: 0 <= i < |labels| ==>
         (labels[i] == In(f) <==> First(labels, f) <= i < First(labels, f) + Count(labels, f))
  }

  lemma EndOfPiece(labels: seq<Label>, f: Field)
    requires OnePiece(labels, f) && Has(labels, f)
    ensures var end := First(labels, f) + Count(labels, f);
            0 < end <= |labels| && labels[end - 1] == In(f) && (end < |labels| ==> labels[end] != In(f))
  {
  }

  ghost predicate Ordered(labels: seq<Label>) {
    forall f: Field, g: Field :: Has(labels, f) && Has(labels, g) && f.Rank() < g.Rank() ==>
      First(labels, f) + Count(labels, f) <= First(labels, g)
  }

  // ---------------------------------------------------------------- runs of a layered automaton

  lemma LastByte<S>(a: Automaton<S>, s: S, buf: seq<byte>)
    requires buf != []
    ensures var n := |buf| - 1;
            && a.State(s, buf) == a.step(a.State(s, buf[..n]), buf[n])
            && a.Labels(s, buf) == a.Labels(s, buf[..n]) + [a.tag(a.State(s, buf))]
  {
  }

  lemma NoByte<S>(a: Automaton<S>, s: S)
    ensures a.State(s, []) == s && a.Labels(s, []) == []
  {
  }

  lemma {:induction false} StateSplit<S>(a: Automaton<S>, s: S, x: seq<byte>, y: seq<byte>)
    ensures a.State(s, x + y) == a.State(a.State(s, x), y)
    ensures a.Labels(s, x + y) == a.Labels(s, x) + a.Labels(a.State(s, x), y)
  {
    hide Automaton.State, Automaton.Labels;
    if y == [] {
      assert x + y == x;
      NoByte(a, a.State(s, x));
    } else {
      var front := y[..|y| - 1];
      StateSplit(a, s, x, front);
      assert (x + y)[..|x + y| - 1] == x + front;
      LastByte(a, s, x + y);
      LastByte(a, a.State(s, x), y);
    }
  }

  /** After any input: fields seen so far rank no higher than the current level, and strictly lower
      at a delimiter; the last byte carries the current state's label. */
  lemma {:induction false} Seen<S(!new)>(a: Automaton<S>, s: S, buf: seq<byte>, f: Field)
    requires Layered(a) && a.tag(s).Delimiter?
    requires Has(a.Labels(s, buf), f)
    ensures var t := a.State(s, buf);
            f.Rank() <= a.level(t) && (a.tag(t).Delimiter? ==> f.Rank() < a.level(t))
  {
    assert buf != [];
    var n := |buf| - 1;
    var front := buf[..n];
    var u := a.State(s, front);
    assert a.State(s, buf) == a.step(u, buf[n]);
    if Has(a.Labels(s, front), f) {
      Seen(a, s, front, f);
    } else {
      assert a.Labels(s, buf)[n] == In(f);
    }
  }

  /** A field that is seen again was the label of the byte just before. */
  lemma Resumed<S(!new)>(a: Automaton<S>, s: S, buf: seq<byte>, c: byte, f: Field)
    requires Layered(a) && a.tag(s).Delimiter?
    requires Has(a.Labels(s, buf), f) && a.tag(a.step(a.State(s, buf), c)) == In(f)
    ensures a.tag(a.State(s, buf)) == In(f) && a.Labels(s, buf)[|buf| - 1] == In(f)
  {
    Seen(a, s, buf, f);
    var t := a.State(s, buf);
    assert a.level(t) <= a.level(a.step(t, c));
    assert a.tag(t).field.Rank() == f.Rank();
  }

  lemma {:induction false} Pieces<S(!new)>(a: Automaton<S>, s: S, buf: seq<byte>)
    requires Layered(a) && a.tag(s).Delimiter?
    ensures forall f: Field :: OnePiece(a.Labels(s, buf), f)
    ensures Ordered(a.Labels(s, buf))
  {
    if buf != [] {
      var n := |buf| - 1;
      var front, c := buf[..n], buf[n];
      var labels, last := a.Labels(s, front), a.tag(a.State(s, buf));
      assert a.State(s, buf) == a.step(a.State(s, front), c);
      assert a.Labels(s, buf) == labels + [last];
      Pieces(a, s, front);
      forall f: Field ensures OnePiece(labels + [last], f) {
        CountSum(labels, [last], f);
        FirstSum(labels, [last], f);
        assert OnePiece(labels, f);
        if Has(labels, f) && last == In(f) {
          Resumed(a, s, front, c, f);
        }
      }
      forall f: Field, g: Field | Has(labels + [last], f) && Has(labels + [last], g) && f.Rank() < g.Rank()
        ensures First(labels + [last], f) + Count(labels + [last], f) <= First(labels + [last], g)
      {
        OrderedStep(a, s, front, c, f, g);
      }
    }
  }

  lemma OrderedStep<S(!new)>(a: Automaton<S>, s: S, buf: seq<byte>, c: byte, f: Field, g: Field)
    requires Layered(a) && a.tag(s).Delimiter? && f.Rank() < g.Rank()
    requires Ordered(a.Labels(s, buf)) && (forall h: Field :: OnePiece(a.Labels(s, buf), h))
    requires var all := a.Labels(s, buf) + [a.tag(a.step(a.State(s, buf), c))]; Has(all, f) && Has(all, g)
    ensures var all := a.Labels(s, buf) + [a.tag(a.step(a.State(s, buf), c))];
            First(all, f) + Count(all, f) <= First(all, g)
  {
    var labels, last := a.Labels(s, buf), a.tag(a.step(a.State(s, buf), c));
    CountSum(labels, [last], f);
    FirstSum(labels, [last], f);
    FirstSum(labels, [last], g);
    assert OnePiece(labels, f);
    if last == In(f) {
      assert Has(labels, g);
      Seen(a, s, buf, g);
      assert false;
    }
  }
}
