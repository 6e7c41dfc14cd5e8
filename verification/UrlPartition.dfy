/** Every successful parse of a URL cuts the buffer into ordered, disjoint, non-empty fields, with
    nothing but delimiter characters between them. */
module UrlPartition {
  import opened Bytes
  import opened Labelling
  import opened HttpUrl

  /** One of : / ? # @ [ ] */
  predicate IsDelimiter(c: byte) {
    c == 58 || c == 47 || c == 63 || c == 35 || c == 64 || c == 91 || c == 93
  }

  predicate InSlice(s: Slice, i: nat) {
    s.off <= i < s.off + s.len
  }

  predicate Covered(fields: map<Field, Slice>, i: nat) {
    exists f: Field :: f in fields && InSlice(fields[f], i)
  }

  predicate Bounded(fields: map<Field, Slice>, lo: nat, hi: nat) {
    forall f: Field :: f in fields ==> fields[f].len > 0 && lo <= fields[f].off && fields[f].off + fields[f].len <= hi
  }

  predicate Before(s: Slice, t: Slice) {
    s.off + s.len <= t.off
  }

  predicate InOrder(fields: map<Field, Slice>) {
    forall f: Field, g: Field :: f in fields && g in fields && f.Rank() < g.Rank() ==> Before(fields[f], fields[g])
  }

  predicate RestDelimits(buf: seq<byte>, lo: nat, hi: nat, fields: map<Field, Slice>)
    requires hi <= |buf|
  {
    forall i :: lo <= i < hi && !Covered(fields, i) ==> IsDelimiter(buf[i])
  }

  /** The fields lie in `lo..hi`, non-empty, and in order; bytes of `lo..hi` outside them delimit. */
  predicate Divides(buf: seq<byte>, lo: nat, hi: nat, fields: map<Field, Slice>) {
    lo <= hi <= |buf| && Bounded(fields, lo, hi) && InOrder(fields) && RestDelimits(buf, lo, hi, fields)
  }

  // ---------------------------------------------------------------- one labelled region

  lemma SliceExact(labels: seq<Label>, lo: nat, f: Field)
    requires lo + |labels| <= 0xFFFF && OnePiece(labels, f)
    ensures f in Slices(labels, lo) <==> Has(labels, f)
    ensures f in Slices(labels, lo) ==> Slices(labels, lo)[f] == Slice(lo + First(labels, f), Count(labels, f))
  {
    SliceAt(labels, lo, f);
    StoreShrinks(lo + First(labels, f), Count(labels, f));
  }

  /** A labelling whose unlabelled bytes are delimiters divides its region. */
  lemma RegionDivides(buf: seq<byte>, lo: nat, labels: seq<Label>)
    requires lo + |labels| <= |buf| <= 0xFFFF
    requires Ordered(labels) && (forall f: Field :: OnePiece(labels, f))
    requires forall i :: 0 <= i < |labels| && labels[i].Delimiter? ==> IsDelimiter(buf[lo + i])
    ensures Divides(buf, lo, lo + |labels|, Slices(labels, lo))
    ensures forall f: Field :: f in Slices(labels, lo) <==> Has(labels, f)
  {
    hide Count, First, Slices;
    var fields := Slices(labels, lo);
    forall f: Field
      ensures f in fields <==> Has(labels, f)
      ensures f in fields ==> fields[f] == Slice(lo + First(labels, f), Count(labels, f))
    {
      assert OnePiece(labels, f);
      SliceExact(labels, lo, f);
    }
    assert Bounded(fields, lo, lo + |labels|) by {
      forall f: Field | f in fields ensures fields[f].off + fields[f].len <= lo + |labels| {
        assert OnePiece(labels, f);
      }
    }
    assert InOrder(fields) by {
      forall f: Field, g: Field | f in fields && g in fields && f.Rank() < g.Rank()
        ensures Before(fields[f], fields[g])
      {
        assert Has(labels, f) && Has(labels, g);
      }
    }
    forall i | lo <= i < lo + |labels| ensures Covered(fields, i) || IsDelimiter(buf[i]) {
      var at := labels[i - lo];
      if at.In? {
        assert OnePiece(labels, at.field);
        SomeLabel(labels, i - lo);
        assert InSlice(fields[at.field], i);
      }
    }
  }

  lemma SomeLabel(labels: seq<Label>, i: nat)
    requires i < |labels| && labels[i].In?
    ensures Has(labels, labels[i].field)
  {
    var f := labels[i].field;
    CountSum(labels[..i], labels[i..], f);
    CountSum([labels[i]], labels[i + 1..], f);
    assert labels[..i] + labels[i..] == labels;
    assert [labels[i]] + labels[i + 1..] == labels[i..];
  }

  lemma {:induction false} UrlDelimiters(s: UrlState, buf: seq<byte>, i: nat)
    requires !URL.State(s, buf).Dead? && i < |buf| && URL.Labels(s, buf)[i].Delimiter?
    ensures IsDelimiter(buf[i])
  {
    var n := |buf| - 1;
    UrlDelimiterStep(URL.State(s, buf[..n]), buf[n]);
    if i < n {
      UrlDelimiters(s, buf[..n], i);
    }
  }

  lemma UrlDelimiterStep(s: UrlState, c: byte)
    requires !UrlChar(s, c).Dead?
    ensures !s.Dead? && (UrlTag(UrlChar(s, c)).Delimiter? ==> IsDelimiter(c))
  {
  }

  lemma {:induction false} HostDelimiters(s: HostState, buf: seq<byte>, i: nat)
    requires !HOST.State(s, buf).HostDead? && i < |buf| && HOST.Labels(s, buf)[i].Delimiter?
    ensures IsDelimiter(buf[i])
  {
    var n := |buf| - 1;
    HostDelimiterStep(HOST.State(s, buf[..n]), buf[n]);
    if i < n {
      HostDelimiters(s, buf[..n], i);
    }
  }

  lemma HostDelimiterStep(s: HostState, c: byte)
    requires !HostChar(s, c).HostDead?
    ensures !s.HostDead? && (HostTag(HostChar(s, c)).Delimiter? ==> IsDelimiter(c))
  {
  }

  lemma FirstPassDivides(buf: seq<byte>, connect: bool)
    requires |buf| <= 0xFFFF && SplitFields(buf, connect).Some?
    ensures Divides(buf, 0, |buf|, SplitFields(buf, connect).value)
    ensures forall f: Field :: f in SplitFields(buf, connect).value ==> f != UserInfo && f != Port
  {
    hide UrlChar, Slices;
    var s := Start(connect);
    var labels := URL.Labels(s, buf);
    UrlPieces(buf, connect);
    forall i | 0 <= i < |labels| && labels[i].Delimiter? ensures IsDelimiter(buf[0 + i]) {
      UrlDelimiters(s, buf, i);
    }
    RegionDivides(buf, 0, labels);
    UrlFields(s, buf, UserInfo);
    UrlFields(s, buf, Port);
  }

  lemma {:induction false} UrlFields(s: UrlState, buf: seq<byte>, f: Field)
    requires f == UserInfo || f == Port
    ensures !Has(URL.Labels(s, buf), f)
  {
    if buf != [] {
      var front := buf[..|buf| - 1];
      UrlFields(s, front, f);
      OneMore(URL.Labels(s, front), UrlTag(URL.State(s, buf)), f);
    }
  }

  lemma SecondPassDivides(buf: seq<byte>, fields: map<Field, Slice>, foundAt: bool)
    requires |buf| <= 0xFFFF && Host in fields && fields[Host].off + fields[Host].len <= |buf|
    requires ParseHost(buf, fields, foundAt).Some?
    ensures var Slice(off, len) := fields[Host];
            var parts := Slices(HOST.Labels(HostStartState(foundAt), buf[off..off + len]), off);
            && Divides(buf, off, off + len, parts)
            && (forall f: Field :: f in parts ==> f == UserInfo || f == Host || f == Port) && Host in parts
  {
    hide HostChar, Slices;
    var Slice(off, len) := fields[Host];
    var server, s := buf[off..off + len], HostStartState(foundAt);
    var labels := HOST.Labels(s, server);
    BothLayered();
    Pieces(HOST, s, server);
    forall i | 0 <= i < |labels| && labels[i].Delimiter? ensures IsDelimiter(buf[off + i]) {
      HostDelimiters(s, server, i);
    }
    RegionDivides(buf, off, labels);
    HostSeen(s, server);
    HostFields(s, server);
  }

  lemma {:induction false} HostFields(s: HostState, server: seq<byte>)
    ensures forall f: Field :: Has(HOST.Labels(s, server), f) ==> f == UserInfo || f == Host || f == Port
  {
    if server != [] {
      var front := server[..|server| - 1];
      HostFields(s, front);
      forall f: Field | Has(HOST.Labels(s, server), f) ensures f == UserInfo || f == Host || f == Port {
        OneMore(HOST.Labels(s, front), HostTag(HOST.State(s, server)), f);
      }
    }
  }

  /** Replacing one slice by slices that divide it, ranked between its neighbours. */
  lemma Refine(buf: seq<byte>, fields: map<Field, Slice>, parts: map<Field, Slice>)
    requires Divides(buf, 0, |buf|, fields) && Host in fields && UserInfo !in fields && Port !in fields
    requires Divides(buf, fields[Host].off, fields[Host].off + fields[Host].len, parts)
    requires Host in parts && forall f: Field :: f in parts ==> f == UserInfo || f == Host || f == Port
    ensures Divides(buf, 0, |buf|, (fields - {Host}) + parts)
  {
    var all := (fields - {Host}) + parts;
    assert InOrder(all) by {
      forall f: Field, g: Field | f in all && g in all && f.Rank() < g.Rank() ensures Before(all[f], all[g]) {
        RefinedOrder(buf, fields, parts, f, g);
      }
    }
    forall i | 0 <= i < |buf| && !Covered(all, i) ensures IsDelimiter(buf[i]) {
      RefinedRest(buf, fields, parts, i);
    }
  }

  lemma RefinedOrder(buf: seq<byte>, fields: map<Field, Slice>, parts: map<Field, Slice>, f: Field, g: Field)
    requires InOrder(fields) && InOrder(parts) && Host in fields && UserInfo !in fields && Port !in fields
    requires Bounded(parts, fields[Host].off, fields[Host].off + fields[Host].len)
    requires Host in parts && forall h: Field :: h in parts ==> h == UserInfo || h == Host || h == Port
    requires f in (fields - {Host}) + parts && g in (fields - {Host}) + parts && f.Rank() < g.Rank()
    ensures Before(((fields - {Host}) + parts)[f], ((fields - {Host}) + parts)[g])
  {
    if f in parts && g in parts {
    } else if f in parts {
      assert Before(fields[Host], fields[g]);
    } else if g in parts {
      assert Before(fields[f], fields[Host]);
    } else {
      assert Before(fields[f], fields[g]);
    }
  }

  lemma RefinedRest(buf: seq<byte>, fields: map<Field, Slice>, parts: map<Field, Slice>, i: nat)
    requires i < |buf| && RestDelimits(buf, 0, |buf|, fields) && Host in fields
    requires fields[Host].off + fields[Host].len <= |buf|
    requires RestDelimits(buf, fields[Host].off, fields[Host].off + fields[Host].len, parts)
    requires !Covered((fields - {Host}) + parts, i) && forall f: Field :: f in parts && f in fields ==> f == Host
    ensures IsDelimiter(buf[i])
  {
    var all := (fields - {Host}) + parts;
    if InSlice(fields[Host], i) {
      assert forall f: Field :: f in parts ==> f in all && all[f] == parts[f];
      assert !Covered(parts, i);
    } else {
      assert forall f: Field :: f in fields && f != Host ==> f in all && all[f] == fields[f];
      assert !Covered(fields, i);
    }
  }

  // ---------------------------------------------------------------- the port

  /** The port slice is the server part's closing run of digits, so strtoul reads exactly it. */
  ghost predicate PortRead(buf: seq<byte>, u: Url) {
    if Port in u.fields then
      var Slice(off, len) := u.fields[Port];
      && off + len <= |buf| && (forall i :: off <= i < off + len ==> IsDigit(buf[i]))
      && u.port == Decimal(buf[off..off + len]) <= 0xFFFF
    else
      u.port == 0
  }

  lemma DigitsRun(buf: seq<byte>, off: nat, end: nat)
    requires off <= end <= |buf| && (forall i :: off <= i < end ==> IsDigit(buf[i]))
    requires end < |buf| ==> !IsDigit(buf[end])
    ensures DigitsEnd(buf, off) == end
    decreases end - off
  {
    if off < end {
      DigitsRun(buf, off + 1, end);
    }
  }

  lemma {:induction false} PortDigits(s: HostState, server: seq<byte>, i: nat)
    requires i < |server| && HOST.Labels(s, server)[i] == In(Port)
    ensures IsDigit(server[i])
  {
    var n := |server| - 1;
    if i < n {
      PortDigits(s, server[..n], i);
    } else {
      PortStep(HOST.State(s, server[..n]), server[n]);
    }
  }

  lemma PortStep(s: HostState, c: byte)
    ensures HostChar(s, c).InPort? ==> IsDigit(c)
    ensures s.InPort? ==> HostChar(s, c).InPort? || HostChar(s, c).HostDead?
  {
  }

  /** Nothing follows a port but more of it. */
  lemma {:induction false} PortLast(s: HostState, server: seq<byte>)
    requires HostTag(s).Delimiter? && Has(HOST.Labels(s, server), Port) && !HOST.State(s, server).HostDead?
    ensures HOST.State(s, server).InPort? && server != []
  {
    var n := |server| - 1;
    var front := server[..n];
    assert server != [];
    OneMore(HOST.Labels(s, front), HostTag(HOST.State(s, server)), Port);
    HostDelimiterStep(HOST.State(s, front), server[n]);
    if Has(HOST.Labels(s, front), Port) {
      PortLast(s, front);
      PortStep(HOST.State(s, front), server[n]);
    }
  }

  /** The byte after the server part, if any, is not a digit. */
  lemma ServerEnd(buf: seq<byte>, connect: bool)
    requires Has(URL.Labels(Start(connect), buf), Host)
    ensures var labels := URL.Labels(Start(connect), buf);
            var end := First(labels, Host) + Count(labels, Host);
            end < |buf| ==> !IsDigit(buf[end])
  {
    hide Count, First, Automaton.Labels, Automaton.State;
    var labels := URL.Labels(Start(connect), buf);
    var end := First(labels, Host) + Count(labels, Host);
    UrlPieces(buf, connect);
    EndOfPiece(labels, Host);
    hide OnePiece, Has;
    if end < |buf| && IsDigit(buf[end]) {
      DigitStaysInServer(Start(connect), buf, end);
    }
  }

  lemma DigitStaysInServer(s: UrlState, buf: seq<byte>, i: nat)
    requires 0 < i < |buf| && IsDigit(buf[i]) && URL.Labels(s, buf)[i - 1] == In(Host)
    ensures URL.Labels(s, buf)[i] == In(Host)
  {
    hide UrlChar;
    LabelOf(s, buf, i - 1);
    LabelOf(s, buf, i);
    NextByte(URL, s, buf, i);
    ServerDigit(URL.State(s, buf[..i]), buf[i]);
  }

  lemma ServerDigit(s: UrlState, c: byte)
    ensures UrlTag(s) == In(Host) && IsDigit(c) ==> UrlTag(UrlChar(s, c)) == In(Host)
  {
  }

  lemma LabelOf(s: UrlState, buf: seq<byte>, i: nat)
    requires i < |buf|
    ensures URL.Labels(s, buf)[i] == UrlTag(URL.State(s, buf[..i + 1]))
  {
    var n := |buf| - 1;
    if i < n {
      LabelOf(s, buf[..n], i);
      assert buf[..n][..i + 1] == buf[..i + 1];
    } else {
      assert buf[..i + 1] == buf;
    }
  }

  /** A port runs to the end of the server part. */
  lemma PortSlice(s: HostState, server: seq<byte>)
    requires HostTag(s).Delimiter? && Has(HOST.Labels(s, server), Port) && !HOST.State(s, server).HostDead?
    ensures var labels := HOST.Labels(s, server);
            && First(labels, Port) + Count(labels, Port) == |server|
            && forall i :: First(labels, Port) <= i < |server| ==> IsDigit(server[i])
  {
    hide HostChar, Count, First;
    var labels := HOST.Labels(s, server);
    BothLayered();
    Pieces(HOST, s, server);
    assert OnePiece(labels, Port);
    PortLast(s, server);
    LastIsPort(s, server);
    forall i | First(labels, Port) <= i < |server| ensures IsDigit(server[i]) {
      PortDigits(s, server, i);
    }
  }

  /** strtoul started at the port slice of a parsed server part reads that slice. */
  lemma PortIsRead(buf: seq<byte>, lo: nat, hi: nat, s: HostState)
    requires lo <= hi <= |buf| <= 0xFFFF && (hi < |buf| ==> !IsDigit(buf[hi]))
    requires HostTag(s).Delimiter? && !HOST.State(s, buf[lo..hi]).HostDead?
    requires Port in Slices(HOST.Labels(s, buf[lo..hi]), lo)
    ensures var Slice(off, len) := Slices(HOST.Labels(s, buf[lo..hi]), lo)[Port];
            && off + len == hi && (forall i :: off <= i < hi ==> IsDigit(buf[i]))
            && DigitsEnd(buf, off) == hi
  {
    hide HostChar, Has, Count, First, Slices, Store, DigitsEnd, Automaton.State, Automaton.Labels;
    var server := buf[lo..hi];
    var labels := HOST.Labels(s, server);
    SliceAt(labels, lo, Port);
    PortSlice(s, server);
    StoreShrinks(lo + First(labels, Port), Count(labels, Port));
    var off := lo + First(labels, Port);
    forall i | off <= i < hi ensures IsDigit(buf[i]) {
      assert IsDigit(server[i - lo]);
    }
    DigitsRun(buf, off, hi);
  }

  lemma LastIsPort(s: HostState, server: seq<byte>)
    requires server != [] && HOST.State(s, server).InPort?
    ensures HOST.Labels(s, server)[|server| - 1] == In(Port)
  {
  }

  // ---------------------------------------------------------------- the theorem

  /** For every buffer of at most 65535 bytes that parses: the fields are non-empty, in bounds,
      disjoint and in URL order; all other bytes are delimiters; a schema comes with a host; and
      the port is the value of its digits. */
  lemma Partition(buf: seq<byte>, connect: bool)
    requires |buf| <= 0xFFFF && ParseUrl(buf, connect).Some?
    ensures var u := ParseUrl(buf, connect).value;
            && Divides(buf, 0, |buf|, u.fields)
            && (Schema in u.fields ==> Host in u.fields)
            && (connect ==> u.fields.Keys == {Host, Port})
            && PortRead(buf, u)
  {
    hide Slices, HostChar, UrlChar, Divides;
    var fields := SplitFields(buf, connect).value;
    FirstPassDivides(buf, connect);
    if Host in fields {
      SliceInBounds(buf, connect, Host);
      HostPartition(buf, connect, FoundAt(Start(connect), buf));
    }
  }

  lemma HostPartition(buf: seq<byte>, connect: bool, foundAt: bool)
    requires |buf| <= 0xFFFF && SplitFields(buf, connect).Some? && Host in SplitFields(buf, connect).value
    requires var fields := SplitFields(buf, connect).value;
             fields[Host].off + fields[Host].len <= |buf| && ParseHost(buf, fields, foundAt).Some?
    ensures var all := ParseHost(buf, SplitFields(buf, connect).value, foundAt).value;
            && Divides(buf, 0, |buf|, all) && Host in all
            && (Port in all ==> var Slice(off, len) := all[Port];
                                && off + len <= |buf| && (forall i :: off <= i < off + len ==> IsDigit(buf[i]))
                                && DecimalAt(buf, off) == Decimal(buf[off..off + len]))
  {
    hide Slices, HostChar, UrlChar, Divides, Count, First, DecimalAt, Decimal, Automaton.State, Automaton.Labels;
    var fields := SplitFields(buf, connect).value;
    var Slice(off, len) := fields[Host];
    var parts := Slices(HOST.Labels(HostStartState(foundAt), buf[off..off + len]), off);
    FirstPassDivides(buf, connect);
    SecondPassDivides(buf, fields, foundAt);
    Refine(buf, fields, parts);
    if Port in parts {
      HostSlice(buf, connect);
      PortValue(buf, off, off + len, HostStartState(foundAt), parts[Port]);
    }
  }

  lemma PortValue(buf: seq<byte>, lo: nat, hi: nat, s: HostState, port: Slice)
    requires lo <= hi <= |buf| <= 0xFFFF && (hi < |buf| ==> !IsDigit(buf[hi]))
    requires HostTag(s).Delimiter? && !HOST.State(s, buf[lo..hi]).HostDead?
    requires var parts := Slices(HOST.Labels(s, buf[lo..hi]), lo); Port in parts && parts[Port] == port
    ensures port.off + port.len <= |buf|
    ensures forall i :: port.off <= i < port.off + port.len ==> IsDigit(buf[i])
    ensures DecimalAt(buf, port.off) == Decimal(buf[port.off..port.off + port.len])
  {
    hide Slices, HostChar, Automaton.State, Automaton.Labels, Decimal;
    PortIsRead(buf, lo, hi, s);
  }

  lemma HostSlice(buf: seq<byte>, connect: bool)
    requires |buf| <= 0xFFFF && SplitFields(buf, connect).Some? && Host in SplitFields(buf, connect).value
    ensures var Slice(off, len) := SplitFields(buf, connect).value[Host];
            off + len < |buf| ==> !IsDigit(buf[off + len])
  {
    hide UrlChar, Slices, Count, First;
    var labels := URL.Labels(Start(connect), buf);
    UrlPieces(buf, connect);
    assert OnePiece(labels, Host);
    SliceExact(labels, 0, Host);
    ServerEnd(buf, connect);
  }
}
