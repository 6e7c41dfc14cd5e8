/** http_parser_parse_url in strict mode: a first automaton cuts the URL into schema, server, path,
    query and fragment, a second one cuts the server part into user info, host and port. */
module HttpUrl {
  import opened Bytes
  import opened Labelling
  import opened Wrappers

  datatype UrlState =
    | Dead
    | SpacesBeforeUrl
    | InSchema
    | SchemaSlash
    | SchemaSlashSlash
    | ServerStart
    | Server
    | ServerWithAt
    | InPath
    | QueryStart
    | InQuery
    | FragmentStart
    | InFragment

  datatype HostState =
    | HostDead
    | UserinfoStart
    | InUserinfo
    | HostStart
    | V6Start
    | InHost
    | V6
    | V6End
    | ZoneStart
    | Zone
    | PortStart
    | InPort

  predicate IsMark(c: byte) {
    c == 45 || c == 95 || c == 46 || c == 33 || c == 126 || c == 42 || c == 39 || c == 40 || c == 41
  }

  predicate IsUserinfoChar(c: byte) {
    IsAlphanum(c) || IsMark(c) || c == 37 || c == 59 || c == 58 || c == 38 || c == 61 || c == 43 || c == 36 || c == 44
  }

  /** The strict table of ordinary URL characters: printable ASCII but for '#' and '?'. */
  predicate IsUrlChar(c: byte) {
    33 <= c <= 126 && c != 35 && c != 63
  }

  predicate IsHostChar(c: byte) {
    IsAlphanum(c) || c == 46 || c == 45
  }

  predicate IsZoneChar(c: byte) {
    IsAlphanum(c) || c == 37 || c == 46 || c == 45 || c == 95 || c == 126
  }

  function ServerChar(c: byte): UrlState {
    if c == 47 then InPath
    else if c == 63 then QueryStart
    else if c == 64 then ServerWithAt
    else if IsUserinfoChar(c) || c == 91 || c == 93 then Server
    else Dead
  }

  /** parse_url_char. */
  function UrlChar(s: UrlState, c: byte): UrlState {
    if c == SP || c == CR || c == LF || c == 9 || c == 12 then Dead
    else match s
      case Dead => Dead
      case SpacesBeforeUrl => if c == 47 || c == 42 then InPath else if IsAlpha(c) then InSchema else Dead
      case InSchema => if IsAlpha(c) then InSchema else if c == 58 then SchemaSlash else Dead
      case SchemaSlash => if c == 47 then SchemaSlashSlash else Dead
      case SchemaSlashSlash => if c == 47 then ServerStart else Dead
      case ServerWithAt => if c == 64 then Dead else ServerChar(c)
      case ServerStart => ServerChar(c)
      case Server => ServerChar(c)
      case InPath =>
        if IsUrlChar(c) then InPath else if c == 63 then QueryStart else if c == 35 then FragmentStart else Dead
      case QueryStart => QueryChar(c)
      case InQuery => QueryChar(c)
      case FragmentStart => if IsUrlChar(c) || c == 63 then InFragment else if c == 35 then FragmentStart else Dead
      case InFragment => if IsUrlChar(c) || c == 63 || c == 35 then InFragment else Dead
  }

  function QueryChar(c: byte): UrlState {
    if IsUrlChar(c) || c == 63 then InQuery else if c == 35 then FragmentStart else Dead
  }

  /** http_parse_host_char. */
  function HostChar(s: HostState, c: byte): HostState {
    match s
    case HostDead => HostDead
    case UserinfoStart => UserinfoChar(c)
    case InUserinfo => UserinfoChar(c)
    case HostStart => if c == 91 then V6Start else if IsHostChar(c) then InHost else HostDead
    case InHost => if IsHostChar(c) then InHost else if c == 58 then PortStart else HostDead
    case V6End => if c == 58 then PortStart else HostDead
    case V6 =>
      if c == 93 then V6End
      else if IsHex(c) || c == 58 || c == 46 then V6
      else if c == 37 then ZoneStart else HostDead
    case V6Start => if IsHex(c) || c == 58 || c == 46 then V6 else HostDead
    case Zone => if c == 93 then V6End else if IsZoneChar(c) then Zone else HostDead
    case ZoneStart => if IsZoneChar(c) then Zone else HostDead
    case PortStart => if IsDigit(c) then InPort else HostDead
    case InPort => if IsDigit(c) then InPort else HostDead
  }

  function UserinfoChar(c: byte): HostState {
    if c == 64 then HostStart else if IsUserinfoChar(c) then InUserinfo else HostDead
  }

  // ---------------------------------------------------------------- the two automata

  function UrlTag(s: UrlState): Label {
    match s
    case InSchema => In(Schema)
    case Server => In(Host)
    case ServerWithAt => In(Host)
    case InPath => In(Path)
    case InQuery => In(Query)
    case InFragment => In(Fragment)
    case _ => Delimiter
  }

  function UrlLevel(s: UrlState): int {
    match s
    case SpacesBeforeUrl => 0 case InSchema => 0
    case SchemaSlash => 2 case SchemaSlashSlash => 2 case ServerStart => 2 case Server => 2 case ServerWithAt => 2
    case InPath => 4
    case QueryStart => 5 case InQuery => 5
    case FragmentStart => 6 case InFragment => 6
    case Dead => 7
  }

  function HostTag(s: HostState): Label {
    match s
    case InUserinfo => In(UserInfo)
    case InHost => In(Host)
    case V6 => In(Host)
    case ZoneStart => In(Host)
    case Zone => In(Host)
    case InPort => In(Port)
    case _ => Delimiter
  }

  function HostLevel(s: HostState): int {
    match s
    case UserinfoStart => 1 case InUserinfo => 1
    case HostStart => 2 case V6Start => 2 case InHost => 2 case V6 => 2 case ZoneStart => 2 case Zone => 2
    case V6End => 3 case PortStart => 3 case InPort => 3
    case HostDead => 4
  }

  const URL: Automaton<UrlState> := Automaton(UrlChar, UrlTag, UrlLevel)
  const HOST: Automaton<HostState> := Automaton(HostChar, HostTag, HostLevel)

  lemma BothLayered()
    ensures Layered(URL) && Layered(HOST)
  {
  }

  /** States in which http_parse_host accepts the end of the server part. */
  predicate HostEnds(s: HostState) {
    s.InHost? || s.V6End? || s.InPort?
  }

  function Start(connect: bool): UrlState {
    if connect then ServerStart else SpacesBeforeUrl
  }

  function HostStartState(foundAt: bool): HostState {
    if foundAt then UserinfoStart else HostStart
  }

  predicate FoundAt(s: UrlState, buf: seq<byte>) {
    buf != [] && (URL.State(s, buf).ServerWithAt? || FoundAt(s, buf[..|buf| - 1]))
  }

  // ---------------------------------------------------------------- what the splitter computes

  /** A field's slice of the buffer; both halves are stored in 16 bits. */
  datatype Slice = Slice(off: nat, len: nat)

  function Store(off: nat, len: nat): Slice {
    Slice(off % 0x10000, len % 0x10000)
  }

  /** The fields a labelling marks, each with its first byte and its number of bytes. */
  function Slices(labels: seq<Label>, base: nat): map<Field, Slice> {
    map f: Field | Has(labels, f) :: Store(base + First(labels, f), Count(labels, f))
  }

  datatype Url = Url(fields: map<Field, Slice>, port: nat)

  /** The value of the digits starting at `off`, as strtoul reads them. */
  function DecimalAt(buf: seq<byte>, off: nat): nat {
    Decimal(buf[Min(off, |buf|)..DigitsEnd(buf, Min(off, |buf|))])
  }

  function Min(a: nat, b: nat): nat {
    if a < b then a else b
  }

  function DigitsEnd(buf: seq<byte>, i: nat): (end: nat)
    requires i <= |buf|
    ensures i <= end <= |buf|
    ensures forall k :: i <= k < end ==> IsDigit(buf[k])
    ensures end < |buf| ==> !IsDigit(buf[end])
    decreases |buf| - i
  {
    if i == |buf| || !IsDigit(buf[i]) then i else DigitsEnd(buf, i + 1)
  }

  function Decimal(digits: seq<byte>): nat
    requires forall i :: 0 <= i < |digits| ==> IsDigit(digits[i])
  {
    if digits == [] then 0
    else
      assert IsDigit(digits[|digits| - 1]);
      var last: int := digits[|digits| - 1];
      Decimal(digits[..|digits| - 1]) * 10 + (last - 48)
  }

  function SplitFields(buf: seq<byte>, connect: bool): Option<map<Field, Slice>> {
    if URL.State(Start(connect), buf).Dead? then None else Some(Slices(URL.Labels(Start(connect), buf), 0))
  }

  function ParseHost(buf: seq<byte>, fields: map<Field, Slice>, foundAt: bool): Option<map<Field, Slice>>
    requires Host in fields && fields[Host].off + fields[Host].len <= |buf|
  {
    var Slice(off, len) := fields[Host];
    var server := buf[off..off + len];
    if !HostEnds(HOST.State(HostStartState(foundAt), server)) then None
    else Some((fields - {Host}) + Slices(HOST.Labels(HostStartState(foundAt), server), off))
  }

  /** The connect and port checks at the end of http_parser_parse_url. */
  function Finish(buf: seq<byte>, fields: map<Field, Slice>, connect: bool): Option<Url> {
    if connect && fields.Keys != {Host, Port} then None
    else if Port !in fields then Some(Url(fields, 0))
    else
      var v := DecimalAt(buf, fields[Port].off);
      if v > 0xFFFF then None else Some(Url(fields, v))
  }

  function ParseUrl(buf: seq<byte>, connect: bool): Option<Url> {
    match SplitFields(buf, connect)
    case None => None
    case Some(fields) =>
      if Schema in fields && Host !in fields then None
      else if Host !in fields then Finish(buf, fields, connect)
      else
        SliceInBounds(buf, connect, Host);
        match ParseHost(buf, fields, FoundAt(Start(connect), buf))
        case None => None
        case Some(all) => Finish(buf, all, connect)
  }

  lemma SliceInBounds(buf: seq<byte>, connect: bool, f: Field)
    requires var r := SplitFields(buf, connect); r.Some? && f in r.value
    ensures var s := SplitFields(buf, connect).value[f]; s.off + s.len <= |buf|
  {
    UrlPieces(buf, connect);
    var labels := URL.Labels(Start(connect), buf);
    assert OnePiece(labels, f);
    StoreShrinks(First(labels, f), Count(labels, f));
  }

  lemma UrlPieces(buf: seq<byte>, connect: bool)
    ensures forall f: Field :: OnePiece(URL.Labels(Start(connect), buf), f)
    ensures Ordered(URL.Labels(Start(connect), buf))
  {
    BothLayered();
    Pieces(URL, Start(connect), buf);
  }

  lemma StoreShrinks(off: nat, len: nat)
    ensures Store(off, len).off <= off && Store(off, len).len <= len
    ensures off <= 0xFFFF && len <= 0xFFFF ==> Store(off, len) == Slice(off, len)
  {
  }

  // ---------------------------------------------------------------- the loops

  lemma OneMore(labels: seq<Label>, last: Label, f: Field)
    ensures Has(labels + [last], f) <==> Has(labels, f) || last == In(f)
    ensures Count(labels + [last], f) == Count(labels, f) + if last == In(f) then 1 else 0
    ensures Has(labels, f) ==> First(labels + [last], f) == First(labels, f)
    ensures !Has(labels, f) && last == In(f) ==> First(labels + [last], f) == |labels| && Count(labels, f) == 0
  {
    CountSum(labels, [last], f);
    FirstSum(labels, [last], f);
  }

  /** A delimiter changes no slice. */
  lemma SameSlices(labels: seq<Label>, base: nat)
    ensures Slices(labels + [Delimiter], base) == Slices(labels, base)
  {
    hide Store;
    forall f: Field ensures Has(labels + [Delimiter], f) <==> Has(labels, f)
      ensures Count(labels + [Delimiter], f) == Count(labels, f)
      ensures Has(labels, f) ==> First(labels + [Delimiter], f) == First(labels, f)
    {
      OneMore(labels, Delimiter, f);
    }
  }

  /** One more byte of field `g`, seen before or new. */
  lemma GrowSlices(labels: seq<Label>, base: nat, g: Field)
    ensures var slices := Slices(labels, base);
            Slices(labels + [In(g)], base) ==
            slices[g := if g in slices then Store(base + First(labels, g), Count(labels, g) + 1)
                        else Store(base + |labels|, 1)]
  {
    hide Store, Count, First, Slices;
    var slices, slices' := Slices(labels, base), Slices(labels + [In(g)], base);
    var grown := slices[g := if g in slices then Store(base + First(labels, g), Count(labels, g) + 1)
                             else Store(base + |labels|, 1)];
    forall f: Field ensures f in slices' <==> f in grown
      ensures f in slices' ==> slices'[f] == grown[f]
    {
      GrowAt(labels, base, g, f);
    }
  }

  lemma GrowAt(labels: seq<Label>, base: nat, g: Field, f: Field)
    ensures var slices, slices' := Slices(labels, base), Slices(labels + [In(g)], base);
            && (f in slices' <==> f == g || f in slices)
            && (f != g && f in slices ==> slices'[f] == slices[f])
            && (f == g && f in slices ==> slices'[f] == Store(base + First(labels, g), Count(labels, g) + 1))
            && (f == g && f !in slices ==> slices'[f] == Store(base + |labels|, 1))
  {
    hide Store, Count, First, Slices;
    OneMore(labels, In(g), f);
    SliceAt(labels, base, f);
    SliceAt(labels + [In(g)], base, f);
  }

  lemma SliceAt(labels: seq<Label>, base: nat, f: Field)
    ensures f in Slices(labels, base) <==> Has(labels, f)
    ensures f in Slices(labels, base) ==> Slices(labels, base)[f] == Store(base + First(labels, f), Count(labels, f))
  {
  }

  /** The slice of a field with one byte more, from its stored form. */
  function Longer(s: Slice): Slice {
    s.(len := (s.len + 1) % 0x10000)
  }

  lemma LongerStored(off: nat, n: nat)
    ensures Longer(Store(off, n)) == Store(off, n + 1)
  {
    IncrementStored(n);
  }

  lemma IncrementStored(n: nat)
    ensures (n % 0x10000 + 1) % 0x10000 == (n + 1) % 0x10000
  {
  }

  lemma {:induction false} DeadStays(buf: seq<byte>, rest: seq<byte>, s: UrlState)
    requires URL.State(s, buf).Dead?
    ensures URL.State(s, buf + rest).Dead?
  {
    if rest == [] {
      assert buf + rest == buf;
    } else {
      DeadStays(buf, rest[..|rest| - 1], s);
      assert (buf + rest)[..|buf + rest| - 1] == buf + rest[..|rest| - 1];
    }
  }

  lemma NextByte<S>(a: Automaton<S>, s: S, buf: seq<byte>, p: nat)
    requires p < |buf|
    ensures a.State(s, buf[..p + 1]) == a.step(a.State(s, buf[..p]), buf[p])
    ensures a.Labels(s, buf[..p + 1]) == a.Labels(s, buf[..p]) + [a.tag(a.State(s, buf[..p + 1]))]
  {
    assert buf[..p + 1][..p] == buf[..p];
  }

  /** Where the first loop stands after `p` bytes. */
  ghost predicate Scanned(s0: UrlState, buf: seq<byte>, p: nat, s: UrlState, fields: map<Field, Slice>, foundAt: bool,
                          previous: Label)
  {
    && p <= |buf| && UrlTag(s0).Delimiter? && s == URL.State(s0, buf[..p])
    && fields == Slices(URL.Labels(s0, buf[..p]), 0) && foundAt == FoundAt(s0, buf[..p])
    && (previous.In? ==> Has(URL.Labels(s0, buf[..p]), previous.field))
    && (UrlTag(s).In? ==> previous == UrlTag(s))
  }

  /** The first loop: note the field of every byte as the automaton goes. */
  method ScanFields(buf: seq<byte>, connect: bool) returns (ok: bool, fields: map<Field, Slice>, foundAt: bool)
    ensures ok <==> SplitFields(buf, connect).Some?
    ensures ok ==> fields == SplitFields(buf, connect).value && foundAt == FoundAt(Start(connect), buf)
  {
    hide UrlChar, UrlTag, Slices, FoundAt, Has, Automaton.State, Automaton.Labels;
    var s, previous, p := Start(connect), Delimiter, 0;
    fields, foundAt := map[], false;
    ghost var s0 := s;
    NothingScanned(s0, buf);
    while p < |buf|
      invariant Scanned(s0, buf, p, s, fields, foundAt, previous) && !s.Dead?
      decreases |buf| - p
    {
      s, fields, foundAt, previous := ScanByte(s0, buf, p, s, fields, foundAt, previous);
      p := p + 1;
      if s.Dead? {
        DeadStays(buf[..p], buf[p..], s0);
        assert buf[..p] + buf[p..] == buf;
        return false, fields, foundAt;
      }
    }
    assert buf[..p] == buf;
    ok := true;
  }

  /** One turn of it. */
  method ScanByte(ghost s0: UrlState, buf: seq<byte>, p: nat, s: UrlState, fields: map<Field, Slice>, foundAt: bool,
                  previous: Label) returns (t: UrlState, fields': map<Field, Slice>, foundAt': bool, previous': Label)
    requires p < |buf| && Scanned(s0, buf, p, s, fields, foundAt, previous)
    ensures Scanned(s0, buf, p + 1, t, fields', foundAt', previous')
  {
    hide UrlChar, UrlTag, Slices, FoundAt, Has, Automaton.State, Automaton.Labels;
    ScanStep(s0, buf, p, previous);
    t := UrlChar(s, buf[p]);
    foundAt' := foundAt || t.ServerWithAt?;
    var current := UrlTag(t);
    fields' := Note(URL.Labels(s0, buf[..p]), fields, current, previous, p);
    previous' := if current.In? then current else previous;
  }

  /** What one byte more means for the state, the labels, the at sign and the fields seen. */
  lemma ScanStep(s0: UrlState, buf: seq<byte>, p: nat, previous: Label)
    requires p < |buf| && UrlTag(s0).Delimiter?
    requires previous.In? ==> Has(URL.Labels(s0, buf[..p]), previous.field)
    requires UrlTag(URL.State(s0, buf[..p])).In? ==> previous == UrlTag(URL.State(s0, buf[..p]))
    ensures var t, labels := UrlChar(URL.State(s0, buf[..p]), buf[p]), URL.Labels(s0, buf[..p]);
            && URL.State(s0, buf[..p + 1]) == t && URL.Labels(s0, buf[..p + 1]) == labels + [UrlTag(t)]
            && (FoundAt(s0, buf[..p + 1]) <==> FoundAt(s0, buf[..p]) || t.ServerWithAt?)
            && (UrlTag(t).In? ==> (Has(labels, UrlTag(t).field) <==> UrlTag(t) == previous))
            && (previous.In? ==> Has(labels + [UrlTag(t)], previous.field))
            && (UrlTag(t).In? ==> Has(labels + [UrlTag(t)], UrlTag(t).field))
  {
    hide UrlChar, UrlTag, FoundAt, Has, Automaton.State, Automaton.Labels;
    NextByte(URL, s0, buf, p);
    FoundNext(s0, buf, p);
    NoteSeen(s0, buf, p, previous);
    FieldKnown(s0, buf[..p], buf[p], previous);
  }

  lemma FoundNext(s: UrlState, buf: seq<byte>, p: nat)
    requires p < |buf|
    ensures FoundAt(s, buf[..p + 1]) <==> FoundAt(s, buf[..p]) || URL.State(s, buf[..p + 1]).ServerWithAt?
  {
    assert buf[..p + 1][..p] == buf[..p];
  }

  /** The field of the last labelled byte has been seen. */
  lemma NoteSeen(s: UrlState, buf: seq<byte>, p: nat, previous: Label)
    requires p < |buf| && (previous.In? ==> Has(URL.Labels(s, buf[..p]), previous.field))
    ensures var labels, last := URL.Labels(s, buf[..p + 1]), UrlTag(URL.State(s, buf[..p + 1]));
            && (previous.In? ==> Has(labels, previous.field)) && (last.In? ==> Has(labels, last.field))
  {
    hide UrlChar, UrlTag, Automaton.State, Automaton.Labels;
    NextByte(URL, s, buf, p);
    var last := UrlTag(URL.State(s, buf[..p + 1]));
    if previous.In? {
      OneMore(URL.Labels(s, buf[..p]), last, previous.field);
    }
    if last.In? {
      OneMore(URL.Labels(s, buf[..p]), last, last.field);
    }
  }

  lemma NothingScanned(s: UrlState, buf: seq<byte>)
    requires s.ServerStart? || s.SpacesBeforeUrl?
    ensures Scanned(s, buf, 0, s, map[], false, Delimiter)
  {
    assert buf[..0] == [];
  }

  /** Extend the field of the previous byte, or open a new one. */
  method Note(ghost labels: seq<Label>, fields: map<Field, Slice>, current: Label, previous: Label, p: nat)
      returns (fields': map<Field, Slice>)
    requires fields == Slices(labels, 0) && |labels| == p
    requires current.In? ==> (Has(labels, current.field) <==> current == previous)
    ensures fields' == Slices(labels + [current], 0)
  {
    if current.Delimiter? {
      SameSlices(labels, 0);
      fields' := fields;
    } else {
      GrowSlices(labels, 0, current.field);
      hide Store, Longer;
      if current == previous {
        LongerStored(First(labels, current.field), Count(labels, current.field));
        fields' := fields[current.field := Longer(fields[current.field])];
      } else {
        fields' := fields[current.field := Store(p, 1)];
      }
    }
  }

  /** The field the next byte belongs to has been seen exactly when it is the last one noted. */
  lemma FieldKnown(s0: UrlState, buf: seq<byte>, c: byte, previous: Label)
    requires UrlTag(s0).Delimiter?
    requires previous.In? ==> Has(URL.Labels(s0, buf), previous.field)
    requires UrlTag(URL.State(s0, buf)).In? ==> previous == UrlTag(URL.State(s0, buf))
    ensures var next := UrlTag(UrlChar(URL.State(s0, buf), c));
            next.In? ==> (Has(URL.Labels(s0, buf), next.field) <==> next == previous)
  {
    var next := UrlTag(UrlChar(URL.State(s0, buf), c));
    if next.In? && Has(URL.Labels(s0, buf), next.field) {
      BothLayered();
      Resumed(URL, s0, buf, c, next.field);
    }
  }

  // ---------------------------------------------------------------- the server part

  predicate PastStart(s: HostState) {
    s.InHost? || s.V6? || s.ZoneStart? || s.Zone? || s.V6End? || s.PortStart? || s.InPort?
  }

  lemma PastStartStep(s: HostState, c: byte)
    ensures PastStart(HostChar(s, c)) ==> PastStart(s) || HostTag(HostChar(s, c)) == In(Host)
  {
  }

  /** Once the host automaton is past its start, some byte was labelled as host. */
  lemma {:induction false} HostSeen(s0: HostState, server: seq<byte>)
    requires s0.HostStart? || s0.UserinfoStart?
    ensures PastStart(HOST.State(s0, server)) ==> Has(HOST.Labels(s0, server), Host)
  {
    hide HostChar, Has, Count;
    if server != [] {
      var n := |server| - 1;
      HostSeen(s0, server[..n]);
      PastStartStep(HOST.State(s0, server[..n]), server[n]);
      OneMore(HOST.Labels(s0, server[..n]), HostTag(HOST.State(s0, server)), Host);
    }
  }

  /** Entering a field again from another state never happens, so a field's first byte is where the
      automaton enters its first state. */
  lemma HostEntered(s0: HostState, server: seq<byte>, c: byte)
    requires s0.HostStart? || s0.UserinfoStart?
    ensures var s, labels := HOST.State(s0, server), HOST.Labels(s0, server);
            var t := HostChar(s, c);
            && (t.InHost? ==> (Has(labels, Host) <==> s.InHost?))
            && (t.V6? ==> (Has(labels, Host) <==> s.V6?))
            && (t.ZoneStart? || t.Zone? ==> Has(labels, Host))
            && (t.InPort? ==> (Has(labels, Port) <==> s.InPort?))
            && (t.InUserinfo? ==> (Has(labels, UserInfo) <==> s.InUserinfo?))
  {
    hide HostChar, HostTag, Has, Automaton.State, Automaton.Labels;
    ResumedIff(s0, server, c);
    EnteredFrom(HOST.State(s0, server), c);
  }

  /** A field of the server part has been seen exactly when the byte before belongs to it. */
  lemma ResumedIff(s0: HostState, server: seq<byte>, c: byte)
    requires s0.HostStart? || s0.UserinfoStart?
    ensures var s, t := HOST.State(s0, server), HostChar(HOST.State(s0, server), c);
            HostTag(t).In? ==> (Has(HOST.Labels(s0, server), HostTag(t).field) <==> HostTag(s) == HostTag(t))
  {
    hide HostChar, Has, Automaton.State, Automaton.Labels;
    var s, labels := HOST.State(s0, server), HOST.Labels(s0, server);
    var t := HostChar(s, c);
    BothLayered();
    if HostTag(t).In? {
      var f := HostTag(t).field;
      if Has(labels, f) {
        Resumed(HOST, s0, server, c, f);
      } else if HostTag(s) == In(f) {
        LastLabel(s0, server, f);
      }
    }
  }

  lemma EnteredFrom(s: HostState, c: byte)
    ensures var t := HostChar(s, c);
            && (t.InHost? ==> HostTag(t) == In(Host) && (HostTag(s) == In(Host) <==> s.InHost?))
            && (t.V6? ==> HostTag(t) == In(Host) && (HostTag(s) == In(Host) <==> s.V6?))
            && (t.ZoneStart? || t.Zone? ==> HostTag(t) == HostTag(s) == In(Host))
            && (t.InPort? ==> HostTag(t) == In(Port) && (HostTag(s) == In(Port) <==> s.InPort?))
            && (t.InUserinfo? ==> HostTag(t) == In(UserInfo) && (HostTag(s) == In(UserInfo) <==> s.InUserinfo?))
  {
  }

  lemma LastLabel(s0: HostState, server: seq<byte>, f: Field)
    requires HostTag(s0).Delimiter? && HostTag(HOST.State(s0, server)) == In(f)
    ensures Has(HOST.Labels(s0, server), f)
  {
    assert server != [];
    OneMore(HOST.Labels(s0, server[..|server| - 1]), In(f), f);
  }

  lemma {:induction false} HostDeadStays(buf: seq<byte>, rest: seq<byte>, s: HostState)
    requires HOST.State(s, buf).HostDead?
    ensures HOST.State(s, buf + rest).HostDead?
  {
    if rest == [] {
      assert buf + rest == buf;
    } else {
      HostDeadStays(buf, rest[..|rest| - 1], s);
      assert (buf + rest)[..|buf + rest| - 1] == buf + rest[..|rest| - 1];
    }
  }

  /** The second loop, over the server part: `fields` keeps a host slice of length zero until the
      host itself begins. */
  method ScanHost(buf: seq<byte>, fields0: map<Field, Slice>, foundAt: bool)
      returns (ok: bool, fields: map<Field, Slice>)
    requires Host in fields0 && fields0[Host].off + fields0[Host].len <= |buf|
    ensures ok <==> ParseHost(buf, fields0, foundAt).Some?
    ensures ok ==> fields == ParseHost(buf, fields0, foundAt).value
  {
    hide HostChar, Slices, Has, Automaton.State, Automaton.Labels;
    var Slice(off, len) := fields0[Host];
    ghost var base := fields0[Host := Slice(off, 0)];
    ghost var server := buf[off..off + len];
    var s := HostStartState(foundAt);
    ghost var s0 := s;
    fields := fields0[Host := Slice(off, 0)];
    var p := off;
    NothingScannedHost(s0, server, off);
    while p < off + len
      invariant off <= p <= off + len
      invariant s == HOST.State(s0, server[..p - off]) && !s.HostDead?
      invariant fields == base + Slices(HOST.Labels(s0, server[..p - off]), off)
    {
      ghost var i := p - off;
      ghost var labels := HOST.Labels(s0, server[..i]);
      NextByte(HOST, s0, server, i);
      HostEntered(s0, server[..i], buf[p]);
      var t := HostChar(s, buf[p]);
      if t.HostDead? {
        HostDeadStays(server[..i + 1], server[i + 1..], s0);
        assert server[..i + 1] + server[i + 1..] == server;
        return false, fields;
      }
      fields := NoteHost(labels, base, off, fields, s, t, p);
      s := t;
      p := p + 1;
    }
    assert server[..len] == server;
    HostSeen(s0, server);
    ok := HostEnds(s);
    if ok {
      SliceAt(HOST.Labels(s0, server), off, Host);
      ReplaceHost(fields0, Slices(HOST.Labels(s0, server), off), off);
    }
  }

  lemma NothingScannedHost(s: HostState, server: seq<byte>, base: nat)
    ensures server[..0] == [] && HOST.State(s, server[..0]) == s && HOST.Labels(s, server[..0]) == []
    ensures Slices(HOST.Labels(s, server[..0]), base) == map[]
  {
  }

  lemma ReplaceHost(fields0: map<Field, Slice>, slices: map<Field, Slice>, off: nat)
    requires Host in slices
    ensures fields0[Host := Slice(off, 0)] + slices == (fields0 - {Host}) + slices
  {
  }

  /** The switch of the second loop. */
  method NoteHost(ghost labels: seq<Label>, ghost base: map<Field, Slice>, ghost off: nat,
                  fields: map<Field, Slice>, s: HostState, t: HostState, p: nat) returns (fields': map<Field, Slice>)
    requires Host in base && fields == base + Slices(labels, off) && |labels| == p - off
    requires base[Host].len == 0
    requires t.InHost? ==> (Has(labels, Host) <==> s.InHost?)
    requires t.V6? ==> (Has(labels, Host) <==> s.V6?)
    requires t.ZoneStart? || t.Zone? ==> Has(labels, Host)
    requires t.InPort? ==> (Has(labels, Port) <==> s.InPort?)
    requires t.InUserinfo? ==> (Has(labels, UserInfo) <==> s.InUserinfo?)
    ensures fields' == base + Slices(labels + [HostTag(t)], off)
  {
    hide Slices, Longer;
    fields' := fields;
    if HostTag(t).Delimiter? {
      SameSlices(labels, off);
      return;
    }
    var f := HostTag(t).field;
    GrowSlices(labels, off, f);
    SliceAt(labels, off, f);
    LongerStored(off + First(labels, f), Count(labels, f));
    LongerStored(p, 0);
    match t
    case InHost =>
      if !s.InHost? {
        fields' := fields'[Host := fields'[Host].(off := p % 0x10000)];
      }
      fields' := fields'[Host := Longer(fields'[Host])];
    case V6 =>
      if !s.V6? {
        fields' := fields'[Host := fields'[Host].(off := p % 0x10000)];
      }
      fields' := fields'[Host := Longer(fields'[Host])];
    case ZoneStart => fields' := fields'[Host := Longer(fields'[Host])];
    case Zone => fields' := fields'[Host := Longer(fields'[Host])];
    case InPort =>
      if !s.InPort? {
        fields' := fields'[Port := Store(p, 0)];
      }
      fields' := fields'[Port := Longer(fields'[Port])];
    case InUserinfo =>
      if !s.InUserinfo? {
        fields' := fields'[UserInfo := Store(p, 0)];
      }
      fields' := fields'[UserInfo := Longer(fields'[UserInfo])];
  }

  /** http_parser_parse_url. */
  method Parse(buf: seq<byte>, connect: bool) returns (r: Option<Url>)
    ensures r == ParseUrl(buf, connect)
  {
    var ok, fields, foundAt := ScanFields(buf, connect);
    if !ok || (Schema in fields && Host !in fields) {
      return None;
    }
    if Host in fields {
      SliceInBounds(buf, connect, Host);
      ok, fields := ScanHost(buf, fields, foundAt);
      if !ok {
        return None;
      }
    }
    r := Finish(buf, fields, connect);
  }
}
