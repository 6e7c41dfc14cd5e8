/** Every buffer with a server part that parses is the printing of some parts: the converse of the URL
    round trip. Each automaton is followed byte by byte, keeping the parts read so far. */
module UrlConverse {
  import opened Bytes
  import opened Labelling
  import opened HttpUrl
  import opened UrlPartition
  import opened UrlRoundTrip
  import opened Wrappers

  function Mark(present: bool, c: byte): seq<byte> {
    if present then [c] else []
  }

  // ---------------------------------------------------------------- the server part

  /** What the host automaton has read: user info and its at sign, an opening bracket, the host, a zone, a
      closing bracket, a colon and the port. */
  datatype Inner = Inner(user: seq<byte>, at: bool, open: bool, host: seq<byte>, zone: Option<seq<byte>>,
                         closed: bool, colon: bool, port: seq<byte>)

  function ZoneText(zone: Option<seq<byte>>): seq<byte> {
    if zone.Some? then [37] + zone.value else []
  }

  function HostPart(i: Inner): seq<byte> {
    Mark(i.open, 91) + i.host + ZoneText(i.zone) + Mark(i.closed, 93)
  }

  function InnerText(i: Inner): seq<byte> {
    (i.user + Mark(i.at, 64)) + HostPart(i) + (Mark(i.colon, 58) + i.port)
  }

  const NOTHING: Inner := Inner([], false, false, [], None, false, false, [])

  /** A host that may be followed by a port, or by nothing. */
  predicate HostDone(i: Inner) {
    if i.open then Word(i.host, IsV6Char) && (i.zone.Some? ==> Word(i.zone.value, IsZoneChar)) && i.closed
    else Word(i.host, IsHostChar) && i.zone.None? && !i.closed
  }

  /** The parts read when the automaton, started for user info or not, is in state `s`. */
  predicate HostFits(i: Inner, foundAt: bool, s: HostState) {
    && AllOf(i.user, IsUserinfoChar) && (i.user != [] ==> foundAt)
    && match s
       case HostDead => false
       case UserinfoStart => foundAt && i == NOTHING
       case InUserinfo => foundAt && i.user != [] && i == NOTHING.(user := i.user)
       case HostStart => i == NOTHING.(user := i.user, at := foundAt)
       case V6Start => i == NOTHING.(user := i.user, at := foundAt, open := true)
       case InHost => i == NOTHING.(user := i.user, at := foundAt, host := i.host) && Word(i.host, IsHostChar)
       case V6 =>
         i == NOTHING.(user := i.user, at := foundAt, open := true, host := i.host) && Word(i.host, IsV6Char)
       case ZoneStart =>
         && i == NOTHING.(user := i.user, at := foundAt, open := true, host := i.host, zone := Some([]))
         && Word(i.host, IsV6Char)
       case Zone =>
         && i == NOTHING.(user := i.user, at := foundAt, open := true, host := i.host, zone := i.zone)
         && Word(i.host, IsV6Char) && i.zone.Some? && Word(i.zone.value, IsZoneChar)
       case V6End => i.at == foundAt && i.open && HostDone(i) && !i.colon && i.port == []
       case PortStart => i.at == foundAt && HostDone(i) && i.colon && i.port == []
       case InPort => i.at == foundAt && HostDone(i) && i.colon && Word(i.port, IsDigit)
  }

  function HostTaken(i: Inner, t: HostState, c: byte): Inner {
    match t
    case InUserinfo => i.(user := i.user + [c])
    case HostStart => i.(at := true)
    case V6Start => i.(open := true)
    case InHost => i.(host := i.host + [c])
    case V6 => i.(host := i.host + [c])
    case ZoneStart => i.(zone := Some([]))
    case Zone => i.(zone := Some((if i.zone.Some? then i.zone.value else []) + [c]))
    case V6End => i.(closed := true)
    case PortStart => i.(colon := true)
    case InPort => i.(port := i.port + [c])
    case _ => i
  }

  /** The byte that led to `t` is the one its mark stands for, and the mark was not set. */
  predicate Spelled(i: Inner, t: HostState, c: byte) {
    && (t.HostStart? ==> !i.at && c == 64) && (t.V6Start? ==> !i.open && c == 91)
    && (t.ZoneStart? ==> i.zone.None? && c == 37) && (t.Zone? ==> i.zone.Some?)
    && (t.V6End? ==> !i.closed && c == 93) && (t.PortStart? ==> !i.colon && c == 58)
  }

  predicate HostNext(i: Inner, foundAt: bool, t: HostState, c: byte) {
    HostFits(HostTaken(i, t, c), foundAt, t) && Spelled(i, t, c)
  }

  lemma FromUser(i: Inner, foundAt: bool, s: HostState, c: byte)
    requires HostFits(i, foundAt, s) && !HostChar(s, c).HostDead? && (s.UserinfoStart? || s.InUserinfo? || s.HostStart?)
    ensures HostNext(i, foundAt, HostChar(s, c), c)
  {
    if s.HostStart? {
      assert i.host == [] && [] + [c] == [c];
    }
  }

  lemma FromBrackets(i: Inner, foundAt: bool, s: HostState, c: byte)
    requires HostFits(i, foundAt, s) && !HostChar(s, c).HostDead? && (s.V6Start? || s.V6? || s.ZoneStart? || s.Zone?)
    ensures HostNext(i, foundAt, HostChar(s, c), c)
  {
  }

  lemma FromHost(i: Inner, foundAt: bool, s: HostState, c: byte)
    requires HostFits(i, foundAt, s) && !HostChar(s, c).HostDead?
    requires s.InHost? || s.V6End? || s.PortStart? || s.InPort?
    ensures HostNext(i, foundAt, HostChar(s, c), c)
  {
  }

  /** One element more at the end of a sequence of three parts. */
  lemma OneMoreAtEnd<T>(a: seq<T>, b: seq<T>, c: seq<T>, x: T)
    ensures a + b + (c + [x]) == a + b + c + [x]
    ensures c == [] ==> a + (b + [x]) + c == a + b + c + [x]
    ensures b == c == [] ==> (a + [x]) + b + c == a + b + c + [x]
  {
  }

  lemma HostPartMore(i: Inner, foundAt: bool, t: HostState, c: byte)
    requires HostNext(i, foundAt, t, c) && (t.V6Start? || t.InHost? || t.V6? || t.ZoneStart? || t.Zone? || t.V6End?)
    ensures HostPart(HostTaken(i, t, c)) == HostPart(i) + [c] && !i.colon && i.port == []
    ensures HostTaken(i, t, c).user == i.user && HostTaken(i, t, c).at == i.at
    ensures HostTaken(i, t, c).colon == i.colon && HostTaken(i, t, c).port == i.port
  {
    match t
    case Zone =>
      var z := if i.zone.Some? then i.zone.value else [];
      assert [37] + (z + [c]) == ([37] + z) + [c];
    case _ =>
  }

  lemma UserPartMore(i: Inner, foundAt: bool, t: HostState, c: byte)
    requires HostNext(i, foundAt, t, c) && (t.InUserinfo? || t.HostStart?)
    ensures var j := HostTaken(i, t, c); j.user + Mark(j.at, 64) == (i.user + Mark(i.at, 64)) + [c]
    ensures HostPart(i) == HostPart(HostTaken(i, t, c)) == [] && !i.colon && i.port == []
    ensures HostTaken(i, t, c).colon == i.colon && HostTaken(i, t, c).port == i.port
  {
  }

  lemma PortPartMore(i: Inner, foundAt: bool, t: HostState, c: byte)
    requires HostNext(i, foundAt, t, c) && (t.PortStart? || t.InPort?)
    ensures var j := HostTaken(i, t, c);
            && Mark(j.colon, 58) + j.port == (Mark(i.colon, 58) + i.port) + [c]
            && j.user == i.user && j.at == i.at && HostPart(j) == HostPart(i)
  {
  }

  lemma HostTextMore(i: Inner, foundAt: bool, t: HostState, c: byte)
    requires HostNext(i, foundAt, t, c) && !t.UserinfoStart? && !t.HostDead?
    ensures InnerText(HostTaken(i, t, c)) == InnerText(i) + [c]
  {
    hide HostNext, HostTaken, HostPart;
    OneMoreAtEnd(i.user + Mark(i.at, 64), HostPart(i), Mark(i.colon, 58) + i.port, c);
    if t.InUserinfo? || t.HostStart? {
      UserPartMore(i, foundAt, t, c);
    } else if t.PortStart? || t.InPort? {
      PortPartMore(i, foundAt, t, c);
    } else {
      HostPartMore(i, foundAt, t, c);
    }
  }

  lemma HostStep(i: Inner, foundAt: bool, s: HostState, c: byte)
    requires HostFits(i, foundAt, s) && !HostChar(s, c).HostDead?
    ensures HostFits(HostTaken(i, HostChar(s, c), c), foundAt, HostChar(s, c))
    ensures InnerText(HostTaken(i, HostChar(s, c), c)) == InnerText(i) + [c]
  {
    NotBack(s, c);
    if s.UserinfoStart? || s.InUserinfo? || s.HostStart? {
      FromUser(i, foundAt, s, c);
    } else if s.InHost? || s.V6End? || s.PortStart? || s.InPort? {
      FromHost(i, foundAt, s, c);
    } else {
      FromBrackets(i, foundAt, s, c);
    }
    hide HostFits, HostTaken, InnerText, HostChar;
    HostTextMore(i, foundAt, HostChar(s, c), c);
  }

  lemma NotBack(s: HostState, c: byte)
    ensures !HostChar(s, c).UserinfoStart?
  {
  }

  /** What the host automaton accepts, taken apart. */
  lemma {:induction false} HostShape(server: seq<byte>, foundAt: bool) returns (i: Inner)
    requires !HOST.State(HostStartState(foundAt), server).HostDead?
    ensures HostFits(i, foundAt, HOST.State(HostStartState(foundAt), server)) && InnerText(i) == server
    decreases |server|
  {
    hide HostChar, HostFits, InnerText, HostTaken, Automaton.State, Automaton.Labels;
    var s0 := HostStartState(foundAt);
    if server == [] {
      i := NOTHING;
      HostNothing(foundAt);
      NoByte(HOST, s0);
    } else {
      var n := |server| - 1;
      var s := HOST.State(s0, server[..n]);
      LastByte(HOST, s0, server);
      DeadEnd(server[n]);
      i := HostShape(server[..n], foundAt);
      HostStep(i, foundAt, s, server[n]);
      i := HostTaken(i, HostChar(s, server[n]), server[n]);
    }
  }

  lemma HostNothing(foundAt: bool)
    ensures HostFits(NOTHING, foundAt, HostStartState(foundAt)) && InnerText(NOTHING) == []
  {
  }

  lemma DeadEnd(c: byte)
    ensures HostChar(HostDead, c).HostDead? && UrlChar(Dead, c).Dead?
  {
  }

  /** The parts of a server that was read to its end. */
  function ServerOf(i: Inner): Server {
    if i.open then Ip6(i.host, i.zone) else Name(i.host)
  }

  function PortOf(i: Inner): Option<seq<byte>> {
    if i.colon then Some(i.port) else None
  }

  function UserOf(i: Inner, foundAt: bool): Option<seq<byte>> {
    if foundAt then Some(i.user) else None
  }

  lemma InnerParts(i: Inner, foundAt: bool, s: HostState)
    requires HostFits(i, foundAt, s) && HostEnds(s)
    ensures ValidServer(ServerOf(i)) && (PortOf(i).Some? ==> Word(i.port, IsDigit)) && AllOf(i.user, IsUserinfoChar)
    ensures i.at == foundAt && HostDone(i) && (!i.colon ==> i.port == []) && (!foundAt ==> i.user == [])
  {
  }

  lemma InnerPrints(i: Inner, foundAt: bool, p: Parts)
    requires p.userinfo == UserOf(i, foundAt) && p.server == ServerOf(i) && p.port == PortOf(i)
    requires i.at == foundAt && HostDone(i) && (!i.colon ==> i.port == []) && (!foundAt ==> i.user == [])
    ensures ServerText(p) == InnerText(i)
  {
    hide Text, ServerText, Word, AllOf, HostPieces, PortPieces, HostPart, HostDone;
    ServerTextSplit(p);
    TextSum(HostPieces(p.server), PortPieces(p));
    HostPrints(i);
    PortPrints(i, p);
    UserPrints(i, p);
    hide UserText;
    Grouped(UserText(p), HostPart(i), Mark(i.colon, 58) + i.port);
  }

  lemma UserPrints(i: Inner, p: Parts)
    requires p.userinfo == UserOf(i, i.at) && (!i.at ==> i.user == [])
    ensures UserText(p) == i.user + Mark(i.at, 64)
  {
  }

  lemma Grouped(a: seq<byte>, b: seq<byte>, c: seq<byte>)
    ensures a + (b + c) == a + b + c
  {
  }

  lemma HostPrints(i: Inner)
    requires HostDone(i)
    ensures Text(HostPieces(ServerOf(i))) == HostPart(i)
  {
    hide Text, Word;
    var host := HostText(ServerOf(i));
    OnePieceText(Piece(In(Host), host));
    if i.open {
      BracketPrints(host);
      assert host == i.host + ZoneText(i.zone);
      assert [91] + host + [93] == [91] + i.host + ZoneText(i.zone) + [93];
    }
  }

  lemma BracketPrints(host: seq<byte>)
    ensures Text([Piece(Delimiter, [91]), Piece(In(Host), host), Piece(Delimiter, [93])]) == [91] + host + [93]
  {
    hide Text;
    var x, y, z := Piece(Delimiter, [91]), Piece(In(Host), host), Piece(Delimiter, [93]);
    OnePieceText(x);
    OnePieceText(y);
    OnePieceText(z);
    TextSum([x], [y]);
    TextSum([x] + [y], [z]);
    assert [x, y, z] == [x] + [y] + [z];
  }

  lemma PortPrints(i: Inner, p: Parts)
    requires p.port == PortOf(i) && (!i.colon ==> i.port == [])
    ensures Text(PortPieces(p)) == Mark(i.colon, 58) + i.port
  {
    if i.colon {
      var x, y := Piece(Delimiter, [58]), Piece(In(Port), i.port);
      OnePieceText(x);
      OnePieceText(y);
      TextSum([x], [y]);
      assert PortPieces(p) == [x] + [y];
    }
  }

  // ---------------------------------------------------------------- the whole URL

  /** What the URL automaton has read: schema and separator, server, path, query, hashes and fragment. */
  datatype Outer = Outer(schema: seq<byte>, sep: seq<byte>, server: seq<byte>, path: seq<byte>,
                         query: Option<seq<byte>>, hashes: nat, fragment: seq<byte>)

  const EMPTY: Outer := Outer([], [], [], [], None, 0, [])

  function QueryText(query: Option<seq<byte>>): seq<byte> {
    if query.Some? then [63] + query.value else []
  }

  function TailText(o: Outer): seq<byte> {
    o.path + QueryText(o.query) + Hashes(o.hashes) + o.fragment
  }

  function OuterText(o: Outer): seq<byte> {
    (o.schema + o.sep) + o.server + TailText(o)
  }

  function QueryTags(query: Option<seq<byte>>): seq<Label> {
    if query.Some? then [Delimiter] + Rep(In(Query), |query.value|) else []
  }

  function TailTags(o: Outer): seq<Label> {
    Rep(In(Path), |o.path|) + QueryTags(o.query) + Rep(Delimiter, o.hashes) + Rep(In(Fragment), |o.fragment|)
  }

  function OuterTags(o: Outer): seq<Label> {
    (Rep(In(Schema), |o.schema|) + Rep(Delimiter, |o.sep|)) + Rep(In(Host), |o.server|) + TailTags(o)
  }

  predicate Fronted(o: Outer, connect: bool) {
    if connect then o.schema == [] && o.sep == [] else Word(o.schema, IsAlpha) && o.sep == [58, 47, 47]
  }

  /** What precedes the path: schema and server, or nothing at all. */
  predicate Based(o: Outer, connect: bool) {
    && (Fronted(o, connect) || (!connect && o.schema == [] && o.sep == [] && o.server == [] && o.path != []))
    && AllOf(o.path, IsUrlChar)
    && (o.path != [] ==> o.path[0] == 47 || (o.path[0] == 42 && o.server == [] && !Fronted(o, connect)))
  }

  predicate Queried(o: Outer) {
    o.query.Some? ==> AllOf(o.query.value, IsQueryChar)
  }

  predicate OuterFits(o: Outer, connect: bool, s: UrlState) {
    match s
    case Dead => false
    case SpacesBeforeUrl => !connect && o == EMPTY
    case InSchema => !connect && o == EMPTY.(schema := o.schema) && Word(o.schema, IsAlpha)
    case SchemaSlash => !connect && o == EMPTY.(schema := o.schema, sep := [58]) && Word(o.schema, IsAlpha)
    case SchemaSlashSlash => !connect && o == EMPTY.(schema := o.schema, sep := [58, 47]) && Word(o.schema, IsAlpha)
    case ServerStart => Fronted(o, connect) && o == EMPTY.(schema := o.schema, sep := o.sep)
    case Server =>
      Fronted(o, connect) && o.server != [] && o == EMPTY.(schema := o.schema, sep := o.sep, server := o.server)
    case ServerWithAt =>
      Fronted(o, connect) && o.server != [] && o == EMPTY.(schema := o.schema, sep := o.sep, server := o.server)
    case InPath => Based(o, connect) && o.path != [] && o.query.None? && o.hashes == 0 && o.fragment == []
    case QueryStart => Based(o, connect) && o.query == Some([]) && o.hashes == 0 && o.fragment == []
    case InQuery =>
      Based(o, connect) && o.query.Some? && o.query.value != [] && Queried(o) && o.hashes == 0 && o.fragment == []
    case FragmentStart => Based(o, connect) && Queried(o) && o.hashes > 0 && o.fragment == []
    case InFragment =>
      && Based(o, connect) && Queried(o) && o.hashes > 0
      && Word(o.fragment, IsFragmentChar) && o.fragment[0] != 35
  }

  function UrlTaken(o: Outer, t: UrlState, c: byte): Outer {
    match t
    case InSchema => o.(schema := o.schema + [c])
    case SchemaSlash => o.(sep := o.sep + [c])
    case SchemaSlashSlash => o.(sep := o.sep + [c])
    case ServerStart => o.(sep := o.sep + [c])
    case Server => o.(server := o.server + [c])
    case ServerWithAt => o.(server := o.server + [c])
    case InPath => o.(path := o.path + [c])
    case QueryStart => o.(query := Some([]))
    case InQuery => o.(query := Some((if o.query.Some? then o.query.value else []) + [c]))
    case FragmentStart => o.(hashes := o.hashes + 1)
    case InFragment => o.(fragment := o.fragment + [c])
    case _ => o
  }

  /** The delimiter that led to `t` is the one it stands for. */
  predicate UrlSpelled(o: Outer, t: UrlState, c: byte) {
    && (t.QueryStart? ==> o.query.None? && c == 63) && (t.InQuery? ==> o.query.Some?)
    && (t.FragmentStart? ==> c == 35 && o.fragment == [])
  }

  predicate UrlNext(o: Outer, connect: bool, t: UrlState, c: byte) {
    OuterFits(UrlTaken(o, t, c), connect, t) && UrlSpelled(o, t, c)
  }

  lemma FromFront(o: Outer, connect: bool, s: UrlState, c: byte)
    requires OuterFits(o, connect, s) && !UrlChar(s, c).Dead?
    requires s.SpacesBeforeUrl? || s.InSchema? || s.SchemaSlash? || s.SchemaSlashSlash?
    ensures UrlNext(o, connect, UrlChar(s, c), c)
  {
    assert [] + [c] == [c] && [58] + [47] == [58, 47] && [58, 47] + [47] == [58, 47, 47];
  }

  lemma FromServer(o: Outer, connect: bool, s: UrlState, c: byte)
    requires OuterFits(o, connect, s) && !UrlChar(s, c).Dead?
    requires s.ServerStart? || s.Server? || s.ServerWithAt?
    ensures UrlNext(o, connect, UrlChar(s, c), c)
  {
    assert [] + [c] == [c];
  }

  lemma FromTail(o: Outer, connect: bool, s: UrlState, c: byte)
    requires OuterFits(o, connect, s) && !UrlChar(s, c).Dead?
    requires s.InPath? || s.QueryStart? || s.InQuery? || s.FragmentStart? || s.InFragment?
    ensures UrlNext(o, connect, UrlChar(s, c), c)
  {
  }

  predicate FrontState(t: UrlState) {
    t.InSchema? || t.SchemaSlash? || t.SchemaSlashSlash? || t.ServerStart?
  }

  predicate ServerState(t: UrlState) {
    t.Server? || t.ServerWithAt?
  }

  lemma FrontMore(o: Outer, connect: bool, t: UrlState, c: byte)
    requires UrlNext(o, connect, t, c) && FrontState(t)
    ensures var q := UrlTaken(o, t, c);
            && q.schema + q.sep == (o.schema + o.sep) + [c] && o.server == q.server == []
            && Rep(In(Schema), |q.schema|) + Rep(Delimiter, |q.sep|) ==
               (Rep(In(Schema), |o.schema|) + Rep(Delimiter, |o.sep|)) + [UrlTag(t)]
            && TailText(o) == TailText(q) == [] && TailTags(o) == TailTags(q) == []
  {
  }

  lemma ServerMore(o: Outer, connect: bool, t: UrlState, c: byte)
    requires UrlNext(o, connect, t, c) && ServerState(t)
    ensures var q := UrlTaken(o, t, c);
            && q.schema == o.schema && q.sep == o.sep && q.server == o.server + [c]
            && Rep(In(Host), |q.server|) == Rep(In(Host), |o.server|) + [UrlTag(t)]
            && TailText(o) == TailText(q) == [] && TailTags(o) == TailTags(q) == []
  {
  }

  predicate TailStep(o: Outer, q: Outer, t: UrlState, c: byte) {
    && q.schema == o.schema && q.sep == o.sep && q.server == o.server
    && TailText(q) == TailText(o) + [c] && TailTags(q) == TailTags(o) + [UrlTag(t)]
  }

  lemma PathMore(o: Outer, connect: bool, t: UrlState, c: byte)
    requires UrlNext(o, connect, t, c) && t.InPath?
    ensures TailStep(o, UrlTaken(o, t, c), t, c)
  {
    assert Rep(In(Path), |o.path| + 1) == Rep(In(Path), |o.path|) + [In(Path)];
  }

  lemma QueryMore(o: Outer, connect: bool, t: UrlState, c: byte)
    requires UrlNext(o, connect, t, c) && (t.QueryStart? || t.InQuery?)
    ensures TailStep(o, UrlTaken(o, t, c), t, c)
  {
    var q := UrlTaken(o, t, c);
    var z := if o.query.Some? then o.query.value else [];
    assert QueryText(q.query) == QueryText(o.query) + [c] by {
      assert [63] + (z + [c]) == ([63] + z) + [c];
    }
    assert QueryTags(q.query) == QueryTags(o.query) + [UrlTag(t)] by {
      assert Rep(In(Query), |z| + 1) == Rep(In(Query), |z|) + [In(Query)];
      assert [Delimiter] + (Rep(In(Query), |z|) + [In(Query)]) == ([Delimiter] + Rep(In(Query), |z|)) + [In(Query)];
      assert Rep(In(Query), 0) == [];
    }
    hide QueryText, QueryTags, OuterFits;
    assert Hashes(0) == [] && Rep(Delimiter, 0) == [] && Rep(In(Fragment), 0) == [];
  }

  lemma FragmentMore(o: Outer, connect: bool, t: UrlState, c: byte)
    requires UrlNext(o, connect, t, c) && (t.FragmentStart? || t.InFragment?)
    ensures TailStep(o, UrlTaken(o, t, c), t, c)
  {
    hide QueryText, QueryTags;
    if t.FragmentStart? {
      assert Hashes(o.hashes + 1) == Hashes(o.hashes) + [35];
      assert Rep(Delimiter, o.hashes + 1) == Rep(Delimiter, o.hashes) + [Delimiter];
      assert Rep(In(Fragment), 0) == [];
    } else {
      assert Rep(In(Fragment), |o.fragment| + 1) == Rep(In(Fragment), |o.fragment|) + [In(Fragment)];
    }
  }

  lemma UrlMore(o: Outer, connect: bool, t: UrlState, c: byte)
    requires UrlNext(o, connect, t, c) && !t.SpacesBeforeUrl? && !t.Dead?
    ensures OuterText(UrlTaken(o, t, c)) == OuterText(o) + [c]
    ensures OuterTags(UrlTaken(o, t, c)) == OuterTags(o) + [UrlTag(t)]
  {
    hide UrlNext, UrlTaken, TailText, TailTags, UrlTag, Rep;
    OneMoreAtEnd(o.schema + o.sep, o.server, TailText(o), c);
    OneMoreAtEnd(Rep(In(Schema), |o.schema|) + Rep(Delimiter, |o.sep|), Rep(In(Host), |o.server|),
                 TailTags(o), UrlTag(t));
    if FrontState(t) {
      FrontMore(o, connect, t, c);
      NoLabel();
    } else if ServerState(t) {
      ServerMore(o, connect, t, c);
    } else if t.InPath? {
      PathMore(o, connect, t, c);
    } else if t.QueryStart? || t.InQuery? {
      QueryMore(o, connect, t, c);
    } else {
      FragmentMore(o, connect, t, c);
    }
  }

  lemma NoLabel()
    ensures Rep(In(Host), 0) == []
  {
  }

  lemma UrlStep(o: Outer, connect: bool, s: UrlState, c: byte)
    requires OuterFits(o, connect, s) && !UrlChar(s, c).Dead?
    ensures var t := UrlChar(s, c);
            && OuterFits(UrlTaken(o, t, c), connect, t)
            && OuterText(UrlTaken(o, t, c)) == OuterText(o) + [c]
            && OuterTags(UrlTaken(o, t, c)) == OuterTags(o) + [UrlTag(t)]
  {
    NeverBefore(s, c);
    if s.SpacesBeforeUrl? || s.InSchema? || s.SchemaSlash? || s.SchemaSlashSlash? {
      FromFront(o, connect, s, c);
    } else if s.ServerStart? || s.Server? || s.ServerWithAt? {
      FromServer(o, connect, s, c);
    } else {
      FromTail(o, connect, s, c);
    }
    hide OuterFits, UrlTaken, OuterText, OuterTags, UrlChar;
    UrlMore(o, connect, UrlChar(s, c), c);
  }

  lemma NeverBefore(s: UrlState, c: byte)
    ensures !UrlChar(s, c).SpacesBeforeUrl?
  {
  }

  /** What the URL automaton accepts, taken apart, with the labels of its bytes. */
  lemma {:induction false} UrlShape(buf: seq<byte>, connect: bool) returns (o: Outer)
    requires !URL.State(Start(connect), buf).Dead?
    ensures OuterFits(o, connect, URL.State(Start(connect), buf))
    ensures OuterText(o) == buf && OuterTags(o) == URL.Labels(Start(connect), buf)
    decreases |buf|
  {
    hide UrlChar, UrlTag, OuterFits, OuterText, OuterTags, UrlTaken, Automaton.State, Automaton.Labels;
    var s0 := Start(connect);
    if buf == [] {
      o := EMPTY;
      UrlNothing(connect);
      NoByte(URL, s0);
    } else {
      var n := |buf| - 1;
      var s := URL.State(s0, buf[..n]);
      LastByte(URL, s0, buf);
      DeadEnd(buf[n]);
      o := UrlShape(buf[..n], connect);
      UrlStep(o, connect, s, buf[n]);
      o := UrlTaken(o, UrlChar(s, buf[n]), buf[n]);
    }
  }

  lemma UrlNothing(connect: bool)
    ensures OuterFits(EMPTY, connect, Start(connect)) && OuterText(EMPTY) == [] && OuterTags(EMPTY) == []
  {
  }

  // ---------------------------------------------------------------- where the server lies

  function DelimiterPiece(text: seq<byte>): seq<Piece> {
    if text == [] then [] else [Piece(Delimiter, text)]
  }

  function FrontPieces(o: Outer): seq<Piece> {
    FieldPiece(Schema, o.schema) + DelimiterPiece(o.sep)
  }

  function BackPieces(o: Outer): seq<Piece> {
    FieldPiece(Path, o.path) +
    (if o.query.Some? then [Piece(Delimiter, [63])] + FieldPiece(Query, o.query.value) else []) +
    (DelimiterPiece(Hashes(o.hashes)) + FieldPiece(Fragment, o.fragment))
  }

  function PiecesOf(o: Outer): seq<Piece> {
    FrontPieces(o) + FieldPiece(Host, o.server) + BackPieces(o)
  }

  lemma FieldReads(f: Field, text: seq<byte>)
    ensures Text(FieldPiece(f, text)) == text && Tags(FieldPiece(f, text)) == Rep(In(f), |text|)
  {
    if text != [] {
      OnePieceText(Piece(In(f), text));
    }
  }

  lemma DelimiterReads(text: seq<byte>)
    ensures Text(DelimiterPiece(text)) == text && Tags(DelimiterPiece(text)) == Rep(Delimiter, |text|)
  {
    if text != [] {
      OnePieceText(Piece(Delimiter, text));
    }
  }

  /** The text and the labels are those of the pieces. */
  lemma PiecesRead(o: Outer)
    ensures Text(PiecesOf(o)) == OuterText(o) && Tags(PiecesOf(o)) == OuterTags(o)
    ensures Text(FrontPieces(o)) == o.schema + o.sep
  {
    hide Text, Tags, Rep, TailText, TailTags, FieldPiece, DelimiterPiece;
    var front, server, back := FrontPieces(o), FieldPiece(Host, o.server), BackPieces(o);
    FieldReads(Schema, o.schema);
    DelimiterReads(o.sep);
    TextSum(FieldPiece(Schema, o.schema), DelimiterPiece(o.sep));
    TagsSum(FieldPiece(Schema, o.schema), DelimiterPiece(o.sep));
    FieldReads(Host, o.server);
    BackRead(o);
    TextSum(front, server);
    TagsSum(front, server);
    TextSum(front + server, back);
    TagsSum(front + server, back);
  }

  lemma QueryRead(query: Option<seq<byte>>)
    ensures var pieces := if query.Some? then [Piece(Delimiter, [63])] + FieldPiece(Query, query.value) else [];
            Text(pieces) == QueryText(query) && Tags(pieces) == QueryTags(query)
  {
    if query.Some? {
      FieldReads(Query, query.value);
      DelimiterReads([63]);
      TextSum([Piece(Delimiter, [63])], FieldPiece(Query, query.value));
      TagsSum([Piece(Delimiter, [63])], FieldPiece(Query, query.value));
      assert Rep(Delimiter, 1) == [Delimiter];
    }
  }

  lemma BackRead(o: Outer)
    ensures Text(BackPieces(o)) == TailText(o) && Tags(BackPieces(o)) == TailTags(o)
  {
    hide Text, Tags, Rep, FieldPiece, DelimiterPiece;
    var path, hashes := FieldPiece(Path, o.path), DelimiterPiece(Hashes(o.hashes));
    var fragment := FieldPiece(Fragment, o.fragment);
    var query := if o.query.Some? then [Piece(Delimiter, [63])] + FieldPiece(Query, o.query.value) else [];
    FieldReads(Path, o.path);
    FieldReads(Fragment, o.fragment);
    DelimiterReads(Hashes(o.hashes));
    QueryRead(o.query);
    TextSum(path, query);
    TagsSum(path, query);
    TextSum(hashes, fragment);
    TagsSum(hashes, fragment);
    TextSum(path + query, hashes + fragment);
    TagsSum(path + query, hashes + fragment);
  }

  lemma SortedField(f: Field, text: seq<byte>, r: nat)
    requires r <= f.Rank()
    ensures Sorted(FieldPiece(f, text), r)
  {
    if text != [] {
      SortedOne(Piece(In(f), text), r);
    }
  }

  lemma SortedDelimiter(text: seq<byte>, r: nat)
    ensures Sorted(DelimiterPiece(text), r) && Fields(DelimiterPiece(text)) == {}
  {
    if text != [] {
      SortedOne(Piece(Delimiter, text), r);
      FieldsOne(Piece(Delimiter, text));
    }
  }

  lemma FrontSorted(o: Outer)
    ensures Sorted(FrontPieces(o), 0) && Fields(FrontPieces(o)) <= {Schema}
  {
    hide Sorted, Fields, FieldPiece, DelimiterPiece;
    SortedField(Schema, o.schema, 0);
    SortedDelimiter(o.sep, 1);
    FieldsOfField(Schema, o.schema);
    FieldsSum(FieldPiece(Schema, o.schema), DelimiterPiece(o.sep));
    SortedSum(FieldPiece(Schema, o.schema), 0, DelimiterPiece(o.sep), 1);
  }

  lemma QuerySorted(query: Option<seq<byte>>)
    ensures var pieces := if query.Some? then [Piece(Delimiter, [63])] + FieldPiece(Query, query.value) else [];
            Sorted(pieces, 5) && Fields(pieces) <= {Query}
  {
    if query.Some? {
      SortedDelimited(Piece(Delimiter, [63]), Query, query.value, 5);
      FieldsOne(Piece(Delimiter, [63]));
      FieldsOfField(Query, query.value);
      FieldsSum([Piece(Delimiter, [63])], FieldPiece(Query, query.value));
    }
  }

  lemma BackSorted(o: Outer)
    ensures Sorted(BackPieces(o), 4) && Fields(BackPieces(o)) <= {Path, Query, Fragment}
  {
    hide Sorted, Fields, FieldPiece, DelimiterPiece;
    var path, hashes := FieldPiece(Path, o.path), DelimiterPiece(Hashes(o.hashes));
    var fragment := FieldPiece(Fragment, o.fragment);
    var query := if o.query.Some? then [Piece(Delimiter, [63])] + FieldPiece(Query, o.query.value) else [];
    SortedField(Path, o.path, 4);
    FieldsOfField(Path, o.path);
    QuerySorted(o.query);
    SortedDelimiter(Hashes(o.hashes), 6);
    SortedField(Fragment, o.fragment, 6);
    FieldsOfField(Fragment, o.fragment);
    SortedSum(path, 4, query, 5);
    FieldsSum(path, query);
    SortedSum(hashes, 6, fragment, 6);
    FieldsSum(hashes, fragment);
    SortedSum(path + query, 4, hashes + fragment, 6);
    FieldsSum(path + query, hashes + fragment);
  }

  lemma PiecesSorted(o: Outer)
    ensures Sorted(PiecesOf(o), 0)
    ensures Host in Fields(PiecesOf(o)) <==> o.server != []
  {
    hide Sorted, Fields, FieldPiece, FrontPieces, BackPieces;
    var front, server, back := FrontPieces(o), FieldPiece(Host, o.server), BackPieces(o);
    FrontSorted(o);
    BackSorted(o);
    SortedField(Host, o.server, 2);
    FieldsOfField(Host, o.server);
    SortedSum(front, 0, server, 2);
    FieldsSum(front, server);
    SortedSum(front + server, 0, back, 4);
    FieldsSum(front + server, back);
  }

  /** The first pass finds the server where it was read. */
  lemma ServerFound(buf: seq<byte>, connect: bool, o: Outer)
    requires |buf| <= 0xFFFF && SplitFields(buf, connect).Some?
    requires OuterText(o) == buf && OuterTags(o) == URL.Labels(Start(connect), buf)
    ensures var fields := SplitFields(buf, connect).value;
            && (Host in fields <==> o.server != [])
            && (Host in fields ==>
                  && fields[Host] == Slice(|o.schema + o.sep|, |o.server|) && |o.schema + o.sep| + |o.server| <= |buf|
                  && buf[|o.schema + o.sep|..|o.schema + o.sep| + |o.server|] == o.server)
  {
    hide Text, Tags, Layout, Slices, Sorted, Fields, OuterText, OuterTags, FrontPieces, BackPieces;
    PiecesRead(o);
    PiecesSorted(o);
    LayoutIsSlices(PiecesOf(o), 0, 0);
    LayoutKeys(PiecesOf(o), 0);
    if o.server != [] {
      var x := Piece(In(Host), o.server);
      assert PiecesOf(o) == FrontPieces(o) + ([x] + BackPieces(o));
      FrontSorted(o);
      BackSorted(o);
      PieceText(FrontPieces(o), x, BackPieces(o), Host);
    }
  }

  // ---------------------------------------------------------------- the converse

  function PartsOf(o: Outer, i: Inner, connect: bool, foundAt: bool): Parts {
    Parts(if connect then None else Some(o.schema), UserOf(i, foundAt), ServerOf(i), PortOf(i),
          o.path, o.query, o.hashes, o.fragment)
  }

  lemma OuterParts(o: Outer, connect: bool, s: UrlState)
    requires OuterFits(o, connect, s) && o.server != []
    ensures Fronted(o, connect) && AllOf(o.path, IsUrlChar) && (o.path != [] ==> o.path[0] == 47) && Queried(o)
    ensures AllOf(o.fragment, IsFragmentChar) && (o.fragment != [] ==> o.hashes > 0 && o.fragment[0] != 35)
  {
  }

  /** The parts taken from both automata print as the buffer. */
  lemma PartsPrint(o: Outer, i: Inner, connect: bool, foundAt: bool)
    requires Fronted(o, connect) && InnerText(i) == o.server && (o.fragment != [] ==> o.hashes > 0)
    requires i.at == foundAt && HostDone(i) && (!i.colon ==> i.port == []) && (!foundAt ==> i.user == [])
    ensures Text(PartPieces(PartsOf(o, i, connect, foundAt))) == OuterText(o)
  {
    var p := PartsOf(o, i, connect, foundAt);
    assert TailPieces(p) == BackPieces(o);
    hide Text, HostDone, InnerText, TailPieces, BackPieces, ServerPieces, Word;
    InnerPrints(i, foundAt, p);
    BackRead(o);
    TextSum(SchemaPieces(p) + ServerPieces(p), TailPieces(p));
    TextSum(SchemaPieces(p), ServerPieces(p));
    SchemaPrints(o, p);
  }

  lemma SchemaPrints(o: Outer, p: Parts)
    requires p.schema.None? ==> o.schema == [] && o.sep == []
    requires p.schema.Some? ==> p.schema.value == o.schema && o.sep == [58, 47, 47]
    ensures Text(SchemaPieces(p)) == o.schema + o.sep
  {
    if p.schema.Some? {
      var x, y := Piece(In(Schema), o.schema), Piece(Delimiter, [58, 47, 47]);
      OnePieceText(x);
      OnePieceText(y);
      TextSum([x], [y]);
      assert SchemaPieces(p) == [x] + [y];
    }
  }

  /** A parse that sets the host went through the server part. */
  lemma HostWasSplit(buf: seq<byte>, connect: bool)
    requires |buf| <= 0xFFFF && ParseUrl(buf, connect).Some? && Host in ParseUrl(buf, connect).value.fields
    ensures SplitFields(buf, connect).Some? && Host in SplitFields(buf, connect).value
    ensures var fields := SplitFields(buf, connect).value;
            && fields[Host].off + fields[Host].len <= |buf|
            && ParseHost(buf, fields, FoundAt(Start(connect), buf)).Some?
  {
    hide SplitFields, ParseHost, FoundAt;
    var fields := SplitFields(buf, connect).value;
    if Host in fields {
      SliceInBounds(buf, connect, Host);
    }
  }

  /** The converse of the round trip: every buffer of at most 65535 bytes that parses with a host, as an
      absolute URL or a CONNECT target, is the printing of well-formed parts that are not refused, and the
      result is theirs. */
  lemma OnlyPrintingsParse(buf: seq<byte>, connect: bool) returns (p: Parts)
    requires |buf| <= 0xFFFF && ParseUrl(buf, connect).Some? && Host in ParseUrl(buf, connect).value.fields
    ensures Valid(p) && !Refused(p) && p.schema.None? == connect && Text(PartPieces(p)) == buf
    ensures ParseUrl(buf, connect) == Some(Expected(p))
  {
    HostWasSplit(buf, connect);
    p := Reconstructed(buf, connect);
    hide ParseUrl, Expected, Refused, Text;
    RoundTrip(p);
  }

  lemma Reconstructed(buf: seq<byte>, connect: bool) returns (p: Parts)
    requires |buf| <= 0xFFFF && SplitFields(buf, connect).Some? && Host in SplitFields(buf, connect).value
    requires var fields := SplitFields(buf, connect).value;
             && fields[Host].off + fields[Host].len <= |buf|
             && ParseHost(buf, fields, FoundAt(Start(connect), buf)).Some?
    ensures Valid(p) && p.schema.None? == connect && Text(PartPieces(p)) == buf
  {
    hide OuterText, OuterTags, OuterFits, HostFits, InnerText, HostDone, FoundAt, Slices, Text, PartPieces;
    hide Automaton.State, Automaton.Labels;
    var foundAt := FoundAt(Start(connect), buf);
    var o := UrlShape(buf, connect);
    ServerFound(buf, connect, o);
    var i := HostShape(o.server, foundAt);
    OuterParts(o, connect, URL.State(Start(connect), buf));
    InnerParts(i, foundAt, HOST.State(HostStartState(foundAt), o.server));
    p := PartsOf(o, i, connect, foundAt);
    PartsPrint(o, i, connect, foundAt);
  }

  // ---------------------------------------------------------------- without a server

  /** A path that starts with '/' or '*', with an optional query and fragment; or nothing at all. */
  predicate Reference(o: Outer) {
    && o.schema == [] && o.sep == [] && o.server == []
    && (o == EMPTY || (o.path != [] && (o.path[0] == 47 || o.path[0] == 42)))
    && AllOf(o.path, IsUrlChar) && Queried(o)
    && AllOf(o.fragment, IsFragmentChar) && (o.fragment != [] ==> o.hashes > 0 && o.fragment[0] != 35)
  }

  lemma ReferenceReads(o: Outer) returns (t: UrlState)
    requires Reference(o)
    ensures Reads(URL, SpacesBeforeUrl, BackPieces(o), t) && !t.Dead?
  {
    var p := Parts(None, None, Name([97]), None, [47], o.query, o.hashes, o.fragment);
    if o == EMPTY {
      t := SpacesBeforeUrl;
      ReadsNothing(URL, t);
    } else {
      t := TailState(p);
      ReadsField(URL, SpacesBeforeUrl, InPath, Path, o.path);
      QueryReads(p);
      FragmentReads(p);
      assert BackPieces(o) == FieldPiece(Path, o.path) + QueryPieces(p) + FragmentPieces(p);
      hide Reads, BackPieces, QueryPieces, FragmentPieces, FieldPiece, TailState, QueryState;
      ReadsOn(URL, SpacesBeforeUrl, FieldPiece(Path, o.path), InPath, QueryPieces(p), QueryState(p));
      ReadsOn(URL, SpacesBeforeUrl, FieldPiece(Path, o.path) + QueryPieces(p), QueryState(p), FragmentPieces(p), t);
    }
  }

  /** A reference parses into exactly its slices. */
  lemma ReferenceParses(o: Outer)
    requires Reference(o) && |OuterText(o)| <= 0xFFFF
    ensures ParseUrl(OuterText(o), false) == Some(Url(Layout(BackPieces(o), 0), 0))
  {
    TailAlone(o);
    hide BackPieces, TailText, Layout, SplitFields, Reference, OuterText;
    ReferenceSplits(o);
    NoServerNoPort(TailText(o), Layout(BackPieces(o), 0));
    hide ParseUrl;
  }

  lemma NoServerNoPort(buf: seq<byte>, fields: map<Field, Slice>)
    requires SplitFields(buf, false) == Some(fields) && fields.Keys <= {Path, Query, Fragment}
    ensures ParseUrl(buf, false) == Some(Url(fields, 0))
  {
    hide SplitFields, ParseHost, FoundAt, DecimalAt;
  }

  lemma TailAlone(o: Outer)
    requires Reference(o)
    ensures OuterText(o) == TailText(o)
  {
    hide TailText;
  }

  lemma ReferenceSplits(o: Outer)
    requires Reference(o) && |TailText(o)| <= 0xFFFF
    ensures SplitFields(TailText(o), false) == Some(Layout(BackPieces(o), 0))
    ensures Layout(BackPieces(o), 0).Keys <= {Path, Query, Fragment}
  {
    hide Reference, TailText, TailTags, BackPieces, Sorted, Fields, Slices, Layout, Text, Tags;
    hide Automaton.State, Automaton.Labels;
    var t := ReferenceReads(o);
    BackRead(o);
    BackSorted(o);
    SortedWeaken(BackPieces(o), 0, 4);
    LayoutIsSlices(BackPieces(o), 0, 0);
    LayoutKeys(BackPieces(o), 0);
  }

  lemma NoServer(o: Outer, s: UrlState)
    requires OuterFits(o, false, s) && o.server == [] && o.schema == []
    ensures Reference(o)
  {
  }

  lemma SchemaFound(buf: seq<byte>, connect: bool, o: Outer)
    requires |buf| <= 0xFFFF && SplitFields(buf, connect).Some?
    requires OuterText(o) == buf && OuterTags(o) == URL.Labels(Start(connect), buf)
    ensures o.schema != [] ==> Schema in SplitFields(buf, connect).value
  {
    hide Text, Tags, Layout, Slices, Sorted, Fields, OuterText, OuterTags, BackPieces, FieldPiece, DelimiterPiece;
    PiecesRead(o);
    PiecesSorted(o);
    LayoutIsSlices(PiecesOf(o), 0, 0);
    LayoutKeys(PiecesOf(o), 0);
    FieldsOfField(Schema, o.schema);
    FieldsSum(FieldPiece(Schema, o.schema), DelimiterPiece(o.sep));
    FieldsSum(FrontPieces(o), FieldPiece(Host, o.server));
    FieldsSum(FrontPieces(o) + FieldPiece(Host, o.server), BackPieces(o));
  }

  lemma HostIsKept(buf: seq<byte>, connect: bool)
    requires |buf| <= 0xFFFF && ParseUrl(buf, connect).Some? && Host !in ParseUrl(buf, connect).value.fields
    ensures !connect && SplitFields(buf, connect).Some?
    ensures Host !in SplitFields(buf, connect).value && Schema !in SplitFields(buf, connect).value
  {
    hide SplitFields, ParseHost, FoundAt, Divides, DecimalAt, Decimal;
    if Host in SplitFields(buf, connect).value {
      SliceInBounds(buf, connect, Host);
      HostPartition(buf, connect, FoundAt(Start(connect), buf));
    }
  }

  /** And every buffer that parses without a host is a reference, so the buffers that parse are exactly the
      printings of parts that are not refused and the references. */
  lemma OnlyReferencesParse(buf: seq<byte>, connect: bool) returns (o: Outer)
    requires |buf| <= 0xFFFF && ParseUrl(buf, connect).Some? && Host !in ParseUrl(buf, connect).value.fields
    ensures !connect && Reference(o) && OuterText(o) == buf
    ensures ParseUrl(buf, connect) == Some(Url(Layout(BackPieces(o), 0), 0))
  {
    HostIsKept(buf, connect);
    hide ParseUrl, OuterText, OuterTags, OuterFits, Reference, Slices, BackPieces, Layout;
    hide Automaton.State, Automaton.Labels;
    o := UrlShape(buf, connect);
    ServerFound(buf, connect, o);
    SchemaFound(buf, connect, o);
    NoServer(o, URL.State(Start(connect), buf));
    ReferenceParses(o);
  }

  // ---------------------------------------------------------------- concrete buffers

  /** "a://b#c" is refused. */
  lemma BareFragmentIsRefused()
    ensures ParseUrl([97, 58, 47, 47, 98, 35, 99], false) == None
  {
    var o, i := Outer([97], [58, 47, 47], [98], [], None, 1, [99]), NOTHING.(host := [98]);
    assert Hashes(1) == [35];
    assert OuterText(o) == [97, 58, 47, 47, 98, 35, 99];
    Concrete(o, i, false);
    hide ParseUrl, OuterText;
    RoundTrip(PartsOf(o, i, false, false));
  }

  /** "b:1?" is taken as a CONNECT target, although it is more than host and port. */
  lemma ConnectWithQuestionMark()
    ensures ParseUrl([98, 58, 49, 63], true).Some?
  {
    var o := Outer([], [], [98, 58, 49], [], Some([]), 0, []);
    var i := NOTHING.(host := [98], colon := true, port := [49]);
    assert OuterText(o) == [98, 58, 49, 63];
    Concrete(o, i, true);
    assert [49][..0] == [] && Decimal([49]) == 1;
    hide ParseUrl, OuterText;
    RoundTrip(PartsOf(o, i, true, false));
  }

  lemma Concrete(o: Outer, i: Inner, connect: bool)
    requires o.server == InnerText(i) && |OuterText(o)| <= 0xFFFF && Fronted(o, connect) && o.path == [] && Queried(o)
    requires AllOf(o.fragment, IsFragmentChar) && (o.fragment != [] ==> o.hashes > 0 && o.fragment[0] != 35)
    requires HostDone(i) && !i.at && i.user == [] && (if i.colon then Word(i.port, IsDigit) else i.port == [])
    ensures var p := PartsOf(o, i, connect, false); Valid(p) && Text(PartPieces(p)) == OuterText(o)
  {
    hide Text, PartPieces, InnerText, OuterText;
    PartsPrint(o, i, connect, false);
  }
}
