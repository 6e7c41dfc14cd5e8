/** Printing a URL from its parts and parsing it again gives back exactly those parts, and every buffer
    with a server part that parses is such a printing. */
module UrlRoundTrip {
  import opened Bytes
  import opened Labelling
  import opened HttpUrl
  import opened UrlPartition
  import opened Wrappers

  datatype Server = Name(chars: seq<byte>) | Ip6(address: seq<byte>, zone: Option<seq<byte>>)

  /** [schema://][userinfo@]server[:port][path][?query][#...#fragment], without a schema for CONNECT. User
      info, query and fragment may be empty, and the parser takes any number of '#' before a fragment. */
  datatype Parts = Parts(
    schema: Option<seq<byte>>,
    userinfo: Option<seq<byte>>,
    server: Server,
    port: Option<seq<byte>>,
    path: seq<byte>,
    query: Option<seq<byte>>,
    hashes: nat,
    fragment: seq<byte>)

  predicate AllOf(text: seq<byte>, ok: byte -> bool) {
    forall i :: 0 <= i < |text| ==> ok(text[i])
  }

  predicate Word(text: seq<byte>, ok: byte -> bool) {
    text != [] && AllOf(text, ok)
  }

  predicate IsV6Char(c: byte) {
    IsHex(c) || c == 58 || c == 46
  }

  predicate IsQueryChar(c: byte) {
    IsUrlChar(c) || c == 63
  }

  predicate IsFragmentChar(c: byte) {
    IsUrlChar(c) || c == 63 || c == 35
  }

  predicate ValidServer(s: Server) {
    match s
    case Name(chars) => Word(chars, IsHostChar)
    case Ip6(address, zone) => Word(address, IsV6Char) && (zone.Some? ==> Word(zone.value, IsZoneChar))
  }

  /** Every part is made of its own characters. */
  predicate WellFormed(p: Parts) {
    && (p.schema.Some? ==> Word(p.schema.value, IsAlpha))
    && (p.userinfo.Some? ==> AllOf(p.userinfo.value, IsUserinfoChar))
    && ValidServer(p.server)
    && (p.port.Some? ==> Word(p.port.value, IsDigit))
    && (p.path != [] ==> p.path[0] == 47 && Word(p.path, IsUrlChar))
    && (p.query.Some? ==> AllOf(p.query.value, IsQueryChar))
    && AllOf(p.fragment, IsFragmentChar) && (p.fragment != [] ==> p.hashes > 0 && p.fragment[0] != 35)
  }

  predicate Valid(p: Parts) {
    WellFormed(p) && |Text(PartPieces(p))| <= 0xFFFF
  }

  // ---------------------------------------------------------------- a URL as tagged pieces

  datatype Piece = Piece(tag: Label, text: seq<byte>)

  function HostText(s: Server): seq<byte> {
    match s
    case Name(chars) => chars
    case Ip6(address, zone) => address + if zone.Some? then [37] + zone.value else []
  }

  function HostPieces(s: Server): seq<Piece> {
    if s.Name? then [Piece(In(Host), HostText(s))]
    else [Piece(Delimiter, [91]), Piece(In(Host), HostText(s)), Piece(Delimiter, [93])]
  }

  /** A field that may be empty, in which case the parser does not set it. */
  function FieldPiece(f: Field, text: seq<byte>): seq<Piece> {
    if text == [] then [] else [Piece(In(f), text)]
  }

  function UserPieces(p: Parts): seq<Piece> {
    if p.userinfo.Some? then FieldPiece(UserInfo, p.userinfo.value) + [Piece(Delimiter, [64])] else []
  }

  function PortPieces(p: Parts): seq<Piece> {
    if p.port.Some? then [Piece(Delimiter, [58]), Piece(In(Port), p.port.value)] else []
  }

  function ServerPieces(p: Parts): seq<Piece> {
    UserPieces(p) + HostPieces(p.server) + PortPieces(p)
  }

  function PathPieces(p: Parts): seq<Piece> {
    FieldPiece(Path, p.path)
  }

  function QueryPieces(p: Parts): seq<Piece> {
    if p.query.Some? then [Piece(Delimiter, [63])] + FieldPiece(Query, p.query.value) else []
  }

  function FragmentPieces(p: Parts): seq<Piece> {
    if p.hashes > 0 then [Piece(Delimiter, Hashes(p.hashes))] + FieldPiece(Fragment, p.fragment) else []
  }

  function Hashes(n: nat): (text: seq<byte>)
    ensures |text| == n && forall i :: 0 <= i < n ==> text[i] == 35
  {
    seq(n, _ => 35)
  }

  function TailPieces(p: Parts): seq<Piece> {
    PathPieces(p) + QueryPieces(p) + FragmentPieces(p)
  }

  function SchemaPieces(p: Parts): seq<Piece> {
    if p.schema.Some? then [Piece(In(Schema), p.schema.value), Piece(Delimiter, [58, 47, 47])] else []
  }

  function StartOf(p: Parts): UrlState {
    Start(p.schema.None?)
  }

  function PartPieces(p: Parts): seq<Piece> {
    SchemaPieces(p) + ServerPieces(p) + TailPieces(p)
  }

  function Text(pieces: seq<Piece>): seq<byte> {
    if pieces == [] then [] else pieces[0].text + Text(pieces[1..])
  }

  function Rep(tag: Label, n: nat): (labels: seq<Label>)
    ensures |labels| == n
  {
    seq(n, _ => tag)
  }

  function Tags(pieces: seq<Piece>): (labels: seq<Label>)
    ensures |labels| == |Text(pieces)|
  {
    if pieces == [] then [] else Rep(pieces[0].tag, |pieces[0].text|) + Tags(pieces[1..])
  }

  /** Where each field's piece lies. */
  function Layout(pieces: seq<Piece>, base: nat): map<Field, Slice> {
    if pieces == [] then map[]
    else
      var n := |pieces[0].text|;
      var rest := Layout(pieces[1..], base + n);
      if pieces[0].tag.In? then rest[pieces[0].tag.field := Slice(base, n)] else rest
  }

  lemma {:induction false} TextSum(a: seq<Piece>, b: seq<Piece>)
    ensures Text(a + b) == Text(a) + Text(b)
  {
    if a == [] {
      assert a + b == b;
    } else {
      TextSum(a[1..], b);
      assert (a + b)[1..] == a[1..] + b;
      assert a[0].text + (Text(a[1..]) + Text(b)) == (a[0].text + Text(a[1..])) + Text(b);
    }
  }

  lemma {:induction false} TagsSum(a: seq<Piece>, b: seq<Piece>)
    ensures Tags(a + b) == Tags(a) + Tags(b)
  {
    hide Text, Rep;
    if a == [] {
      assert a + b == b;
    } else {
      TagsSum(a[1..], b);
      assert (a + b)[1..] == a[1..] + b;
      var head := Rep(a[0].tag, |a[0].text|);
      assert head + (Tags(a[1..]) + Tags(b)) == (head + Tags(a[1..])) + Tags(b);
    }
  }

  // ---------------------------------------------------------------- slices of a layout

  /** Fields occur in rank order from rank `r` on, each at most once and non-empty. */
  predicate Sorted(pieces: seq<Piece>, r: nat) {
    if pieces == [] then true
    else if pieces[0].tag.Delimiter? then Sorted(pieces[1..], r)
    else pieces[0].text != [] && r <= pieces[0].tag.field.Rank() && Sorted(pieces[1..], pieces[0].tag.field.Rank() + 1)
  }

  lemma {:induction false} RepCounts(tag: Label, n: nat, f: Field)
    ensures Count(Rep(tag, n), f) == if tag == In(f) then n else 0
    ensures n > 0 && tag == In(f) ==> First(Rep(tag, n), f) == 0
  {
    if n > 0 {
      RepCounts(tag, n - 1, f);
      assert Rep(tag, n)[..n - 1] == Rep(tag, n - 1);
    }
  }

  lemma {:induction false} OnlyLater(pieces: seq<Piece>, r: nat, f: Field)
    requires Sorted(pieces, r) && f.Rank() < r
    ensures Count(Tags(pieces), f) == 0
  {
    if pieces != [] {
      var head := pieces[0];
      CountSum(Rep(head.tag, |head.text|), Tags(pieces[1..]), f);
      RepCounts(head.tag, |head.text|, f);
      OnlyLater(pieces[1..], if head.tag.In? then head.tag.field.Rank() + 1 else r, f);
    }
  }

  lemma {:induction false} LayoutSlice(pieces: seq<Piece>, r: nat, base: nat, f: Field)
    requires Sorted(pieces, r)
    ensures f in Layout(pieces, base) <==> Has(Tags(pieces), f)
    ensures f in Layout(pieces, base) ==>
              Layout(pieces, base)[f] == Slice(base + First(Tags(pieces), f), Count(Tags(pieces), f))
  {
    hide Count, First, Rep, Text;
    if pieces == [] {
      NoLabels(f);
    } else {
      var head, rest := pieces[0], pieces[1..];
      var r' := if head.tag.In? then head.tag.field.Rank() + 1 else r;
      var n := |head.text|;
      LayoutSlice(rest, r', base + n, f);
      CountSum(Rep(head.tag, n), Tags(rest), f);
      FirstSum(Rep(head.tag, n), Tags(rest), f);
      RepCounts(head.tag, n, f);
      if head.tag == In(f) {
        OnlyLater(rest, r', f);
      }
    }
  }

  lemma NoLabels(f: Field)
    ensures Count([], f) == 0
  {
  }

  /** The slices of a tagged text are where its pieces lie. */
  lemma LayoutIsSlices(pieces: seq<Piece>, r: nat, base: nat)
    requires Sorted(pieces, r) && base + |Text(pieces)| <= 0xFFFF
    ensures Slices(Tags(pieces), base) == Layout(pieces, base)
  {
    hide Slices, Layout, Count, First, Tags, Text;
    var labels := Tags(pieces);
    forall f: Field
      ensures f in Slices(labels, base) <==> f in Layout(pieces, base)
      ensures f in Slices(labels, base) ==> Slices(labels, base)[f] == Layout(pieces, base)[f]
    {
      LayoutSlice(pieces, r, base, f);
      SliceAt(labels, base, f);
      StoreShrinks(base + First(labels, f), Count(labels, f));
    }
  }

  lemma {:induction false} LayoutSum(a: seq<Piece>, b: seq<Piece>, base: nat)
    requires Layout(a, base).Keys !! Layout(b, base + |Text(a)|).Keys
    ensures Layout(a + b, base) == Layout(a, base) + Layout(b, base + |Text(a)|)
  {
    if a == [] {
      assert a + b == b;
    } else {
      assert (a + b)[1..] == a[1..] + b;
      LayoutSum(a[1..], b, base + |a[0].text|);
    }
  }

  // ---------------------------------------------------------------- automata reading pieces

  ghost predicate Reads<S>(a: Automaton<S>, s: S, pieces: seq<Piece>, t: S) {
    a.State(s, Text(pieces)) == t && a.Labels(s, Text(pieces)) == Tags(pieces)
  }

  lemma ReadsOn<S>(a: Automaton<S>, s: S, x: seq<Piece>, t: S, y: seq<Piece>, u: S)
    requires Reads(a, s, x, t) && Reads(a, t, y, u)
    ensures Reads(a, s, x + y, u)
  {
    hide Text, Tags, Automaton.State, Automaton.Labels;
    TextSum(x, y);
    TagsSum(x, y);
    StateSplit(a, s, Text(x), Text(y));
  }

  lemma ReadsNothing<S>(a: Automaton<S>, s: S)
    ensures Reads(a, s, [], s)
  {
  }

  lemma OnePieceText(p: Piece)
    ensures Text([p]) == p.text && Tags([p]) == Rep(p.tag, |p.text|)
  {
    assert [p][1..] == [];
  }

  /** A word whose first byte enters `t` and whose other bytes stay there. */
  lemma {:induction false} ReadsWord<S>(a: Automaton<S>, s: S, t: S, text: seq<byte>)
    requires text != [] && a.step(s, text[0]) == t
    requires forall i :: 1 <= i < |text| ==> a.step(t, text[i]) == t
    ensures a.State(s, text) == t && a.Labels(s, text) == Rep(a.tag(t), |text|)
  {
    var n := |text| - 1;
    if n == 0 {
      assert a.State(s, text[..0]) == s && a.Labels(s, text[..0]) == [];
    } else {
      ReadsWord(a, s, t, text[..n]);
    }
  }

  lemma ReadsField<S>(a: Automaton<S>, s: S, t: S, f: Field, text: seq<byte>)
    requires text != [] ==> a.step(s, text[0]) == t && a.tag(t) == In(f)
    requires forall i :: 1 <= i < |text| ==> a.step(t, text[i]) == t
    ensures Reads(a, s, FieldPiece(f, text), if text == [] then s else t)
  {
    if text == [] {
      ReadsNothing(a, s);
    } else {
      ReadsPiece(a, s, t, In(f), text);
    }
  }

  lemma ReadsPiece<S>(a: Automaton<S>, s: S, t: S, tag: Label, text: seq<byte>)
    requires text != [] && a.step(s, text[0]) == t && a.tag(t) == tag
    requires forall i :: 1 <= i < |text| ==> a.step(t, text[i]) == t
    ensures Reads(a, s, [Piece(tag, text)], t)
  {
    OnePieceText(Piece(tag, text));
    ReadsWord(a, s, t, text);
  }

  /** Neighbouring pieces with the same tag read as one. */
  lemma Merged<S>(a: Automaton<S>, s: S, tag: Label, x: seq<byte>, y: seq<byte>, t: S)
    requires Reads(a, s, [Piece(tag, x)] + [Piece(tag, y)], t)
    ensures Reads(a, s, [Piece(tag, x + y)], t)
  {
    hide Automaton.State, Automaton.Labels;
    OnePieceText(Piece(tag, x));
    OnePieceText(Piece(tag, y));
    OnePieceText(Piece(tag, x + y));
    TextSum([Piece(tag, x)], [Piece(tag, y)]);
    TagsSum([Piece(tag, x)], [Piece(tag, y)]);
    assert Rep(tag, |x|) + Rep(tag, |y|) == Rep(tag, |x + y|);
  }

  // ---------------------------------------------------------------- the server part

  lemma HostReads(server: Server) returns (t: HostState)
    requires ValidServer(server)
    ensures (t.InHost? || t.V6End?) && Reads(HOST, HostStart, HostPieces(server), t)
  {
    match server
    case Name(chars) =>
      t := InHost;
      ReadsPiece(HOST, HostStart, InHost, In(Host), chars);
    case Ip6(address, zone) =>
      t := V6End;
      var open, close, host := Piece(Delimiter, [91]), Piece(Delimiter, [93]), Piece(In(Host), HostText(server));
      ReadsPiece(HOST, HostStart, V6Start, Delimiter, [91]);
      var inner := AddressReads(address, zone);
      ReadsPiece(HOST, inner, V6End, Delimiter, [93]);
      ReadsOn(HOST, HostStart, [open], V6Start, [host], inner);
      ReadsOn(HOST, HostStart, [open] + [host], inner, [close], V6End);
      assert [open] + [host] + [close] == HostPieces(server);
  }

  lemma AddressReads(address: seq<byte>, zone: Option<seq<byte>>) returns (t: HostState)
    requires ValidServer(Ip6(address, zone))
    ensures (t.V6? || t.Zone?) && Reads(HOST, V6Start, [Piece(In(Host), HostText(Ip6(address, zone)))], t)
  {
    ReadsPiece(HOST, V6Start, V6, In(Host), address);
    match zone
    case None =>
      t := V6;
      assert address + [] == address;
    case Some(z) =>
      t := Zone;
      ReadsPiece(HOST, V6, ZoneStart, In(Host), [37]);
      ReadsPiece(HOST, ZoneStart, Zone, In(Host), z);
      ReadsOn(HOST, V6, [Piece(In(Host), [37])], ZoneStart, [Piece(In(Host), z)], Zone);
      Merged(HOST, V6, In(Host), [37], z, Zone);
      ReadsOn(HOST, V6Start, [Piece(In(Host), address)], V6, [Piece(In(Host), [37] + z)], Zone);
      Merged(HOST, V6Start, In(Host), address, [37] + z, Zone);
  }

  /** The second automaton reads the server part as printed. */
  lemma ServerReads(p: Parts) returns (t: HostState)
    requires Valid(p)
    ensures HostEnds(t) && Reads(HOST, HostStartState(p.userinfo.Some?), ServerPieces(p), t)
  {
    hide Automaton.State, Automaton.Labels, Text, Tags;
    var s := HostStartState(p.userinfo.Some?);
    assert Reads(HOST, s, UserPieces(p), HostStart) by {
      if p.userinfo.Some? {
        var user, u := p.userinfo.value, if p.userinfo.value == [] then UserinfoStart else InUserinfo;
        ReadsField(HOST, UserinfoStart, InUserinfo, UserInfo, user);
        ReadsPiece(HOST, u, HostStart, Delimiter, [64]);
        ReadsOn(HOST, UserinfoStart, FieldPiece(UserInfo, user), u, [Piece(Delimiter, [64])], HostStart);
      } else {
        ReadsNothing(HOST, HostStart);
      }
    }
    var h := HostReads(p.server);
    t := if p.port.Some? then InPort else h;
    assert Reads(HOST, h, PortPieces(p), t) by {
      if p.port.Some? {
        ReadsPiece(HOST, h, PortStart, Delimiter, [58]);
        ReadsPiece(HOST, PortStart, InPort, In(Port), p.port.value);
        ReadsOn(HOST, h, [Piece(Delimiter, [58])], PortStart, [Piece(In(Port), p.port.value)], InPort);
        assert PortPieces(p) == [Piece(Delimiter, [58])] + [Piece(In(Port), p.port.value)];
      } else {
        ReadsNothing(HOST, h);
      }
    }
    ReadsOn(HOST, s, UserPieces(p), HostStart, HostPieces(p.server), h);
    ReadsOn(HOST, s, UserPieces(p) + HostPieces(p.server), h, PortPieces(p), t);
  }

  // ---------------------------------------------------------------- the whole URL

  predicate IsServerChar(c: byte) {
    IsUserinfoChar(c) || c == 91 || c == 93
  }

  lemma {:induction false} AllPieces(pieces: seq<Piece>, ok: byte -> bool)
    requires forall k :: 0 <= k < |pieces| ==> AllOf(pieces[k].text, ok)
    ensures AllOf(Text(pieces), ok)
  {
    if pieces != [] {
      AllPieces(pieces[1..], ok);
    }
  }

  /** Host and port consist of characters the first automaton accepts in a server part. */
  lemma HostTextAccepted(p: Parts)
    requires Valid(p)
    ensures var text := Text(HostPieces(p.server) + PortPieces(p)); text != [] && AllOf(text, IsServerChar)
  {
    var pieces := HostPieces(p.server) + PortPieces(p);
    assert AllOf(HostText(p.server), IsServerChar) && HostText(p.server) != [];
    assert p.port.Some? ==> AllOf(p.port.value, IsServerChar);
    assert forall k :: 0 <= k < |pieces| ==> AllOf(pieces[k].text, IsServerChar);
    AllPieces(pieces, IsServerChar);
    assert pieces[0].text != [];
  }

  /** The server part as the first automaton sees it: one field. */
  function ServerText(p: Parts): seq<byte> {
    Text(ServerPieces(p))
  }

  lemma ServerTextSplit(p: Parts)
    ensures ServerText(p) == UserText(p) + Text(HostPieces(p.server) + PortPieces(p))
  {
    hide HostPieces, PortPieces;
    var rest := HostPieces(p.server) + PortPieces(p);
    assert ServerPieces(p) == UserPieces(p) + rest;
    TextSum(UserPieces(p), rest);
    if p.userinfo.Some? {
      var at := Piece(Delimiter, [64]);
      FieldText(UserInfo, p.userinfo.value);
      OnePieceText(at);
      TextSum(FieldPiece(UserInfo, p.userinfo.value), [at]);
    }
  }

  function UserText(p: Parts): seq<byte> {
    if p.userinfo.Some? then p.userinfo.value + [64] else []
  }

  lemma FieldText(f: Field, text: seq<byte>)
    ensures Text(FieldPiece(f, text)) == text
  {
    if text != [] {
      OnePieceText(Piece(In(f), text));
    }
  }

  lemma ServerField(p: Parts)
    requires Valid(p)
    ensures Reads(URL, ServerStart, [Piece(In(Host), ServerText(p))], Server)
    ensures FoundAt(ServerStart, ServerText(p)) <==> p.userinfo.Some?
  {
    var host := Text(HostPieces(p.server) + PortPieces(p));
    ServerTextSplit(p);
    HostTextAccepted(p);
    hide ServerText, HostPieces, PortPieces, Text, Reads, FoundAt, UrlChar;
    if p.userinfo.Some? {
      UserHostField(p.userinfo.value, host);
    } else {
      HostField(host);
      assert [] + host == host;
    }
  }

  lemma HostField(host: seq<byte>)
    requires host != [] && AllOf(host, IsServerChar)
    ensures Reads(URL, ServerStart, [Piece(In(Host), host)], Server) && !FoundAt(ServerStart, host)
  {
    ReadsPiece(URL, ServerStart, Server, In(Host), host);
    NoAtSign(ServerStart, host);
  }

  lemma UserHostField(user: seq<byte>, host: seq<byte>)
    requires AllOf(user, IsUserinfoChar) && host != [] && AllOf(host, IsServerChar)
    ensures Reads(URL, ServerStart, [Piece(In(Host), (user + [64]) + host)], Server)
    ensures FoundAt(ServerStart, (user + [64]) + host)
  {
    UserField(user);
    ReadsPiece(URL, ServerWithAt, Server, In(Host), host);
    hide Reads, UrlChar;
    ReadsOn(URL, ServerStart, [Piece(In(Host), user + [64])], ServerWithAt, [Piece(In(Host), host)], Server);
    Merged(URL, ServerStart, In(Host), user + [64], host, Server);
    FoundSplit(ServerStart, user + [64], host);
  }

  lemma UserField(user: seq<byte>)
    requires AllOf(user, IsUserinfoChar)
    ensures Reads(URL, ServerStart, [Piece(In(Host), user + [64])], ServerWithAt) && FoundAt(ServerStart, user + [64])
  {
    hide Automaton.State, Automaton.Labels, Text, Tags;
    if user == [] {
      ReadsPiece(URL, ServerStart, ServerWithAt, In(Host), [64]);
      assert user + [64] == [64];
    } else {
      ReadsPiece(URL, ServerStart, Server, In(Host), user);
      ReadsPiece(URL, Server, ServerWithAt, In(Host), [64]);
      ReadsOn(URL, ServerStart, [Piece(In(Host), user)], Server, [Piece(In(Host), [64])], ServerWithAt);
      Merged(URL, ServerStart, In(Host), user, [64], ServerWithAt);
    }
    OnePieceText(Piece(In(Host), user + [64]));
  }

  lemma {:induction false} NoAtSign(s: UrlState, text: seq<byte>)
    requires forall i :: 0 <= i < |text| ==> text[i] != 64
    ensures !FoundAt(s, text)
  {
    if text != [] {
      var n := |text| - 1;
      NoAtSign(s, text[..n]);
      OnlyAtSign(URL.State(s, text[..n]), text[n]);
    }
  }

  lemma OnlyAtSign(s: UrlState, c: byte)
    ensures UrlChar(s, c).ServerWithAt? ==> c == 64
  {
  }

  lemma {:induction false} FoundSplit(s: UrlState, x: seq<byte>, y: seq<byte>)
    ensures FoundAt(s, x + y) <==> FoundAt(s, x) || FoundAt(URL.State(s, x), y)
  {
    hide UrlChar;
    if y == [] {
      assert x + y == x;
    } else {
      FoundSplit(s, x, y[..|y| - 1]);
      assert (x + y)[..|x + y| - 1] == x + y[..|y| - 1];
      StateSplit(URL, s, x, y);
    }
  }

  /** Past the server part an '@' is an ordinary character. */
  lemma {:induction false} LateAt(s: UrlState, text: seq<byte>)
    requires UrlLevel(s) >= 4
    ensures !FoundAt(s, text) && UrlLevel(URL.State(s, text)) >= 4
  {
    if text != [] {
      LateAt(s, text[..|text| - 1]);
    }
  }

  // ---------------------------------------------------------------- path, query, fragment

  /** A fragment directly after the server part, which the parser does not accept. */
  predicate BareFragment(p: Parts) {
    p.hashes > 0 && p.path == [] && p.query.None?
  }

  function PathState(p: Parts): UrlState {
    if p.path != [] then InPath else Server
  }

  function QueryState(p: Parts): UrlState {
    if p.query.None? then PathState(p) else if p.query.value == [] then QueryStart else InQuery
  }

  function TailState(p: Parts): UrlState {
    if p.hashes == 0 then QueryState(p) else if p.fragment == [] then FragmentStart else InFragment
  }

  lemma PathReads(p: Parts)
    requires WellFormed(p)
    ensures Reads(URL, Server, PathPieces(p), PathState(p))
  {
    ReadsField(URL, Server, InPath, Path, p.path);
  }

  lemma QueryReads(p: Parts)
    requires WellFormed(p)
    ensures Reads(URL, PathState(p), QueryPieces(p), QueryState(p))
  {
    hide Text, Tags, Automaton.State, Automaton.Labels;
    var s := PathState(p);
    if p.query.Some? {
      ReadsPiece(URL, s, QueryStart, Delimiter, [63]);
      ReadsField(URL, QueryStart, InQuery, Query, p.query.value);
      ReadsOn(URL, s, [Piece(Delimiter, [63])], QueryStart, FieldPiece(Query, p.query.value), QueryState(p));
    } else {
      ReadsNothing(URL, s);
    }
  }

  lemma FragmentReads(p: Parts)
    requires WellFormed(p) && !BareFragment(p)
    ensures Reads(URL, QueryState(p), FragmentPieces(p), TailState(p))
  {
    hide Text, Tags, Automaton.State, Automaton.Labels;
    var s := QueryState(p);
    if p.hashes > 0 {
      var hashes := Piece(Delimiter, Hashes(p.hashes));
      ReadsPiece(URL, s, FragmentStart, Delimiter, Hashes(p.hashes));
      ReadsField(URL, FragmentStart, InFragment, Fragment, p.fragment);
      ReadsOn(URL, s, [hashes], FragmentStart, FieldPiece(Fragment, p.fragment), TailState(p));
    } else {
      ReadsNothing(URL, s);
    }
  }

  lemma TailReads(p: Parts)
    requires Valid(p) && !BareFragment(p)
    ensures Reads(URL, Server, TailPieces(p), TailState(p))
  {
    hide Reads;
    PathReads(p);
    QueryReads(p);
    FragmentReads(p);
    ReadsOn(URL, Server, PathPieces(p), PathState(p), QueryPieces(p), QueryState(p));
    ReadsOn(URL, Server, PathPieces(p) + QueryPieces(p), QueryState(p), FragmentPieces(p), TailState(p));
  }

  lemma NoAtInTail(p: Parts)
    requires Valid(p) && !BareFragment(p)
    ensures !FoundAt(Server, Text(TailPieces(p)))
  {
    hide UrlChar;
    var text := Text(TailPieces(p));
    if text != [] {
      var c := text[0];
      assert text == [c] + text[1..];
      TailStarts(p);
      NoAtSign(Server, [c]);
      FoundSplit(Server, [c], text[1..]);
      LateAt(URL.State(Server, [c]), text[1..]);
    }
  }

  lemma TailStarts(p: Parts)
    requires Valid(p) && !BareFragment(p) && TailPieces(p) != []
    ensures Text(TailPieces(p)) != []
    ensures var c := Text(TailPieces(p))[0]; c != 64 && UrlLevel(URL.State(Server, [c])) >= 4
  {
    var pieces := TailPieces(p);
    assert Text(pieces)[0] == pieces[0].text[0] && (pieces[0].text[0] == 47 || pieces[0].text[0] == 63);
    assert [Text(pieces)[0]][..0] == [];
  }

  // ---------------------------------------------------------------- the theorem

  /** The pieces the first automaton sees. */
  function OuterPieces(p: Parts): seq<Piece> {
    SchemaPieces(p) + [Piece(In(Host), ServerText(p))] + TailPieces(p)
  }

  lemma SchemaReads(p: Parts)
    requires Valid(p)
    ensures Reads(URL, StartOf(p), SchemaPieces(p), ServerStart)
    ensures !FoundAt(StartOf(p), Text(SchemaPieces(p)))
  {
    if p.schema.None? {
      ReadsNothing(URL, ServerStart);
    } else {
      hide Text, Tags, Automaton.State, Automaton.Labels;
      var schema, sep := Piece(In(Schema), p.schema.value), Piece(Delimiter, [58, 47, 47]);
      ReadsPiece(URL, SpacesBeforeUrl, InSchema, In(Schema), p.schema.value);
      SeparatorReads();
      ReadsOn(URL, SpacesBeforeUrl, [schema], InSchema, [sep], ServerStart);
      assert SchemaPieces(p) == [schema] + [sep];
      OnePieceText(schema);
      OnePieceText(sep);
      TextSum([schema], [sep]);
      NoAtSign(SpacesBeforeUrl, Text(SchemaPieces(p)));
    }
  }

  lemma SeparatorReads()
    ensures Reads(URL, InSchema, [Piece(Delimiter, [58, 47, 47])], ServerStart)
  {
    hide Text, Tags, Automaton.State, Automaton.Labels;
    var x, y, z := Piece(Delimiter, [58]), Piece(Delimiter, [47]), Piece(Delimiter, [47]);
    ReadsPiece(URL, InSchema, SchemaSlash, Delimiter, [58]);
    ReadsPiece(URL, SchemaSlash, SchemaSlashSlash, Delimiter, [47]);
    ReadsPiece(URL, SchemaSlashSlash, ServerStart, Delimiter, [47]);
    ReadsOn(URL, InSchema, [x], SchemaSlash, [y], SchemaSlashSlash);
    Merged(URL, InSchema, Delimiter, [58], [47], SchemaSlashSlash);
    ReadsOn(URL, InSchema, [Piece(Delimiter, [58] + [47])], SchemaSlashSlash, [z], ServerStart);
    Merged(URL, InSchema, Delimiter, [58] + [47], [47], ServerStart);
    assert [58] + [47] + [47] == [58, 47, 47];
  }

  lemma OuterReads(p: Parts)
    requires Valid(p) && !BareFragment(p)
    ensures Reads(URL, StartOf(p), OuterPieces(p), TailState(p))
    ensures FoundAt(StartOf(p), Text(OuterPieces(p))) <==> p.userinfo.Some?
    ensures Text(OuterPieces(p)) == Text(PartPieces(p))
  {
    hide Automaton.State, Automaton.Labels, Text, Tags;
    var schema, server, tail := SchemaPieces(p), [Piece(In(Host), ServerText(p))], TailPieces(p);
    SchemaReads(p);
    ServerField(p);
    TailReads(p);
    NoAtInTail(p);
    OnePieceText(server[0]);
    ReadsOn(URL, StartOf(p), schema, ServerStart, server, Server);
    ReadsOn(URL, StartOf(p), schema + server, Server, tail, TailState(p));
    TextSum(schema, server);
    TextSum(schema + server, tail);
    TextSum(schema, ServerPieces(p));
    TextSum(schema + ServerPieces(p), tail);
    FoundSplit(StartOf(p), Text(schema), ServerText(p));
    FoundSplit(StartOf(p), Text(schema + server), Text(tail));
  }

  function Fields(pieces: seq<Piece>): set<Field> {
    if pieces == [] then {}
    else (if pieces[0].tag.In? then {pieces[0].tag.field} else {}) + Fields(pieces[1..])
  }

  lemma {:induction false} LayoutKeys(pieces: seq<Piece>, base: nat)
    ensures Layout(pieces, base).Keys == Fields(pieces)
  {
    if pieces != [] {
      LayoutKeys(pieces[1..], base + |pieces[0].text|);
    }
  }

  lemma {:induction false} FieldsSum(a: seq<Piece>, b: seq<Piece>)
    ensures Fields(a + b) == Fields(a) + Fields(b)
  {
    if a == [] {
      assert a + b == b;
    } else {
      FieldsSum(a[1..], b);
      assert (a + b)[1..] == a[1..] + b;
    }
  }

  lemma FieldsOne(x: Piece)
    ensures Fields([x]) == if x.tag.In? then {x.tag.field} else {}
  {
    assert [x][1..] == [];
  }

  lemma FieldsTwo(x: Piece, y: Piece)
    ensures Fields([x, y]) == Fields([x] + [y]) == Fields([x]) + Fields([y])
  {
    FieldsSum([x], [y]);
    assert [x, y] == [x] + [y];
  }

  lemma FieldsOfField(f: Field, text: seq<byte>)
    ensures Fields(FieldPiece(f, text)) == if text == [] then {} else {f}
  {
    FieldsOne(Piece(In(f), text));
  }

  lemma FieldsOfFront(p: Parts)
    ensures Fields(SchemaPieces(p)) == if p.schema.Some? then {Schema} else {}
    ensures Fields(HostPieces(p.server)) == {Host}
    ensures Fields(UserPieces(p)) == if p.userinfo.Some? && p.userinfo.value != [] then {UserInfo} else {}
    ensures Fields(PortPieces(p)) == if p.port.Some? then {Port} else {}
  {
    FieldsOfServer(p.server);
    if p.schema.Some? {
      FieldsTwo(Piece(In(Schema), p.schema.value), Piece(Delimiter, [58, 47, 47]));
    }
    if p.userinfo.Some? {
      FieldsOfField(UserInfo, p.userinfo.value);
      FieldsOne(Piece(Delimiter, [64]));
      FieldsSum(FieldPiece(UserInfo, p.userinfo.value), [Piece(Delimiter, [64])]);
    }
    if p.port.Some? {
      FieldsTwo(Piece(Delimiter, [58]), Piece(In(Port), p.port.value));
    }
  }

  lemma FieldsOfTail(p: Parts)
    requires p.fragment != [] ==> p.hashes > 0
    ensures Fields(PathPieces(p)) == if p.path != [] then {Path} else {}
    ensures Fields(QueryPieces(p)) == if p.query.Some? && p.query.value != [] then {Query} else {}
    ensures Fields(FragmentPieces(p)) == if p.fragment != [] then {Fragment} else {}
  {
    FieldsOfField(Path, p.path);
    if p.query.Some? {
      FieldsOfField(Query, p.query.value);
      FieldsOne(Piece(Delimiter, [63]));
      FieldsSum([Piece(Delimiter, [63])], FieldPiece(Query, p.query.value));
    }
    if p.hashes > 0 {
      FieldsOfField(Fragment, p.fragment);
      FieldsOne(Piece(Delimiter, Hashes(p.hashes)));
      FieldsSum([Piece(Delimiter, Hashes(p.hashes))], FieldPiece(Fragment, p.fragment));
    }
  }

  lemma FieldsOfParts(p: Parts)
    requires p.fragment != [] ==> p.hashes > 0
    ensures Fields(SchemaPieces(p)) <= {Schema}
    ensures Host in Fields(ServerPieces(p)) && Fields(ServerPieces(p)) <= {UserInfo, Host, Port}
    ensures Port in Fields(ServerPieces(p)) <==> p.port.Some?
    ensures UserInfo in Fields(ServerPieces(p)) <==> p.userinfo.Some? && p.userinfo.value != []
    ensures Fields(TailPieces(p)) <= {Path, Query, Fragment}
    ensures Fields(TailPieces(p)) == {} <==> p.path == [] && (p.query.None? || p.query.value == []) && p.fragment == []
  {
    hide Fields;
    FieldsOfFront(p);
    FieldsOfTail(p);
    FieldsSum(PathPieces(p) + QueryPieces(p), FragmentPieces(p));
    FieldsSum(PathPieces(p), QueryPieces(p));
    FieldsSum(UserPieces(p) + HostPieces(p.server), PortPieces(p));
    FieldsSum(UserPieces(p), HostPieces(p.server));
  }

  lemma FieldsOfServer(s: Server)
    ensures Fields(HostPieces(s)) == {Host}
  {
    var x := Piece(Delimiter, [91]);
    var y, z := Piece(In(Host), HostText(s)), Piece(Delimiter, [93]);
    FieldsOne(x);
    FieldsOne(y);
    FieldsOne(z);
    if s.Ip6? {
      FieldsSum([x], [y]);
      FieldsSum([x] + [y], [z]);
      assert HostPieces(s) == [x] + [y] + [z];
    }
  }

  lemma {:induction false} SortedWeaken(pieces: seq<Piece>, r: nat, m: nat)
    requires Sorted(pieces, m) && r <= m
    ensures Sorted(pieces, r)
  {
    if pieces != [] && pieces[0].tag.Delimiter? {
      SortedWeaken(pieces[1..], r, m);
    }
  }

  lemma {:induction false} SortedSum(a: seq<Piece>, r: nat, b: seq<Piece>, m: nat)
    requires Sorted(a, r) && Sorted(b, m) && r <= m && forall f: Field :: f in Fields(a) ==> f.Rank() < m
    ensures Sorted(a + b, r)
  {
    if a == [] {
      assert a + b == b;
      SortedWeaken(b, r, m);
    } else {
      assert (a + b)[1..] == a[1..] + b;
      assert forall f: Field :: f in Fields(a[1..]) ==> f in Fields(a);
      SortedSum(a[1..], if a[0].tag.In? then a[0].tag.field.Rank() + 1 else r, b, m);
    }
  }

  lemma SortedOne(x: Piece, r: nat)
    requires x.tag.In? ==> x.text != [] && r <= x.tag.field.Rank()
    ensures Sorted([x], r)
  {
    assert [x][1..] == [];
  }

  lemma SortedTwo(x: Piece, y: Piece, r: nat)
    requires x.tag.In? ==> x.text != [] && r <= x.tag.field.Rank()
    requires y.tag.In? ==> x.tag.Delimiter? && y.text != [] && r <= y.tag.field.Rank()
    ensures Sorted([x, y], r) && Sorted([x] + [y], r)
  {
    assert [x, y][1..] == [y];
    assert [x] + [y] == [x, y];
    SortedOne(y, if x.tag.In? then x.tag.field.Rank() + 1 else r);
  }

  lemma SortedDelimited(x: Piece, f: Field, text: seq<byte>, r: nat)
    requires x.tag.Delimiter? && r <= f.Rank()
    ensures Sorted([x] + FieldPiece(f, text), r)
  {
    if text == [] {
      SortedOne(x, r);
    } else {
      SortedTwo(x, Piece(In(f), text), r);
    }
  }

  lemma HostSorted(s: Server)
    requires ValidServer(s)
    ensures Sorted(HostPieces(s), 2)
  {
    var host := Piece(In(Host), HostText(s));
    SortedOne(host, 2);
    if s.Ip6? {
      SortedTwo(host, Piece(Delimiter, [93]), 2);
      assert HostPieces(s)[1..] == [host, Piece(Delimiter, [93])];
    }
  }

  lemma ServerSorted(p: Parts)
    requires Valid(p)
    ensures Sorted(ServerPieces(p), 1)
  {
    hide Fields;
    FieldsOfFront(p);
    FieldsOfTail(p);
    HostSorted(p.server);
    assert Sorted(UserPieces(p), 1) by {
      if p.userinfo.Some? {
        if p.userinfo.value == [] {
          SortedOne(Piece(Delimiter, [64]), 1);
        } else {
          SortedTwo(Piece(In(UserInfo), p.userinfo.value), Piece(Delimiter, [64]), 1);
        }
      }
    }
    assert Sorted(PortPieces(p), 3) by {
      if p.port.Some? {
        SortedTwo(Piece(Delimiter, [58]), Piece(In(Port), p.port.value), 3);
      }
    }
    hide Sorted;
    SortedSum(UserPieces(p), 1, HostPieces(p.server), 2);
    FieldsSum(UserPieces(p), HostPieces(p.server));
    SortedSum(UserPieces(p) + HostPieces(p.server), 1, PortPieces(p), 3);
  }

  lemma TailSorted(p: Parts)
    requires WellFormed(p)
    ensures Sorted(TailPieces(p), 4)
  {
    hide Fields;
    FieldsOfFront(p);
    FieldsOfTail(p);
    assert Sorted(PathPieces(p), 4) by {
      if p.path != [] {
        SortedOne(Piece(In(Path), p.path), 4);
      }
    }
    assert Sorted(QueryPieces(p), 5) by {
      if p.query.Some? {
        SortedDelimited(Piece(Delimiter, [63]), Query, p.query.value, 5);
      }
    }
    assert Sorted(FragmentPieces(p), 6) by {
      if p.hashes > 0 {
        SortedDelimited(Piece(Delimiter, Hashes(p.hashes)), Fragment, p.fragment, 6);
      }
    }
    hide Sorted;
    SortedSum(PathPieces(p), 4, QueryPieces(p), 5);
    FieldsSum(PathPieces(p), QueryPieces(p));
    SortedSum(PathPieces(p) + QueryPieces(p), 4, FragmentPieces(p), 6);
  }

  /** The printed parts are in URL order. */
  lemma OuterSorted(p: Parts)
    requires Valid(p)
    ensures Sorted(OuterPieces(p), 0)
  {
    var host := Piece(In(Host), ServerText(p));
    FieldsOfParts(p);
    TailSorted(p);
    FieldsOne(host);
    assert host.text != [] by { ServerTextSplit(p); HostTextAccepted(p); }
    SortedOne(host, 2);
    if p.schema.Some? {
      SortedTwo(Piece(In(Schema), p.schema.value), Piece(Delimiter, [58, 47, 47]), 0);
    }
    hide Sorted, Fields;
    SortedSum(SchemaPieces(p), 0, [host], 2);
    FieldsSum(SchemaPieces(p), [host]);
    SortedSum(SchemaPieces(p) + [host], 0, TailPieces(p), 4);
  }

  /** Replacing the server's slice by the slices of its own pieces. */
  lemma InnerLayout(p: Parts)
    requires Valid(p)
    ensures var off := |Text(SchemaPieces(p))|;
            var outer := Layout(OuterPieces(p), 0);
            && Host in outer && outer[Host] == Slice(off, |ServerText(p)|)
            && (outer - {Host}) + Layout(ServerPieces(p), off) == Layout(PartPieces(p), 0)
            && (Port in Layout(PartPieces(p), 0) <==> p.port.Some?)
            && Layout(PartPieces(p), 0).Keys ==
               Fields(SchemaPieces(p)) + Fields(ServerPieces(p)) + Fields(TailPieces(p))
  {
    hide Text, Layout, Fields;
    var schema, server, tail := SchemaPieces(p), ServerPieces(p), TailPieces(p);
    var host := Piece(In(Host), ServerText(p));
    var off := |Text(schema)|;
    var end := off + |ServerText(p)|;
    FieldsOfParts(p);
    FieldsOne(host);
    OnePieceText(host);
    LayoutKeys(schema, 0);
    LayoutKeys(server, off);
    LayoutKeys(tail, end);
    LayoutOne(host, off);
    TextSum(schema, server);
    TextSum(schema, [host]);
    LayoutSum(schema, server, 0);
    LayoutSum(schema, [host], 0);
    LayoutSum(schema + server, tail, 0);
    LayoutSum(schema + [host], tail, 0);
    SwapHost(Layout(schema, 0), Layout([host], off), Layout(server, off), Layout(tail, end));
  }

  lemma SwapHost(a: map<Field, Slice>, host: map<Field, Slice>, b: map<Field, Slice>, c: map<Field, Slice>)
    requires host.Keys == {Host} && Host !in a && Host !in c && b.Keys !! c.Keys
    ensures ((a + host + c) - {Host}) + b == a + b + c
    ensures Host in a + host + c && (a + host + c)[Host] == host[Host] && (a + b + c).Keys == a.Keys + b.Keys + c.Keys
  {
  }

  lemma LayoutOne(x: Piece, base: nat)
    ensures Layout([x], base) == if x.tag.In? then map[x.tag.field := Slice(base, |x.text|)] else map[]
  {
    assert [x][1..] == [];
  }

  lemma ServerSlice(p: Parts)
    ensures var off := |Text(SchemaPieces(p))|;
            var end := off + |ServerText(p)|;
            end <= |Text(PartPieces(p))| && Text(PartPieces(p))[off..end] == ServerText(p)
  {
    hide Text;
    TextSum(SchemaPieces(p) + ServerPieces(p), TailPieces(p));
    TextSum(SchemaPieces(p), ServerPieces(p));
  }

  /** The port digits lie where the layout says. */
  lemma PortText(p: Parts)
    requires Valid(p) && p.port.Some? && Port in Layout(PartPieces(p), 0)
    ensures var Slice(off, len) := Layout(PartPieces(p), 0)[Port];
            off + len <= |Text(PartPieces(p))| && Text(PartPieces(p))[off..off + len] == p.port.value
  {
    hide Text, Layout, Fields;
    var port := Piece(In(Port), p.port.value);
    FieldsOfFront(p);
    FieldsOfTail(p);
    FieldsOfParts(p);
    FieldsBeforePort(p);
    var front := SchemaPieces(p) + (UserPieces(p) + HostPieces(p.server) + [Piece(Delimiter, [58])]);
    assert PartPieces(p) == front + ([port] + TailPieces(p));
    PieceText(front, port, TailPieces(p), Port);
  }

  lemma FieldsBeforePort(p: Parts)
    requires p.fragment != [] ==> p.hashes > 0
    ensures Port !in Fields(SchemaPieces(p) + (UserPieces(p) + HostPieces(p.server) + [Piece(Delimiter, [58])]))
  {
    hide Fields;
    var colon := Piece(Delimiter, [58]);
    FieldsOfFront(p);
    FieldsOfTail(p);
    FieldsOne(colon);
    FieldsSum(UserPieces(p), HostPieces(p.server));
    FieldsSum(UserPieces(p) + HostPieces(p.server), [colon]);
    FieldsSum(SchemaPieces(p), UserPieces(p) + HostPieces(p.server) + [colon]);
  }

  lemma PieceText(front: seq<Piece>, x: Piece, back: seq<Piece>, f: Field)
    requires x.tag == In(f) && f !in Fields(front) && f !in Fields(back)
    ensures var pieces := front + ([x] + back);
            && f in Layout(pieces, 0) && Layout(pieces, 0)[f] == Slice(|Text(front)|, |x.text|)
            && |Text(front)| + |x.text| <= |Text(pieces)|
            && Text(pieces)[|Text(front)|..|Text(front)| + |x.text|] == x.text
  {
    var rest := [x] + back;
    TextSum(front, rest);
    TextSum([x], back);
    OnePieceText(x);
    LayoutAt(front, rest, 0, f);
    assert rest[0] == x;
  }

  lemma {:induction false} LayoutAt(a: seq<Piece>, b: seq<Piece>, base: nat, f: Field)
    requires f !in Fields(a) && f in Layout(b, base + |Text(a)|)
    ensures f in Layout(a + b, base) && Layout(a + b, base)[f] == Layout(b, base + |Text(a)|)[f]
  {
    if a == [] {
      assert a + b == b;
    } else {
      assert (a + b)[1..] == a[1..] + b;
      LayoutAt(a[1..], b, base + |a[0].text|, f);
    }
  }

  /** What parsing the printed parts should give. */
  function Expected(p: Parts): Url
    requires Valid(p)
  {
    Url(Layout(PartPieces(p), 0), if p.port.Some? then Decimal(p.port.value) else 0)
  }

  /** A CONNECT target may set host and port only; empty parts do not set anything. */
  predicate HostPortOnly(p: Parts) {
    && p.port.Some? && (p.userinfo.None? || p.userinfo.value == [])
    && p.path == [] && (p.query.None? || p.query.value == []) && p.fragment == []
  }

  predicate PortTooBig(p: Parts) {
    p.port.Some? && AllOf(p.port.value, IsDigit) && Decimal(p.port.value) > 0xFFFF
  }

  predicate Refused(p: Parts) {
    BareFragment(p) || (p.schema.None? && !HostPortOnly(p)) || PortTooBig(p)
  }

  /** Round trip: the printed parts parse back to exactly their slices and port value, except that a
      fragment directly after the server part is rejected, a CONNECT target with more than host and port,
      and a port above 65535. */
  lemma RoundTrip(p: Parts)
    requires Valid(p)
    ensures ParseUrl(Text(PartPieces(p)), p.schema.None?) == if Refused(p) then None else Some(Expected(p))
  {
    if BareFragment(p) {
      BareFragmentDies(p);
    } else {
      PrintedParses(p);
    }
  }

  lemma BareFragmentDies(p: Parts)
    requires Valid(p) && BareFragment(p)
    ensures ParseUrl(Text(PartPieces(p)), p.schema.None?) == None
  {
    hide Automaton.State, Automaton.Labels, Text, Tags, Slices;
    var front := SchemaPieces(p) + [Piece(In(Host), ServerText(p))];
    var rest := Text(TailPieces(p));
    SchemaReads(p);
    ServerField(p);
    OnePieceText(Piece(In(Host), ServerText(p)));
    ReadsOn(URL, StartOf(p), SchemaPieces(p), ServerStart, [Piece(In(Host), ServerText(p))], Server);
    TextSum(SchemaPieces(p), [Piece(In(Host), ServerText(p))]);
    TextSum(SchemaPieces(p), ServerPieces(p));
    TextSum(SchemaPieces(p) + ServerPieces(p), TailPieces(p));
    HashFirst(p);
    StateSplit(URL, StartOf(p), Text(front), [35]);
    DeadStays(Text(front) + [35], rest[1..], StartOf(p));
    assert Text(front) + [35] + rest[1..] == Text(front) + rest;
  }

  lemma HashFirst(p: Parts)
    requires Valid(p) && BareFragment(p)
    ensures var rest := Text(TailPieces(p)); rest != [] && rest[0] == 35
    ensures URL.State(Server, [35]).Dead?
  {
    assert TailPieces(p) == FragmentPieces(p);
    assert [35][..0] == [];
  }

  lemma PrintedSplits(p: Parts)
    requires Valid(p) && !BareFragment(p)
    ensures var buf, outer := Text(PartPieces(p)), Layout(OuterPieces(p), 0);
            && SplitFields(buf, p.schema.None?) == Some(outer)
            && (FoundAt(StartOf(p), buf) <==> p.userinfo.Some?)
            && Host in outer && outer[Host].off + outer[Host].len <= |buf|
            && ParseHost(buf, outer, p.userinfo.Some?) == Some(Layout(PartPieces(p), 0))
  {
    hide Automaton.State, Automaton.Labels, Text, Tags, Slices, Layout, Sorted, FoundAt;
    var off := |Text(SchemaPieces(p))|;
    OuterReads(p);
    OuterSorted(p);
    LayoutIsSlices(OuterPieces(p), 0, 0);
    InnerLayout(p);
    ServerSlice(p);
    var t := ServerReads(p);
    ServerSorted(p);
    LayoutIsSlices(ServerPieces(p), 1, off);
  }

  lemma PortValue(p: Parts)
    requires Valid(p) && !BareFragment(p) && p.port.Some?
    ensures var all := Layout(PartPieces(p), 0);
            Port in all && DecimalAt(Text(PartPieces(p)), all[Port].off) == Decimal(p.port.value)
  {
    hide SplitFields, ParseHost, DecimalAt, Decimal, Divides, Text, Layout, FoundAt, OuterPieces, PartPieces;
    PrintedSplits(p);
    InnerLayout(p);
    PortText(p);
    HostPartition(Text(PartPieces(p)), p.schema.None?, p.userinfo.Some?);
  }

  lemma KeysOfConnect(p: Parts)
    requires Valid(p) && p.schema.None?
    ensures Layout(PartPieces(p), 0).Keys == {Host, Port} <==> HostPortOnly(p)
  {
    hide Layout, Fields, Text;
    InnerLayout(p);
    FieldsOfFront(p);
    FieldsOfParts(p);
  }

  lemma PrintedParses(p: Parts)
    requires Valid(p) && !BareFragment(p)
    ensures ParseUrl(Text(PartPieces(p)), p.schema.None?) == if Refused(p) then None else Some(Expected(p))
  {
    hide SplitFields, ParseHost, DecimalAt, Decimal, Text, Layout, FoundAt, OuterPieces, PartPieces;
    PrintedSplits(p);
    InnerLayout(p);
    if p.schema.None? {
      KeysOfConnect(p);
    }
    if p.port.Some? {
      PortValue(p);
    }
  }
}
