/** The streaming base64 encoder of the HTTP client: a shift register that takes bytes and gives out
    six bits at a time, against the three-to-four block coding of section 4 of RFC 4648. */
module Base64Enc {
  import opened Arithmetic
  import opened Bytes
  import opened Wrappers

  type sextet = n: nat | n < 64

  /** The place of byte `n` in its group of three. */
  function Place(n: nat): nat {
    n % 3
  }

  lemma Places(g: nat)
    requires Place(g) == 0
    ensures Place(g + 1) == 1 && Place(g + 2) == 2 && Place(g + 3) == 0
  {
  }

  // ---------------------------------------------------------------- the block coding

  // The four sextets of a group of three bytes.

  function First(x: byte): sextet {
    x / 4
  }

  function Second(x: byte, y: byte): sextet {
    (x % 4) * 16 + y / 16
  }

  function Third(y: byte, z: byte): sextet {
    (y % 16) * 4 + z / 64
  }

  function Fourth(z: byte): sextet {
    z % 64
  }

  function Group(x: byte, y: byte, z: byte): seq<sextet> {
    [First(x), Second(x, y), Third(y, z), Fourth(z)]
  }

  /** Section 4 of RFC 4648: each group of three bytes is four sextets; a short last group is filled up
      with zero bits. */
  function Blocks(s: seq<byte>): seq<sextet> {
    if |s| == 0 then []
    else if |s| == 1 then [First(s[0]), Second(s[0], 0)]
    else if |s| == 2 then [First(s[0]), Second(s[0], s[1]), Third(s[1], 0)]
    else Group(s[0], s[1], s[2]) + Blocks(s[3..])
  }

  /** The 64 letters in order: A to Z, a to z, 0 to 9, plus and slash. */
  function Letter(v: sextet): char {
    if v < 26 then 'A' + v as char
    else if v < 52 then 'a' + (v - 26) as char
    else if v < 62 then '0' + (v - 52) as char
    else if v == 62 then '+'
    else '/'
  }

  const UPPER: string := "ABCDEFGHIJKLMNOPQRSTUVWXYZ"
  const LOWER: string := "abcdefghijklmnopqrstuvwxyz"
  const DIGITS: string := "0123456789"

  /** They are those of the code table. */
  lemma LetterIs(v: sextet)
    ensures Letter(v) == (UPPER + LOWER + DIGITS + "+/")[v]
  {
    if v < 26 {
      InOrder(UPPER, v);
    } else if v < 52 {
      InOrder(LOWER, v - 26);
    } else if v < 62 {
      InOrder(DIGITS, v - 52);
    }
  }

  lemma InOrder(letters: string, i: nat)
    requires letters in {UPPER, LOWER, DIGITS} && i < |letters|
    ensures letters[i] as int == letters[0] as int + i
  {
  }

  function Letters(v: seq<sextet>): (t: string)
    ensures |t| == |v|
  {
    seq(|v|, i requires 0 <= i < |v| => Letter(v[i]))
  }

  function Padding(n: nat): string {
    if Place(n) == 1 then "==" else if Place(n) == 2 then "=" else ""
  }

  /** The base64 text of a byte string. */
  function Text(s: seq<byte>): string {
    Letters(Blocks(s)) + Padding(|s|)
  }

  lemma {:induction false} TextLength(s: seq<byte>)
    ensures |Blocks(s)| == |s| + (|s| + 2) / 3 && |Text(s)| == 4 * ((|s| + 2) / 3)
  {
    BlocksLength(s, |s| / 3, Place(|s|));
    GroupCount(|s|, |s| / 3, Place(|s|));
    hide Blocks;
  }

  lemma {:induction false} BlocksLength(s: seq<byte>, q: nat, r: nat)
    requires |s| == 3 * q + r && r < 3
    ensures |Blocks(s)| == 4 * q + if r == 0 then 0 else r + 1
    decreases q
  {
    if q > 0 {
      BlocksLength(s[3..], q - 1, r);
    }
  }

  // ---------------------------------------------------------------- decoding

  function Value(c: char): Option<sextet> {
    if 'A' <= c <= 'Z' then Some(c as int - 'A' as int)
    else if 'a' <= c <= 'z' then Some(c as int - 'a' as int + 26)
    else if '0' <= c <= '9' then Some(c as int - '0' as int + 52)
    else if c == '+' then Some(62)
    else if c == '/' then Some(63)
    else None
  }

  /** Section 4 of RFC 4648 read backwards; padding only in the last group, and only zero filling bits. */
  function Decode(t: string): Option<seq<byte>> {
    if t == "" then Some([])
    else if |t| < 4 || Value(t[0]).None? || Value(t[1]).None? then None
    else
      var a, b := Value(t[0]).value, Value(t[1]).value;
      if |t| == 4 && t[2] == '=' then
        if t[3] == '=' && b % 16 == 0 then Some([a * 4 + b / 16]) else None
      else if Value(t[2]).None? then None
      else
        var c := Value(t[2]).value;
        if |t| == 4 && t[3] == '=' then
          if c % 4 == 0 then Some([a * 4 + b / 16, (b % 16) * 16 + c / 4]) else None
        else if Value(t[3]).None? then None
        else
          var d, rest := Value(t[3]).value, Decode(t[4..]);
          if rest.None? then None
          else Some([a * 4 + b / 16, (b % 16) * 16 + c / 4, (c % 4) * 64 + d] + rest.value)
  }

  lemma LetterValue(v: sextet)
    ensures Value(Letter(v)) == Some(v) && Letter(v) != '='
  {
  }

  lemma FourLetters(t: string, a: sextet, b: sextet, c: sextet, d: sextet)
    requires |t| >= 4 && t[..4] == [Letter(a), Letter(b), Letter(c), Letter(d)] && Decode(t[4..]).Some?
    ensures Decode(t) == Some([a * 4 + b / 16, (b % 16) * 16 + c / 4, (c % 4) * 64 + d] + Decode(t[4..]).value)
  {
    hide Value, Letter, Decode;
    assert t[0] == t[..4][0] && t[1] == t[..4][1] && t[2] == t[..4][2] && t[3] == t[..4][3];
    LetterValue(a);
    LetterValue(b);
    LetterValue(c);
    LetterValue(d);
    FourValues(t, a, b, c, d);
  }

  lemma FourValues(t: string, a: sextet, b: sextet, c: sextet, d: sextet)
    requires |t| >= 4 && Value(t[0]) == Some(a) && Value(t[1]) == Some(b)
    requires Value(t[2]) == Some(c) && Value(t[3]) == Some(d) && t[2] != '=' && t[3] != '=' && Decode(t[4..]).Some?
    ensures Decode(t) == Some([a * 4 + b / 16, (b % 16) * 16 + c / 4, (c % 4) * 64 + d] + Decode(t[4..]).value)
  {
    hide Value;
  }

  /** Bytes put together again from their sextets. */
  lemma Joined(x: byte, y: byte, z: byte)
    ensures First(x) * 4 + Second(x, y) / 16 == x
    ensures (Second(x, y) % 16) * 16 + Third(y, z) / 4 == y
    ensures (Third(y, z) % 4) * 64 + Fourth(z) == z
    ensures Second(x, 0) % 16 == 0 && Third(y, 0) % 4 == 0
  {
  }

  /** Four letters with more text behind them, or a full last group, give three bytes. */
  lemma FullGroup(x: byte, y: byte, z: byte, t: string)
    requires |t| >= 4 && t[..4] == Letters(Group(x, y, z)) && Decode(t[4..]).Some?
    ensures Decode(t) == Some([x, y, z] + Decode(t[4..]).value)
  {
    hide Decode, Letter, Letters, Group, First, Second, Third, Fourth;
    GroupLetters(x, y, z);
    FourLetters(t, First(x), Second(x, y), Third(y, z), Fourth(z));
    Joined(x, y, z);
  }

  lemma GroupLetters(x: byte, y: byte, z: byte)
    ensures Letters(Group(x, y, z)) == [Letter(First(x)), Letter(Second(x, y)), Letter(Third(y, z)), Letter(Fourth(z))]
  {
  }

  lemma OneByte(x: byte)
    ensures Decode([Letter(First(x)), Letter(Second(x, 0)), '=', '=']) == Some([x])
  {
    hide Value, Letter, First, Second, Third, Fourth;
    LetterValue(First(x));
    LetterValue(Second(x, 0));
    Joined(x, 0, 0);
  }

  lemma TwoBytes(x: byte, y: byte)
    ensures Decode([Letter(First(x)), Letter(Second(x, y)), Letter(Third(y, 0)), '=']) == Some([x, y])
  {
    hide Value, Letter, First, Second, Third, Fourth;
    LetterValue(First(x));
    LetterValue(Second(x, y));
    LetterValue(Third(y, 0));
    Joined(x, y, 0);
  }

  lemma ShortText(s: seq<byte>)
    requires 0 < |s| < 3
    ensures |s| == 1 ==> Text(s) == [Letter(First(s[0])), Letter(Second(s[0], 0)), '=', '=']
    ensures |s| == 2 ==> Text(s) == [Letter(First(s[0])), Letter(Second(s[0], s[1])), Letter(Third(s[1], 0)), '=']
  {
    hide Letter, First, Second, Third;
    assert Place(|s|) == |s|;
  }

  /** Decoding the text gives the bytes back. */
  lemma {:induction false} RoundTrip(s: seq<byte>)
    ensures Decode(Text(s)) == Some(s)
  {
    if |s| > 0 {
      hide Decode, Text, Letter, First, Second, Third, Fourth;
      if |s| == 1 {
        OneByte(s[0]);
        ShortText(s);
        assert s == [s[0]];
      } else if |s| == 2 {
        TwoBytes(s[0], s[1]);
        ShortText(s);
        assert s == [s[0], s[1]];
      } else {
        RoundTrip(s[3..]);
        GroupRoundTrip(s);
      }
    }
  }

  lemma GroupRoundTrip(s: seq<byte>)
    requires |s| >= 3 && Decode(Text(s[3..])) == Some(s[3..])
    ensures Decode(Text(s)) == Some(s)
  {
    hide Decode, Text, Letters, Group;
    GroupFirst(s);
    GroupLetters(s[0], s[1], s[2]);
    FullGroup(s[0], s[1], s[2], Text(s));
    assert s == [s[0], s[1], s[2]] + s[3..];
  }

  lemma GroupFirst(s: seq<byte>)
    requires |s| >= 3
    ensures Text(s) == Letters(Group(s[0], s[1], s[2])) + Text(s[3..])
  {
    hide Letter, Group;
    BlocksUnfold(s);
    hide Blocks;
    assert Place(|s|) == Place(|s| - 3);
    hide Place;
    assert Letters(Blocks(s)) == Letters(Group(s[0], s[1], s[2])) + Letters(Blocks(s[3..]));
  }

  lemma ValueLetter(c: char)
    requires Value(c).Some?
    ensures Letter(Value(c).value) == c
  {
  }

  /** Four sextets joined into bytes and split again. */
  lemma Resplit(a: sextet, b: sextet, c: sextet, d: sextet)
    ensures var x, y, z := a * 4 + b / 16, (b % 16) * 16 + c / 4, (c % 4) * 64 + d;
            && First(x) == a && Second(x, y) == b && Third(y, z) == c && Fourth(z) == d
            && (b % 16 == 0 ==> Second(x, 0) == b) && (c % 4 == 0 ==> Third(y, 0) == c)
  {
  }

  /** The converse: only the text of a byte string decodes to it. */
  lemma {:induction false} OnlyTextDecodes(t: string)
    requires Decode(t).Some?
    ensures Text(Decode(t).value) == t
  {
    hide Letter, Value, Text;
    if t == "" {
      TextLength([]);
    } else {
      if |t| == 4 && t[2] == '=' {
        OneDecodes(t);
      } else if |t| == 4 && t[3] == '=' {
        TwoDecode(t);
      } else {
        OnlyTextDecodes(t[4..]);
        GroupDecodes(t);
      }
    }
  }

  lemma OneDecodes(t: string)
    requires |t| == 4 && t[2] == '=' && Decode(t).Some?
    ensures Text(Decode(t).value) == t
  {
    hide Letter, Value, Text, First, Second, Third, Fourth;
    ValueLetter(t[0]);
    ValueLetter(t[1]);
    Resplit(Value(t[0]).value, Value(t[1]).value, 0, 0);
    ShortText(Decode(t).value);
    assert t == [t[0], t[1], t[2], t[3]];
  }

  lemma TwoDecode(t: string)
    requires |t| == 4 && t[2] != '=' && t[3] == '=' && Decode(t).Some?
    ensures Text(Decode(t).value) == t
  {
    hide Letter, Value, Text, First, Second, Third, Fourth;
    ValueLetter(t[0]);
    ValueLetter(t[1]);
    ValueLetter(t[2]);
    Resplit(Value(t[0]).value, Value(t[1]).value, Value(t[2]).value, 0);
    ShortText(Decode(t).value);
    assert t == [t[0], t[1], t[2], t[3]];
  }

  lemma GroupDecodes(t: string)
    requires |t| >= 4 && Decode(t).Some? && !(|t| == 4 && (t[2] == '=' || t[3] == '='))
    requires Decode(t[4..]).Some? && Text(Decode(t[4..]).value) == t[4..]
    ensures Text(Decode(t).value) == t
  {
    var x, y, z := FirstGroup(t);
    hide Decode, Letter, Letters, Group, Text, First, Second, Third, Fourth;
    var s := Decode(t).value;
    assert s[0] == x && s[1] == y && s[2] == z && s[3..] == Decode(t[4..]).value;
    Assembled(t, s);
  }

  lemma Assembled(t: string, s: seq<byte>)
    requires |t| >= 4 && |s| >= 3 && t[4..] == Text(s[3..])
    requires t[0] == Letter(First(s[0])) && t[1] == Letter(Second(s[0], s[1]))
    requires t[2] == Letter(Third(s[1], s[2])) && t[3] == Letter(Fourth(s[2]))
    ensures Text(s) == t
  {
    hide Letter, Letters, Group, Text, First, Second, Third, Fourth;
    GroupFirst(s);
    GroupLetters(s[0], s[1], s[2]);
    assert t == [t[0], t[1], t[2], t[3]] + t[4..];
  }

  /** The bytes of a full group and the letters that spell them. */
  lemma FirstGroup(t: string) returns (x: byte, y: byte, z: byte)
    requires |t| >= 4 && Decode(t).Some? && !(|t| == 4 && (t[2] == '=' || t[3] == '='))
    ensures t[0] == Letter(First(x)) && t[1] == Letter(Second(x, y))
    ensures t[2] == Letter(Third(y, z)) && t[3] == Letter(Fourth(z))
    ensures Decode(t[4..]).Some? && Decode(t).value == [x, y, z] + Decode(t[4..]).value
  {
    hide Letter, Value, First, Second, Third, Fourth;
    var a: int, b: int := Value(t[0]).value, Value(t[1]).value;
    var c: int, d: int := Value(t[2]).value, Value(t[3]).value;
    x, y, z := a * 4 + b / 16, (b % 16) * 16 + c / 4, (c % 4) * 64 + d;
    Resplit(a, b, c, d);
    ValueLetter(t[0]);
    ValueLetter(t[1]);
    ValueLetter(t[2]);
    ValueLetter(t[3]);
  }

  // ---------------------------------------------------------------- the shift register

  /** Two bits left over from the byte before, as the register holds them once the next byte is in: a
      byte of 128 or more, where plain char is signed, has set every higher bit. */
  function Second'(x: byte, y: byte, signed: bool): sextet {
    (if signed && y >= 128 then 48 else (x % 4) * 16) + y / 16
  }

  function Third'(y: byte, z: byte, signed: bool): sextet {
    (if signed && z >= 128 then 60 else (y % 16) * 4) + z / 64
  }

  /** What the last byte of `s` makes the register give out. */
  function Last(s: seq<byte>, signed: bool): seq<sextet>
    requires |s| > 0
  {
    var n := |s| - 1;
    if Place(n) == 0 then [First(s[n])]
    else if Place(n) == 1 then [Second'(s[n - 1], s[n], signed)]
    else [Third'(s[n - 1], s[n], signed), Fourth(s[n])]
  }

  /** What has come out of the register after the bytes of `s`. */
  function Streamed(s: seq<byte>, signed: bool): seq<sextet> {
    if |s| == 0 then [] else Streamed(s[..|s| - 1], signed) + Last(s, signed)
  }

  lemma Parted(s: seq<byte>, signed: bool)
    requires |s| > 0
    ensures Streamed(s, signed) == Streamed(s[..|s| - 1], signed) + Last(s, signed)
  {
  }

  /** The bits still in the register, filled up with zeros. */
  function Flushed(s: seq<byte>): seq<sextet> {
    if Place(|s|) == 1 then [Second(s[|s| - 1], 0)]
    else if Place(|s|) == 2 then [Third(s[|s| - 1], 0)]
    else []
  }

  lemma BlocksUnfold(s: seq<byte>)
    requires |s| >= 3
    ensures Blocks(s) == Group(s[0], s[1], s[2]) + Blocks(s[3..])
  {
  }

  lemma {:induction false} BlocksAppend(a: seq<byte>, b: seq<byte>, k: nat)
    requires |a| == 3 * k
    ensures Blocks(a + b) == Blocks(a) + Blocks(b)
    decreases k
  {
    hide Blocks, Group;
    if k == 0 {
      NoBlocks();
      assert a == [] && a + b == b;
    } else {
      BlocksUnfold(a);
      BlocksUnfold(a + b);
      BlocksAppend(a[3..], b, k - 1);
      assert (a + b)[3..] == a[3..] + b;
    }
  }

  lemma NoBlocks()
    ensures Blocks([]) == []
  {
  }

  lemma StreamedUnfold(s: seq<byte>, g: nat, signed: bool)
    requires Place(g) == 0 && |s| == g + 3
    ensures Streamed(s, signed) == Streamed(s[..g], signed) +
              [First(s[g]), Second'(s[g], s[g + 1], signed), Third'(s[g + 1], s[g + 2], signed), Fourth(s[g + 2])]
  {
    Places(g);
    hide Place, Streamed, First, Second', Third', Fourth;
    var t, u := s[..g + 2], s[..g + 1];
    assert t[..g + 1] == u && u[..g] == s[..g];
    Parted(s, signed);
    Parted(t, signed);
    Parted(u, signed);
  }

  lemma {:induction false} StreamedGroups(s: seq<byte>, k: nat)
    requires |s| == 3 * k
    ensures Streamed(s, false) == Blocks(s)
    decreases k
  {
    if k > 0 {
      var g := 3 * (k - 1);
      var a, b := s[..g], s[g..];
      StreamedUnfold(s, g, false);
      Unsigned(s[g], s[g + 1], s[g + 2]);
      OneGroup(b);
      hide Blocks, Streamed, First, Second, Third, Fourth, Second', Third';
      StreamedGroups(a, k - 1);
      BlocksAppend(a, b, k - 1);
      assert a + b == s;
    }
  }

  lemma OneGroup(b: seq<byte>)
    requires |b| == 3
    ensures Blocks(b) == Group(b[0], b[1], b[2])
  {
    BlocksUnfold(b);
    assert Blocks(b[3..]) == [];
  }

  lemma Unsigned(x: byte, y: byte, z: byte)
    ensures Second'(x, y, false) == Second(x, y) && Third'(y, z, false) == Third(y, z)
  {
  }

  lemma GroupStart(n: nat, k: nat)
    requires k == n / 3
    ensures 3 * k <= n < 3 * k + 3 && Place(3 * k) == 0
  {
  }

  /** The register's output, filled up, is the block coding: the streaming form refines the simple one. */
  lemma StreamIsBlocks(s: seq<byte>)
    ensures Streamed(s, false) + Flushed(s) == Blocks(s)
  {
    var k := |s| / 3;
    GroupStart(|s|, k);
    hide Place, Blocks, Streamed, Rest, Flushed;
    var a, b := s[..3 * k], s[3 * k..];
    assert a + b == s;
    BlocksAppend(a, b, k);
    StreamedGroups(a, k);
    StreamedRest(s, 3 * k);
    RestFlushed(s, 3 * k);
  }

  lemma RestFlushed(s: seq<byte>, g: nat)
    requires Place(g) == 0 && g <= |s| < g + 3
    ensures Blocks(s[g..]) == Rest(s[g..]) + Flushed(s)
  {
    Places(g);
    hide Place, First, Second, Third;
  }

  /** What a last group of fewer than three bytes has given out before it is filled up. */
  function Rest(b: seq<byte>): seq<sextet>
    requires |b| < 3
  {
    if |b| == 0 then [] else if |b| == 1 then [First(b[0])] else [First(b[0]), Second(b[0], b[1])]
  }

  lemma StreamedRest(s: seq<byte>, g: nat)
    requires Place(g) == 0 && g <= |s| < g + 3
    ensures Streamed(s, false) == Streamed(s[..g], false) + Rest(s[g..])
  {
    if |s| == g {
      assert s[..g] == s;
    } else if |s| == g + 1 {
      hide Streamed, First;
      Parted(s, false);
    } else {
      hide Streamed, Rest;
      RestOfTwo(s, g);
    }
  }

  lemma RestOfTwo(s: seq<byte>, g: nat)
    requires Place(g) == 0 && |s| == g + 2
    ensures Streamed(s, false) == Streamed(s[..g], false) + Rest(s[g..])
  {
    Places(g);
    var t, b := s[..g + 1], s[g..];
    Unsigned(s[g], s[g + 1], 0);
    LastFirst(t, false);
    LastSecond(s, false);
    assert Rest(b) == [First(s[g])] + [Second(s[g], s[g + 1])];
    hide Place, Streamed, Rest, Last, First, Second, Second', Third', Fourth;
    assert t[..g] == s[..g];
    Parted(s, false);
    Parted(t, false);
  }

  lemma LastFirst(s: seq<byte>, signed: bool)
    requires |s| > 0 && Place(|s| - 1) == 0
    ensures Last(s, signed) == [First(s[|s| - 1])]
  {
  }

  lemma LastSecond(s: seq<byte>, signed: bool)
    requires |s| > 1 && Place(|s| - 1) == 1
    ensures Last(s, signed) == [Second'(s[|s| - 2], s[|s| - 1], signed)]
  {
  }

  // ---------------------------------------------------------------- signed char

  /** Byte `i` leaves the bits before it as they are: it is below 128, or those bits are all ones anyway. */
  predicate CleanAt(s: seq<byte>, i: nat)
    requires i < |s|
  {
    s[i] >= 128 ==> (Place(i) == 1 ==> s[i - 1] % 4 == 3) && (Place(i) == 2 ==> s[i - 1] % 16 == 15)
  }

  predicate Clean(s: seq<byte>) {
    forall i :: 0 <= i < |s| ==> CleanAt(s, i)
  }

  /** With signed char the register gives the right sextets exactly for clean strings. */
  lemma {:induction false} CleanIff(s: seq<byte>)
    ensures |Streamed(s, true)| == |Streamed(s, false)|
    ensures Streamed(s, true) == Streamed(s, false) <==> Clean(s)
  {
    if |s| > 0 {
      var n := |s| - 1;
      CleanIff(s[..n]);
      CleanGrows(s);
      LastIff(s);
      hide Streamed, Clean, CleanAt;
      ghost var x, y := Streamed(s[..n], true), Streamed(s[..n], false);
      Parted(s, true);
      Parted(s, false);
      SplitEqual(x, Last(s, true), y, Last(s, false));
    }
  }

  lemma LastIff(s: seq<byte>)
    requires |s| > 0
    ensures |Last(s, true)| == |Last(s, false)|
    ensures Last(s, true) == Last(s, false) <==> CleanAt(s, |s| - 1)
  {
    var n := |s| - 1;
    if Place(n) == 1 {
      assert Last(s, true) == Last(s, false) <==> Last(s, true)[0] == Last(s, false)[0];
    } else if Place(n) == 2 {
      assert Last(s, true) == Last(s, false) <==> Last(s, true)[0] == Last(s, false)[0];
    }
  }

  lemma CleanGrows(s: seq<byte>)
    requires |s| > 0
    ensures Clean(s) <==> Clean(s[..|s| - 1]) && CleanAt(s, |s| - 1)
  {
    var t := s[..|s| - 1];
    forall i | 0 <= i < |t| ensures CleanAt(t, i) == CleanAt(s, i) {
    }
  }

  lemma SplitEqual(a: seq<sextet>, b: seq<sextet>, c: seq<sextet>, d: seq<sextet>)
    requires |a| == |c| && |b| == |d|
    ensures a + b == c + d <==> a == c && b == d
  {
    if a + b == c + d {
      assert a == (a + b)[..|a|] && c == (c + d)[..|a|];
      assert b == (a + b)[|a|..] && d == (c + d)[|a|..];
    }
  }

  /** The text the encoder writes. */
  function Written(s: seq<byte>, signed: bool): string {
    Letters(Streamed(s, signed) + Flushed(s)) + Padding(|s|)
  }

  /** The encoder writes the base64 text of the string exactly when plain char is unsigned or the string
      is clean; every string of bytes below 128 is. */
  lemma WrittenIff(s: seq<byte>, signed: bool)
    ensures Written(s, signed) == Text(s) <==> !signed || Clean(s)
    ensures (forall i :: 0 <= i < |s| ==> s[i] < 128) ==> Clean(s)
  {
    hide Streamed, Blocks, Letter;
    StreamIsBlocks(s);
    CleanIff(s);
    if signed {
      var v, w := Streamed(s, true) + Flushed(s), Streamed(s, false) + Flushed(s);
      SplitEqual(Streamed(s, true), Flushed(s), Streamed(s, false), Flushed(s));
      LettersInjective(v, w);
      if Written(s, true) == Text(s) {
        assert Letters(v) == Written(s, true)[..|v|] == Letters(w);
      }
    }
  }

  lemma LettersInjective(v: seq<sextet>, w: seq<sextet>)
    requires |v| == |w|
    ensures Letters(v) == Letters(w) ==> v == w
  {
    hide Letter;
    if Letters(v) == Letters(w) {
      forall i | 0 <= i < |v| ensures v[i] == w[i] {
        assert Letters(v)[i] == Letters(w)[i];
        LetterValue(v[i]);
        LetterValue(w[i]);
      }
    }
  }

  /** So decoding what it writes gives the string back in exactly the same cases. */
  lemma DecodesIff(s: seq<byte>, signed: bool)
    ensures Decode(Written(s, signed)) == Some(s) <==> !signed || Clean(s)
  {
    hide Decode, Written, Text, Clean;
    WrittenIff(s, signed);
    RoundTrip(s);
    if Decode(Written(s, signed)) == Some(s) {
      OnlyTextDecodes(Written(s, signed));
    }
  }

  /** Two bytes, the second of which wipes out the end of the first. */
  lemma HighByteSpoils()
    ensures Written([0, 128], true) != Text([0, 128])
  {
    assert !CleanAt([0, 128], 1);
    WrittenIff([0, 128], true);
  }

  // ---------------------------------------------------------------- the encoder

  function Power(n: nat): (p: nat)
    ensures p > 0
  {
    if n == 0 then 1 else 2 * Power(n - 1)
  }

  /** The register after `x << 8 | b` in 32 bits; a negative char brings ones in above its eight bits. */
  function Shifted(x: uint32, b: byte, signed: bool): uint32 {
    if signed && b >= 128 then UINT32_MAX - 255 + b else (x * 256 + b) % (UINT32_MAX + 1)
  }

  /** `(x >> n) & 0x3f`. */
  function Window(x: nat, n: nat): sextet {
    x / Power(n) % 64
  }

  /** What the inner loop gives out when the register holds `l` bits. */
  function Drained(x: nat, l: nat): seq<sextet> {
    if l < 6 then [] else [Window(x, l - 6)] + Drained(x, l - 6)
  }

  /** The twelve bits that can still be given out after a byte came in. */
  lemma LowBits(x: uint32, b: byte, signed: bool)
    ensures Shifted(x, b, signed) % 4096 == if signed && b >= 128 then 3840 + b else x % 16 * 256 + b
  {
    var y := Shifted(x, b, signed);
    if signed && b >= 128 {
      Exact(y, 4096, 0xF_FFFF, 3840 + b);
    } else {
      var q := (x * 256 + b) / (UINT32_MAX + 1);
      Exact(y, 4096, x / 16 - q * 0x10_0000, x % 16 * 256 + b);
    }
  }

  lemma Parts(y: nat, low: nat)
    requires y % 4096 == low
    ensures y % 1024 == low % 1024 && y % 256 == low % 256 && y % 64 == low % 64 && y % 16 == low % 16
  {
    var k := y / 4096;
    Exact(y, 1024, 4 * k + low / 1024, low % 1024);
    Exact(y, 256, 16 * k + low / 256, low % 256);
    Exact(y, 64, 64 * k + low / 64, low % 64);
    Exact(y, 16, 256 * k + low / 16, low % 16);
  }

  /** The windows the inner loop opens. */
  lemma Windows(y: nat)
    ensures Window(y, 0) == y % 64 && Window(y, 2) == y % 256 / 4
    ensures Window(y, 4) == y % 1024 / 16 && Window(y, 6) == y % 4096 / 64
  {
    Powers();
    Quotient(y, 4);
    Quotient(y, 16);
    Quotient(y, 64);
  }

  lemma Powers()
    ensures Power(0) == 1 && Power(2) == 4 && Power(4) == 16 && Power(6) == 64
  {
    assert Power(1) == 2;
    assert Power(3) == 8;
    assert Power(5) == 32;
  }

  lemma Quotient(y: nat, d: nat)
    requires d == 4 || d == 16 || d == 64
    ensures y / d % 64 == y % (64 * d) / d
  {
    var k, r := y / (64 * d), y % (64 * d);
    Exact(y, d, 64 * k + r / d, r % d);
    Exact(y / d, 64, k, r / d);
  }

  // What the inner loop gives out for one byte, by the place of the byte.

  lemma DrainsFirst(x: uint32, b: byte, signed: bool)
    ensures Drained(Shifted(x, b, signed), 8) == [First(b)]
  {
    var y := Shifted(x, b, signed);
    ByteKept(x, b, signed);
    Windows(y);
    DrainedIs(y);
    hide Drained, Shifted, Window;
  }

  lemma DrainsSecond(x: uint32, p: byte, b: byte, signed: bool)
    requires x % 256 == p
    ensures Drained(Shifted(x, b, signed), 10) == [Second'(p, b, signed)]
  {
    var y := Shifted(x, b, signed);
    var low := y % 4096;
    LowByte(x, p);
    LowBits(x, b, signed);
    Parts(y, low);
    LowSecond(low, p, b, signed);
    Windows(y);
    DrainedIs(y);
    hide Drained, Shifted, Window, Second';
  }

  lemma DrainsThird(x: uint32, p: byte, b: byte, signed: bool)
    requires x % 256 == p
    ensures Drained(Shifted(x, b, signed), 12) == [Third'(p, b, signed), Fourth(b)]
  {
    var y := Shifted(x, b, signed);
    var low := y % 4096;
    LowByte(x, p);
    LowBits(x, b, signed);
    Parts(y, low);
    LowThird(low, p, b, signed);
    Windows(y);
    DrainedIs(y);
    hide Drained, Shifted, Window, Third', Fourth;
  }

  lemma LowByte(x: uint32, p: byte)
    requires x % 256 == p
    ensures x % 16 == p % 16
  {
    Exact(x, 16, x / 256 * 16 + p / 16, p % 16);
  }

  lemma ByteKept(x: uint32, b: byte, signed: bool)
    ensures Shifted(x, b, signed) % 256 == b
  {
    hide Shifted;
    LowBits(x, b, signed);
    Parts(Shifted(x, b, signed), Shifted(x, b, signed) % 4096);
  }

  /** Each byte makes the inner loop give out what the streamed form says. */
  lemma ByteDrains(s: seq<byte>, x: uint32, signed: bool)
    requires |s| > 0 && (|s| > 1 ==> x % 256 == s[|s| - 2])
    ensures Drained(Shifted(x, s[|s| - 1], signed), 2 * Place(|s| - 1) + 8) == Last(s, signed)
  {
    hide Drained, Shifted, First, Second', Third', Fourth;
    var n := |s| - 1;
    if Place(n) == 0 {
      DrainsFirst(x, s[n], signed);
    } else if Place(n) == 1 {
      DrainsSecond(x, s[n - 1], s[n], signed);
    } else {
      DrainsThird(x, s[n - 1], s[n], signed);
    }
  }

  lemma DrainedIs(y: nat)
    ensures Drained(y, 8) == [Window(y, 2)]
    ensures Drained(y, 10) == [Window(y, 4)]
    ensures Drained(y, 12) == [Window(y, 6), Window(y, 0)]
  {
    hide Window;
    assert Drained(y, 6) == [Window(y, 0)] + Drained(y, 0);
  }

  lemma LowSecond(low: nat, p: byte, b: byte, signed: bool)
    requires low == if signed && b >= 128 then 3840 + b else p % 16 * 256 + b
    ensures low % 1024 / 16 == Second'(p, b, signed)
  {
    if signed && b >= 128 {
      Exact(low, 1024, 3, 768 + b);
      Exact(768 + b, 16, 48 + b / 16, b % 16);
    } else {
      Exact(low, 1024, p % 16 / 4, p % 4 * 256 + b);
      Exact(p % 4 * 256 + b, 16, p % 4 * 16 + b / 16, b % 16);
    }
  }

  lemma LowThird(low: nat, p: byte, b: byte, signed: bool)
    requires low == if signed && b >= 128 then 3840 + b else p % 16 * 256 + b
    ensures low / 64 == Third'(p, b, signed) && low % 64 == Fourth(b)
  {
    Exact(low, 64, Third'(p, b, signed), b % 64);
  }

  /** The string in a NUL-terminated buffer. */
  function CString(input: seq<byte>): (s: seq<byte>)
    requires 0 in input
    ensures |s| < |input| && s == input[..|s|] && input[|s|] == 0 && 0 !in s
  {
    if input[0] == 0 then [] else [input[0]] + CString(input[1..])
  }

  /** `out` is what it was but for the letters of `v` at `at`. */
  twostate predicate Wrote(out: array<char>, at: nat, v: seq<sextet>)
    requires at + |v| <= out.Length
    reads out
  {
    && (forall j :: at <= j < at + |v| ==> out[j] == Letter(v[j - at]))
    && (forall j :: (0 <= j < at || at + |v| <= j < out.Length) ==> out[j] == old(out[j]))
  }

  /** The inner loop: while six bits are there, write their letter. */
  method Drain(out: array<char>, start: nat, x: nat, bits: nat) returns (i: nat, l: nat)
    requires start + |Drained(x, bits)| <= out.Length
    modifies out
    ensures i == start + |Drained(x, bits)| && l == bits - 6 * (i - start)
    ensures Wrote(out, start, Drained(x, bits))
  {
    hide Letter, Window, Drained;
    i, l := start, bits;
    ghost var all := Drained(x, bits);
    while l >= 6
      invariant start <= i <= start + |all| && l == bits - 6 * (i - start) && Drained(x, l) == all[i - start..]
      invariant Wrote(out, start, all[..i - start])
      decreases l
    {
      DrainedStep(x, l);
      assert all[i - start] == Drained(x, l)[0];
      out[i] := Letter(x / Power(l - 6) % 64);
      i, l := i + 1, l - 6;
      assert Drained(x, l) == all[i - start..];
    }
    DrainedStep(x, l);
    assert all[..i - start] == all;
  }

  lemma DrainedStep(x: nat, l: nat)
    ensures Drained(x, l) == if l < 6 then [] else [x / Power(l - 6) % 64] + Drained(x, l - 6)
  {
  }

  lemma {:induction false} StreamedLength(s: seq<byte>, signed: bool)
    ensures |Streamed(s, signed)| == |s| + |s| / 3
  {
    if |s| > 0 {
      StreamedLength(s[..|s| - 1], signed);
      assert |s| / 3 == (|s| - 1) / 3 + if Place(|s| - 1) == 2 then 1 else 0;
    }
  }

  lemma Lengths(s: seq<byte>, signed: bool)
    ensures var n := |Streamed(s, signed)| + |Flushed(s)|;
            && n + |Padding(|s|)| == 4 * ((|s| + 2) / 3)
            && |Written(s, signed)| == 4 * ((|s| + 2) / 3)
  {
    StreamedLength(s, signed);
    hide Streamed;
    GroupCount(|s|, |s| / 3, Place(|s|));
  }

  /** The number of groups, the last one perhaps short. */
  lemma GroupCount(n: nat, q: nat, r: nat)
    requires n == 3 * q + r && r < 3
    ensures (n + 2) / 3 == if r == 0 then q else q + 1
  {
    Exact(n + 2, 3, if r == 0 then q else q + 1, if r == 0 then 2 else r - 1);
  }

  lemma Room(k: nat, n: nat)
    requires k <= n
    ensures k + k / 3 <= 4 * ((n + 2) / 3)
  {
    assert k / 3 <= n / 3;
    assert n <= 3 * ((n + 2) / 3);
  }

  /** Shifting the last bits up leaves zeros below them. */
  lemma FlushIs(x: uint32, b: byte)
    requires x % 256 == b
    ensures x * Power(4) % (UINT32_MAX + 1) % 64 == Second(b, 0)
    ensures x * Power(2) % (UINT32_MAX + 1) % 64 == Third(b, 0)
  {
    Powers();
    FlushTwo(x, b, x / 256);
    FlushFour(x, b, x / 256);
  }

  lemma FlushTwo(x: uint32, b: byte, k: nat)
    requires x == 256 * k + b
    ensures x * 16 % (UINT32_MAX + 1) % 64 == Second(b, 0)
  {
    var q := x * 16 / (UINT32_MAX + 1);
    Exact(x * 16 - q * (UINT32_MAX + 1), 64, k * 64 + b / 4 - q * 0x400_0000, (b % 4) * 16);
  }

  lemma FlushFour(x: uint32, b: byte, k: nat)
    requires x == 256 * k + b
    ensures x * 4 % (UINT32_MAX + 1) % 64 == Third(b, 0)
  {
    var q := x * 4 / (UINT32_MAX + 1);
    Exact(x * 4 - q * (UINT32_MAX + 1), 64, k * 16 + b / 16 - q * 0x400_0000, (b % 16) * 4);
  }

  lemma NextPlace(s: seq<byte>, signed: bool)
    requires |s| > 0
    ensures 2 * Place(|s| - 1) + 8 - 6 * |Last(s, signed)| == 2 * Place(|s|)
  {
  }

  /** One turn of the outer loop, for the last byte of `t`. */
  method TakeByte(out: array<char>, ghost t: seq<byte>, b: byte, start: nat, x: uint32, l: nat, signed: bool)
      returns (i: nat, x': uint32, l': nat)
    requires |t| > 0 && b == t[|t| - 1] && l == 2 * Place(|t| - 1) && (|t| > 1 ==> x % 256 == t[|t| - 2])
    requires start + |Last(t, signed)| <= out.Length
    modifies out
    ensures i == start + |Last(t, signed)| && x' % 256 == b && l' == 2 * Place(|t|)
    ensures Wrote(out, start, Last(t, signed))
  {
    hide Last, Letter, Shifted, Drained, Wrote;
    ByteDrains(t, x, signed);
    ByteKept(x, b, signed);
    NextPlace(t, signed);
    x' := Shifted(x, b, signed);
    i, l' := Drain(out, start, x', l + 8);
  }

  /** The outer loop, up to the terminator. */
  method Stream(out: array<char>, input: seq<byte>, signed: bool) returns (i: nat, x: uint32, l: nat)
    requires 0 in input && out.Length > 4 * ((|CString(input)| + 2) / 3)
    modifies out
    ensures var s := CString(input);
            && l == 2 * Place(|s|) && (|s| > 0 ==> x % 256 == s[|s| - 1])
            && i == |Streamed(s, signed)| <= out.Length && Wrote(out, 0, Streamed(s, signed))
  {
    hide Streamed, Last, Letter;
    ghost var s := CString(input);
    var k := 0;
    i, x, l := 0, 0, 0;
    assert Streamed([], signed) == [] by { StreamedLength([], signed); }
    while input[k] != 0
      invariant k <= |s| && l == 2 * Place(k) && (k > 0 ==> x % 256 == s[k - 1])
      invariant i == |Streamed(s[..k], signed)| <= out.Length && Wrote(out, 0, Streamed(s[..k], signed))
      decreases |s| - k
    {
      ghost var t := s[..k + 1];
      assert t[..k] == s[..k];
      Parted(t, signed);
      StreamedLength(t, signed);
      Room(k + 1, |s|);
      i, x, l := TakeByte(out, t, input[k], i, x, l, signed);
      k := k + 1;
    }
    assert s[..k] == s;
  }

  /** The bits still in the register. */
  method Flush(out: array<char>, ghost s: seq<byte>, start: nat, x: uint32, l: nat) returns (i: nat)
    requires start + |Flushed(s)| <= out.Length && l == 2 * Place(|s|) && (|s| > 0 ==> x % 256 == s[|s| - 1])
    modifies out
    ensures i == start + |Flushed(s)| && Wrote(out, start, Flushed(s))
  {
    hide Letter, Second, Third;
    i := start;
    if l > 0 {
      FlushIs(x, s[|s| - 1]);
      var y := x * Power(6 - l) % (UINT32_MAX + 1);
      out[i] := Letter(y % 64);
      i := i + 1;
    }
  }

  /** Padding up to the next multiple of four, and the terminator. */
  method Pad(out: array<char>, start: nat, ghost k: nat)
    requires start <= 4 * k < start + 4 && 4 * k < out.Length
    modifies out
    ensures forall j :: start <= j < 4 * k ==> out[j] == '='
    ensures out[4 * k] == 0 as char
    ensures forall j :: (0 <= j < start || 4 * k < j < out.Length) ==> out[j] == old(out[j])
  {
    var i := start;
    while i % 4 != 0
      invariant start <= i <= 4 * k
      invariant forall j :: start <= j < i ==> out[j] == '='
      invariant forall j :: (0 <= j < start || i <= j < out.Length) ==> out[j] == old(out[j])
      decreases 4 * k - i
    {
      out[i] := '=';
      i := i + 1;
    }
    out[i] := 0 as char;
  }

  /** http_client_base64enc: the text and its terminator go to the front of `out`, nothing else changes. */
  method Encode(out: array<char>, input: seq<byte>, signed: bool)
    requires 0 in input && out.Length > 4 * ((|CString(input)| + 2) / 3)
    modifies out
    ensures var n := 4 * ((|CString(input)| + 2) / 3);
            && out[..n] == Written(CString(input), signed) && out[n] == 0 as char
            && forall j :: n < j < out.Length ==> out[j] == old(out[j])
  {
    hide Streamed, Flushed, Letter, Place, CString;
    ghost var s := CString(input);
    Lengths(s, signed);
    var i, x, l := Stream(out, input, signed);
    i := Flush(out, s, i, x, l);
    Pad(out, i, (|s| + 2) / 3);
    ghost var v := Streamed(s, signed) + Flushed(s);
    assert out[..|v|] == Letters(v);
    assert out[|v|..4 * ((|s| + 2) / 3)] == Padding(|s|);
  }
}
