/** The characters of the two URL automata, against the bit table and the character lists they come from,
    and the numbers that ports are printed as. */
module UrlChars {
  import opened Bytes
  import opened HttpUrl

  /** normal_url_char, one bit for each of 128 bytes; the other sixteen entries are zero. */
  const NORMAL_URL_CHAR: seq<int> := [0, 0, 0, 0, 246, 255, 255, 127, 255, 255, 255, 255, 255, 255, 255, 127]

  const BITS: seq<int> := [1, 2, 4, 8, 16, 32, 64, 128]

  /** BIT_AT(table, c). */
  predicate BitAt(table: seq<int>, c: byte) {
    c / 8 < |table| && table[c / 8] / BITS[c % 8] % 2 == 1
  }

  /** The ordinary URL characters are those of the bit table. */
  lemma UrlCharTable(c: byte)
    ensures IsUrlChar(c) <==> BitAt(NORMAL_URL_CHAR, c)
  {
    var row, bit := c / 8, c % 8;
    assert c == 8 * row + bit;
    if row < 16 {
      RowBits(bit);
    }
  }

  lemma RowBits(bit: nat)
    requires bit < 8
    ensures 0 / BITS[bit] % 2 == 0 && 255 / BITS[bit] % 2 == 1
    ensures 246 / BITS[bit] % 2 == 1 <==> bit != 0 && bit != 3
    ensures 127 / BITS[bit] % 2 == 1 <==> bit != 7
  {
  }

  predicate OneOf(c: byte, chars: string) {
    c as char in chars
  }

  predicate LetterOrDigit(c: byte) {
    'a' <= c as char <= 'z' || 'A' <= c as char <= 'Z' || '0' <= c as char <= '9'
  }

  /** The classes of the server part, by their characters; unreserved marks are those of section 2.3 of
      RFC 2396. */
  lemma ServerChars(c: byte)
    ensures IsUserinfoChar(c) <==> LetterOrDigit(c) || OneOf(c, "-_.!~*'()") || OneOf(c, "%;:&=+$,")
    ensures IsHostChar(c) <==> LetterOrDigit(c) || OneOf(c, ".-")
    ensures IsZoneChar(c) <==> LetterOrDigit(c) || OneOf(c, "%.-_~")
    ensures IsHex(c) <==> OneOf(c, "0123456789abcdefABCDEF")
    ensures IsAlpha(c) <==> LetterOrDigit(c) && !OneOf(c, "0123456789")
    ensures IsDigit(c) <==> OneOf(c, "0123456789")
  {
  }

  /** A number in decimal digits, the first not zero unless it is the only one. */
  function Printed(n: nat): (digits: seq<byte>)
    ensures digits != [] && forall i :: 0 <= i < |digits| ==> IsDigit(digits[i])
  {
    if n < 10 then [48 + n] else Printed(n / 10) + [48 + n % 10]
  }

  /** What is read from a printed number is the number. */
  lemma {:induction false} PrintedIsRead(n: nat)
    ensures Decimal(Printed(n)) == n
  {
    if n < 10 {
      assert [48 + n][..0] == [];
    } else {
      PrintedIsRead(n / 10);
      var front, last := Printed(n / 10), [48 + n % 10];
      assert (front + last)[..|front|] == front;
      assert n == 10 * (n / 10) + n % 10;
    }
  }
}
