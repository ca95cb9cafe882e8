/** The quoter and the reader of string literals byte by byte, in ASCII: which bytes are
    escaped, which letters stand for control characters, and what digits are worth. */
module StringLaws {
  import opened Options
  import opened StringLiterals

  const DIGITS: seq<char> := "0123456789ABCDEF"
  const SMALL_DIGITS: seq<char> := "0123456789abcdef"

  // ---------------------------------------------------------------- quoting

  /** Exactly backslash and double quote get a backslash. */
  lemma EscapedAppend(s: seq<Byte>, c: Byte)
    ensures Escaped([]) == []
    ensures Escaped(s + [c]) ==
              if c == '\\' as int || c == '"' as int then Escaped(s) + ['\\' as int, c] else Escaped(s) + [c]
  {
    assert (s + [c])[..|s|] == s;
  }

  // ---------------------------------------------------------------- letters

  /** The control letters stand for bell, backspace, tab, newline, vertical tab, form feed,
      carriage return and escape. */
  lemma ControlLetters(text: seq<Byte>, p: nat, i: nat)
    requires i < 8 && At(text, p) == "abtnvfre"[i] as int
    ensures Escape(text, p) == ([7, 8, '\t' as int, '\n' as int, 11, 12, '\r' as int, 27][i], p + 1)
  {
  }

  /** Every other byte that does not begin a number stands for itself, as a signed char. */
  lemma OtherBytes(text: seq<Byte>, p: nat)
    requires At(text, p) as char !in {'a', 'b', 't', 'n', 'v', 'f', 'r', 'e', 'x'}
    requires At(text, p) as char !in {'0', '1', '2', '3', '4', '5', '6', '7'}
    ensures Escape(text, p) == (if At(text, p) < 128 then At(text, p) else 0x1_0000_0000 - 256 + At(text, p), p + 1)
  {
  }

  // ---------------------------------------------------------------- digits

  lemma DigitIs(d: nat)
    requires d < 16
    ensures IsHex(DIGITS[d] as int) && HexDigit(DIGITS[d] as int) == d
    ensures IsHex(SMALL_DIGITS[d] as int) && HexDigit(SMALL_DIGITS[d] as int) == d
  {
  }

  lemma DigitOf(c: Byte) returns (d: nat)
    requires IsHex(c)
    ensures d < 16 && (c == DIGITS[d] as int || c == SMALL_DIGITS[d] as int)
  {
    d := HexDigit(c);
  }

  /** One digit more: the number read so far times sixteen, in 32 bits. */
  lemma {:induction false} HexAppend(text: seq<Byte>, p: nat, d: nat, v: nat)
    requires d < 16 && p <= |text| && forall i :: p <= i < |text| ==> IsHex(text[i])
    ensures HexValue(text, p, v).1 == |text|
    ensures HexValue(text + [DIGITS[d] as int], p, v) ==
              ((HexValue(text, p, v).0 * 16 + d) % 0x1_0000_0000, |text| + 1)
    ensures HexValue(text + [SMALL_DIGITS[d] as int], p, v) == HexValue(text + [DIGITS[d] as int], p, v)
    decreases |text| - p
  {
    DigitIs(d);
    hide HexDigit, IsHex;
    if p < |text| {
      HexAppend(text, p + 1, d, (v * 16 + HexDigit(text[p])) % 0x1_0000_0000);
    } else {
      HexOne(text, DIGITS[d] as int, v);
      HexOne(text, SMALL_DIGITS[d] as int, v);
    }
  }

  lemma HexOne(text: seq<Byte>, c: Byte, v: nat)
    requires IsHex(c)
    ensures HexValue(text + [c], |text|, v) == ((v * 16 + HexDigit(c)) % 0x1_0000_0000, |text| + 1)
  {
    var t := text + [c];
    assert At(t, |text|) == c && At(t, |text| + 1) == NUL;
    assert HexValue(t, |text| + 1, (v * 16 + HexDigit(c)) % 0x1_0000_0000).1 == |text| + 1;
  }

  /** An x and hexadecimal digits: zero without a digit read, then digit by digit. */
  lemma HexEscape(text: seq<Byte>, p: nat)
    requires At(text, p) == 'x' as int
    ensures IsHex(At(text, p + 1)) ==> Escape(text, p) == HexValue(text, p + 1, 0)
    ensures HexValue([], 0, 0).0 == 0
  {
  }

  /** Up to three octal digits. */
  lemma OctalEscape(text: seq<Byte>, p: nat)
    requires '0' as int <= At(text, p) <= '7' as int
    ensures var a, b, c := At(text, p) - '0' as int, At(text, p + 1) - '0' as int, At(text, p + 2) - '0' as int;
            Escape(text, p) ==
              if !(0 <= b <= 7) then (a, p + 1)
              else if !(0 <= c <= 7) then (8 * a + b, p + 2)
              else (64 * a + 8 * b + c, p + 3)
  {
    OctalThree(text, p);
  }

  // ---------------------------------------------------------------- the bytes of a literal

  /** A literal's bytes from left to right. */
  lemma DecodedFirst(text: seq<Byte>, p: nat, end: nat)
    requires p < end
    ensures Decoded(text, end, end) == Some([])
    ensures At(text, p) != '\\' as int && Decoded(text, p + 1, end).Some? ==>
              Decoded(text, p, end) == Some([At(text, p)] + Decoded(text, p + 1, end).value)
    ensures var (c, q) := Escape(text, p + 1);
            At(text, p) == '\\' as int && c != 0xFFFF_FFFF && Decoded(text, q, end).Some? ==>
              Decoded(text, p, end) == Some([c % 256] + Decoded(text, q, end).value)
  {
    hide Escape;
  }

  // ---------------------------------------------------------------- the end of a literal

  /** The search stops at a quote, a newline and the end of the text, and steps over what
      follows a backslash. */
  lemma EndFirst(text: seq<Byte>, p: nat)
    ensures At(text, p) == '"' as int ==> LiteralEnd(text, p) == Found(p)
    ensures At(text, p) == '\n' as int || At(text, p) == 0 ==> LiteralEnd(text, p) == Unclosed
    ensures At(text, p) == '\\' as int ==>
              LiteralEnd(text, p) == if p + 1 == |text| then PastEnd else LiteralEnd(text, p + 2)
    ensures At(text, p) as char !in {'"', '\n', '\\', '\0'} ==> LiteralEnd(text, p) == LiteralEnd(text, p + 1)
  {
  }
}
