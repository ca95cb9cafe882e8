/** The string quoter of the # operator and the string-literal reader that undoes it. */
module StringLiterals {
  import opened Options

  type Byte = b: nat | b < 256

  const NUL: Byte := 0
  const NEWLINE: Byte := 10
  const QUOTE: Byte := 34
  const BACKSLASH: Byte := 92

  /** Text ends with a NUL. */
  function At(text: seq<Byte>, i: nat): Byte {
    if i < |text| then text[i] else NUL
  }

  // ---------------------------------------------------------------- quoting

  predicate NeedsEscape(c: Byte) {
    c == BACKSLASH || c == QUOTE
  }

  function Escaped(s: seq<Byte>): seq<Byte> {
    if s == [] then []
    else Escaped(s[..|s| - 1]) + (if NeedsEscape(s[|s| - 1]) then [BACKSLASH, s[|s| - 1]] else [s[|s| - 1]])
  }

  function Quote(s: seq<Byte>): seq<Byte> {
    [QUOTE] + Escaped(s) + [QUOTE]
  }

  /** Measures the string, then fills a buffer of exactly that size. */
  method QuoteString(s: seq<Byte>) returns (buf: array<Byte>)
    ensures fresh(buf) && buf[..] == Quote(s) + [NUL]
  {
    hide Escaped;
    EscapedEnds(s);
    var size: nat := 3;
    for i := 0 to |s|
      invariant size == 3 + |Escaped(s[..i])|
    {
      EscapedNext(s, i);
      if NeedsEscape(s[i]) {
        size := size + 1;
      }
      size := size + 1;
    }
    buf := new Byte[size];
    buf[0] := QUOTE;
    var p := 1;
    for i := 0 to |s|
      invariant 1 <= p == 1 + |Escaped(s[..i])| <= size - 2
      invariant buf[..p] == [QUOTE] + Escaped(s[..i])
    {
      EscapedNext(s, i);
      EscapedGrows(s, i + 1);
      if NeedsEscape(s[i]) {
        buf[p] := BACKSLASH;
        p := p + 1;
        assert buf[..p] == [QUOTE] + Escaped(s[..i]) + [BACKSLASH];
      }
      buf[p] := s[i];
      p := p + 1;
    }
    buf[p] := QUOTE;
    p := p + 1;
    buf[p] := NUL;
    p := p + 1;
    assert p == size;
  }

  lemma EscapedNext(s: seq<Byte>, i: nat)
    requires i < |s|
    ensures Escaped(s[..i + 1]) == Escaped(s[..i]) + (if NeedsEscape(s[i]) then [BACKSLASH, s[i]] else [s[i]])
  {
    assert s[..i + 1][..i] == s[..i];
  }

  lemma EscapedEnds(s: seq<Byte>)
    ensures s[..|s|] == s && Escaped(s[..0]) == []
  {
    assert s[..|s|] == s;
  }

  lemma {:induction false} EscapedGrows(s: seq<Byte>, i: nat)
    requires i <= |s|
    ensures |Escaped(s[..i])| <= |Escaped(s)|
    decreases |s| - i
  {
    if i == |s| {
      assert s[..i] == s;
    } else {
      assert s[..i + 1][..i] == s[..i];
      EscapedGrows(s, i + 1);
    }
  }

  // ---------------------------------------------------------------- finding the end

  /** The search finds the closing quote, stops at a newline or the end of the text, or
      follows a backslash past the end of the text. */
  datatype Search = Found(end: nat) | Unclosed | PastEnd

  /** Where the literal whose text starts at p ends.  A backslash hides the next byte. */
  function LiteralEnd(text: seq<Byte>, p: nat): (r: Search)
    ensures r.Found? ==> p <= r.end < |text| && text[r.end] == QUOTE
    decreases |text| - p
  {
    if At(text, p) == QUOTE then Found(p)
    else if At(text, p) == NEWLINE || At(text, p) == NUL then Unclosed
    else if At(text, p) == BACKSLASH then (if p + 1 == |text| then PastEnd else LiteralEnd(text, p + 2))
    else LiteralEnd(text, p + 1)
  }

  method FindStringLiteralEnd(text: seq<Byte>, start: nat) returns (r: Search)
    ensures r == LiteralEnd(text, start)
  {
    var p := start;
    while At(text, p) != QUOTE
      invariant LiteralEnd(text, p) == LiteralEnd(text, start)
      decreases |text| - p
    {
      if At(text, p) == NEWLINE || At(text, p) == NUL {
        return Unclosed;
      }
      if At(text, p) == BACKSLASH {
        p := p + 1;
        if p == |text| {
          return PastEnd;
        }
      }
      p := p + 1;
    }
    return Found(p);
  }

  /** The text from p to q is made of plain bytes and of pairs led by a backslash; the
      pieces begin at `starts`. */
  ghost predicate Pieces(text: seq<Byte>, p: nat, q: nat, starts: seq<nat>) {
    && |starts| > 0 && starts[0] == p && starts[|starts| - 1] == q
    && forall i, j :: 0 <= i < |starts| - 1 && j == i + 1 ==> Piece(text, starts[i], starts[j])
  }

  ghost predicate Piece(text: seq<Byte>, p: nat, q: nat) {
    && p < q <= |text|
    && text[p] != QUOTE && text[p] != NEWLINE && text[p] != NUL
    && q == if text[p] == BACKSLASH then p + 2 else p + 1
  }

  ghost predicate InPieces(text: seq<Byte>, p: nat, q: nat) {
    exists starts :: Pieces(text, p, q, starts)
  }

  lemma {:induction false} PiecesSkip(text: seq<Byte>, p: nat, q: nat, starts: seq<nat>)
    requires Pieces(text, p, q, starts)
    ensures LiteralEnd(text, p) == LiteralEnd(text, q)
    decreases |starts|
  {
    if |starts| > 1 {
      assert Piece(text, starts[0], starts[1]);
      PiecesSkip(text, starts[1], q, starts[1..]);
    }
  }

  lemma {:induction false} PiecesOf(text: seq<Byte>, p: nat) returns (q: nat, starts: seq<nat>)
    ensures Pieces(text, p, q, starts)
    ensures match LiteralEnd(text, p)
            case Found(end) => q == end
            case Unclosed => At(text, q) == NEWLINE || At(text, q) == NUL
            case PastEnd => q + 1 == |text| && text[q] == BACKSLASH
    decreases |text| - p
  {
    if At(text, p) == QUOTE || At(text, p) == NEWLINE || At(text, p) == NUL ||
      (At(text, p) == BACKSLASH && p + 1 == |text|) {
      q, starts := p, [p];
    } else {
      var next := if At(text, p) == BACKSLASH then p + 2 else p + 1;
      var rest;
      q, rest := PiecesOf(text, next);
      starts := [p] + rest;
      assert Piece(text, p, next);
    }
  }

  /** The search leaves the text exactly when the text ends with a backslash that no other
      backslash hides, before any closing quote or newline; and it finds the first quote
      that is not hidden. */
  lemma EndIs(text: seq<Byte>, p: nat)
    ensures LiteralEnd(text, p).PastEnd? <==>
              |text| > 0 && text[|text| - 1] == BACKSLASH && InPieces(text, p, |text| - 1)
    ensures forall end: nat :: LiteralEnd(text, p) == Found(end) <==> At(text, end) == QUOTE && InPieces(text, p, end)
  {
    var q, starts := PiecesOf(text, p);
    if |text| > 0 && text[|text| - 1] == BACKSLASH && InPieces(text, p, |text| - 1) {
      var ps :| Pieces(text, p, |text| - 1, ps);
      PiecesSkip(text, p, |text| - 1, ps);
    }
    forall end: nat | At(text, end) == QUOTE && InPieces(text, p, end)
      ensures LiteralEnd(text, p) == Found(end)
    {
      var ps :| Pieces(text, p, end, ps);
      PiecesSkip(text, p, end, ps);
    }
  }

  // ---------------------------------------------------------------- escape sequences

  predicate IsOctal(c: Byte) {
    48 <= c <= 55
  }

  predicate IsHex(c: Byte) {
    48 <= c <= 57 || 65 <= c <= 70 || 97 <= c <= 102
  }

  function HexDigit(c: Byte): nat
    requires IsHex(c)
  {
    if c <= 57 then c - 48 else if c <= 70 then c - 55 else c - 87
  }

  /** The letters that stand for control characters; anything else stands for itself, as a
      signed char widened to 32 bits. */
  function SimpleEscape(c: Byte): nat {
    if c == 97 then 7 else if c == 98 then 8 else if c == 116 then 9 else if c == 110 then 10
    else if c == 118 then 11 else if c == 102 then 12 else if c == 114 then 13 else if c == 101 then 27
    else if c < 128 then c else 0xFFFF_FF00 + c
  }

  /** The value of all hexadecimal digits from p on, in 32 bits. */
  function HexValue(text: seq<Byte>, p: nat, c: nat): (r: (nat, nat))
    ensures r.1 >= p && (p <= |text| ==> r.1 <= |text|) && forall i :: p <= i < r.1 ==> IsHex(At(text, i))
    decreases |text| - p
  {
    if IsHex(At(text, p)) then HexValue(text, p + 1, (c * 16 + HexDigit(At(text, p))) % 0x1_0000_0000) else (c, p)
  }

  /** At most three octal digits. */
  function OctalValue(text: seq<Byte>, p: nat, c: nat, digits: nat): (r: (nat, nat))
    ensures r.1 >= p && (p <= |text| ==> r.1 <= |text|) && forall i :: p <= i < r.1 ==> IsOctal(At(text, i))
    decreases digits
  {
    if digits > 0 && IsOctal(At(text, p)) then OctalValue(text, p + 1, c * 8 + (At(text, p) - 48), digits - 1)
      else (c, p)
  }

  const ERROR: nat := 0xFFFF_FFFF

  /** The character an escape sequence stands for, after the backslash, and where it ends.
      The largest value is the reader's sign of an error. */
  function Escape(text: seq<Byte>, p: nat): (r: (nat, nat))
    ensures r.0 != ERROR ==> r.1 > p
  {
    if IsOctal(At(text, p)) then OctalValue(text, p, 0, 3)
    else if At(text, p) == 120 then (if IsHex(At(text, p + 1)) then HexValue(text, p + 1, 0) else (ERROR, p + 1))
    else (SimpleEscape(At(text, p)), p + 1)
  }

  method ReadEscapedChar(text: seq<Byte>, start: nat) returns (c: nat, p: nat)
    ensures (c, p) == Escape(text, start)
  {
    c, p := 0, start;
    if IsOctal(At(text, p)) {
      c := At(text, p) - 48;
      p := p + 1;
      if IsOctal(At(text, p)) {
        c := c * 8 + (At(text, p) - 48);
        p := p + 1;
        if IsOctal(At(text, p)) {
          c := c * 8 + (At(text, p) - 48);
          p := p + 1;
        }
      }
      OctalThree(text, start);
    } else if At(text, p) == 120 {
      p := p + 1;
      if !IsHex(At(text, p)) {
        return ERROR, p;
      }
      while IsHex(At(text, p))
        invariant HexValue(text, p, c) == HexValue(text, start + 1, 0)
        decreases |text| - p
      {
        c := (c * 16 + HexDigit(At(text, p))) % 0x1_0000_0000;
        p := p + 1;
      }
    } else {
      c := SimpleEscape(At(text, p));
      p := p + 1;
    }
  }

  lemma OctalThree(text: seq<Byte>, p: nat)
    requires IsOctal(At(text, p))
    ensures OctalValue(text, p, 0, 3) ==
            if !IsOctal(At(text, p + 1)) then (At(text, p) - 48, p + 1)
            else if !IsOctal(At(text, p + 2)) then ((At(text, p) - 48) * 8 + (At(text, p + 1) - 48), p + 2)
            else (((At(text, p) - 48) * 8 + (At(text, p + 1) - 48)) * 8 + (At(text, p + 2) - 48), p + 3)
  {
    var c := At(text, p) - 48;
    assert OctalValue(text, p, 0, 3) == OctalValue(text, p + 1, c, 2);
    if IsOctal(At(text, p + 1)) {
      var d := c * 8 + (At(text, p + 1) - 48);
      assert OctalValue(text, p + 1, c, 2) == OctalValue(text, p + 2, d, 1);
      if IsOctal(At(text, p + 2)) {
        assert OctalValue(text, p + 2, d, 1) == OctalValue(text, p + 3, d * 8 + (At(text, p + 2) - 48), 0);
      }
    }
  }

  // ---------------------------------------------------------------- when an escape sequence fails

  /** The lowest k hexadecimal digits of v are all F. */
  predicate LowFs(v: nat, k: nat) {
    k == 0 || (v % 16 == 15 && LowFs(v / 16, k - 1))
  }

  function Power16(k: nat): (r: nat)
    ensures r > 0
  {
    if k == 0 then 1 else 16 * Power16(k - 1)
  }

  lemma DigitOfMod(v: nat, q: nat)
    requires q > 0
    ensures v % (16 * q) % 16 == v % 16
    ensures v % (16 * q) / 16 == v / 16 % q
  {
    var a, r := v / 16 / q, v / 16 % q;
    assert v / 16 == q * a + r;
    var low := 16 * r + v % 16;
    assert v == (16 * q) * a + low by {
      assert v == 16 * (q * a + r) + v % 16;
      assert 16 * (q * a) == (16 * q) * a;
    }
    assert 0 <= low < 16 * q;
    ModIs(v, 16 * q, a, low);
  }

  lemma Scaled(d: nat, x: int)
    ensures x >= 1 ==> d * x >= d
    ensures x <= -1 ==> d * x + d <= 0
  {
  }

  lemma ModIs(v: nat, d: nat, a: nat, r: nat)
    requires d > 0 && v == d * a + r && r < d
    ensures v % d == r
  {
    var q, m := v / d, v % d;
    assert v == d * q + m && m < d;
    assert d * (q - a) == d * q - d * a;
    Scaled(d, q - a);
  }

  /** Reducing v modulo 16^m keeps its m lowest digits. */
  lemma {:induction false} LowFsMod(v: nat, m: nat, k: nat)
    requires k <= m
    ensures LowFs(v % Power16(m), k) <==> LowFs(v, k)
  {
    if k > 0 {
      DigitOfMod(v, Power16(m - 1));
      LowFsMod(v / 16, m - 1, k - 1);
    }
  }

  lemma {:induction false} AllFs(v: nat, k: nat)
    requires v < Power16(k)
    ensures LowFs(v, k) <==> v == Power16(k) - 1
  {
    if k > 0 {
      AllFs(v / 16, k - 1);
    }
  }

  /** The run of hexadecimal digits from p ends at e. */
  predicate HexRun(text: seq<Byte>, p: nat, e: nat) {
    p <= e && !IsHex(At(text, e)) && forall i :: p <= i < e ==> IsHex(At(text, i))
  }

  predicate IsF(c: Byte) {
    c == 70 || c == 102
  }

  /** The last k bytes before i, from p on, are digits F. */
  predicate EndsInFs(text: seq<Byte>, p: nat, i: nat, k: nat) {
    p + k <= i && forall j :: i - k <= j < i ==> IsF(At(text, j))
  }

  /** The value read so far has as many low digits F as the text has before i. */
  ghost predicate TracksFs(text: seq<Byte>, p: nat, i: nat, c: nat) {
    c < 0x1_0000_0000 && forall k :: 0 <= k <= 8 ==> (LowFs(c, k) <==> EndsInFs(text, p, i, k))
  }

  lemma NextDigit(c: nat, d: nat, k: nat)
    requires c < 0x1_0000_0000 && d < 16 && k < 8
    ensures LowFs((c * 16 + d) % 0x1_0000_0000, k + 1) <==> d == 15 && LowFs(c, k)
  {
    assert Power16(8) == 0x1_0000_0000;
    LowFsMod(c * 16 + d, 8, k + 1);
    assert (c * 16 + d) % 16 == d && (c * 16 + d) / 16 == c;
  }

  lemma NextFs(text: seq<Byte>, p: nat, i: nat, k: nat)
    requires p <= i
    ensures EndsInFs(text, p, i + 1, k + 1) <==> IsF(At(text, i)) && EndsInFs(text, p, i, k)
  {
    if EndsInFs(text, p, i + 1, k + 1) {
      assert forall j :: i - k <= j < i ==> IsF(At(text, j));
    }
  }

  lemma TracksNext(text: seq<Byte>, p: nat, i: nat, c: nat)
    requires p <= i && TracksFs(text, p, i, c) && IsHex(At(text, i))
    ensures TracksFs(text, p, i + 1, (c * 16 + HexDigit(At(text, i))) % 0x1_0000_0000)
  {
    var d := HexDigit(At(text, i));
    var c', i' := (c * 16 + d) % 0x1_0000_0000, i + 1;
    hide LowFs, EndsInFs;
    forall k | 0 <= k <= 8
      ensures LowFs(c', k) <==> EndsInFs(text, p, i', k)
    {
      if k == 0 {
        NoFs(text, p, i', c');
      } else {
        NextDigit(c, d, k - 1);
        NextFs(text, p, i, k - 1);
      }
    }
  }

  lemma NoFs(text: seq<Byte>, p: nat, i: nat, c: nat)
    requires p <= i
    ensures LowFs(c, 0) && EndsInFs(text, p, i, 0)
  {
  }

  lemma TracksStart(text: seq<Byte>, p: nat)
    ensures TracksFs(text, p, p, 0)
  {
  }

  lemma {:induction false} HexReads(text: seq<Byte>, p: nat, i: nat, e: nat, c: nat)
    requires p <= i && HexRun(text, i, e) && TracksFs(text, p, i, c)
    ensures HexValue(text, i, c).1 == e && TracksFs(text, p, e, HexValue(text, i, c).0)
    decreases e - i
  {
    hide TracksFs;
    if i < e {
      TracksNext(text, p, i, c);
      HexReads(text, p, i + 1, e, (c * 16 + HexDigit(At(text, i))) % 0x1_0000_0000);
    }
  }

  /** The value of a run of digits is the sign of an error exactly if its last eight
      digits are all F. */
  lemma HexFails(text: seq<Byte>, p: nat, e: nat)
    requires HexRun(text, p, e)
    ensures HexValue(text, p, 0).0 == ERROR <==> EndsInFs(text, p, e, 8)
  {
    hide HexValue, EndsInFs;
    TracksStart(text, p);
    HexReads(text, p, p, e, 0);
    var v := HexValue(text, p, 0).0;
    assert LowFs(v, 8) <==> EndsInFs(text, p, e, 8);
    assert Power16(8) == 0x1_0000_0000;
    AllFs(v, 8);
  }

  lemma {:induction false} RunEnds(text: seq<Byte>, p: nat) returns (e: nat)
    ensures HexRun(text, p, e)
    decreases |text| - p
  {
    if IsHex(At(text, p)) {
      e := RunEnds(text, p + 1);
    } else {
      e := p;
    }
  }

  /** The digits from p on end in eight Fs. */
  ghost predicate RunEndsInFs(text: seq<Byte>, p: nat) {
    exists e: nat :: HexRun(text, p, e) && EndsInFs(text, p, e, 8)
  }

  lemma {:induction false} OctalSmall(text: seq<Byte>, p: nat, c: nat, digits: nat, bound: nat)
    requires digits <= 3 && c < bound && bound * Power8(digits) <= 512
    ensures OctalValue(text, p, c, digits).0 < 512
    decreases digits
  {
    if digits > 0 && IsOctal(At(text, p)) {
      OctalSmall(text, p + 1, c * 8 + (At(text, p) - 48), digits - 1, bound * 8);
    }
  }

  function Power8(k: nat): (r: nat)
    ensures r > 0
  {
    if k == 0 then 1 else 8 * Power8(k - 1)
  }

  /** Reading fails in three cases: an x without a digit, digits that end in eight Fs, and
      the byte 255 standing for itself. */
  lemma EscapeFails(text: seq<Byte>, p: nat)
    ensures Escape(text, p).0 == ERROR <==>
              || At(text, p) == 255
              || (At(text, p) == 120 && (!IsHex(At(text, p + 1)) || RunEndsInFs(text, p + 1)))
  {
    hide HexValue, OctalValue, EndsInFs, HexRun;
    if IsOctal(At(text, p)) {
      OctalSmall(text, p, 0, 3, 1);
    } else if At(text, p) == 120 && IsHex(At(text, p + 1)) {
      var e := RunEnds(text, p + 1);
      HexFails(text, p + 1, e);
      if RunEndsInFs(text, p + 1) {
        var e': nat :| HexRun(text, p + 1, e') && EndsInFs(text, p + 1, e', 8);
        HexFails(text, p + 1, e');
      }
    }
  }

  // ---------------------------------------------------------------- reading

  /** The bytes that the literal's text from p to end stands for. */
  function Decoded(text: seq<Byte>, p: nat, end: nat): Option<seq<Byte>>
    decreases end - p
  {
    if p >= end then Some([])
    else if At(text, p) == BACKSLASH then
      var (c, q) := Escape(text, p + 1);
      if c == ERROR then None
      else
        var rest := Decoded(text, q, end);
        if rest.None? then None else Some([c % 256] + rest.value)
    else
      var rest := Decoded(text, p + 1, end);
      if rest.None? then None else Some([At(text, p)] + rest.value)
  }

  /** Digits hide no end: reading an escape sequence stays inside the literal. */
  lemma {:induction false} SkipPlain(text: seq<Byte>, p: nat, q: nat)
    requires p <= q && forall i :: p <= i < q ==> IsHex(At(text, i))
    ensures LiteralEnd(text, q) == LiteralEnd(text, p)
    decreases q - p
  {
    if p < q {
      SkipPlain(text, p + 1, q);
    }
  }

  lemma EscapeInside(text: seq<Byte>, p: nat)
    requires At(text, p) == BACKSLASH && LiteralEnd(text, p).Found?
    ensures var (c, q) := Escape(text, p + 1); c != ERROR ==> LiteralEnd(text, q) == LiteralEnd(text, p)
  {
    var (c, q) := Escape(text, p + 1);
    assert LiteralEnd(text, p) == LiteralEnd(text, p + 2);
    if c != ERROR {
      if IsOctal(At(text, p + 1)) {
        SkipPlain(text, p + 2, q);
      } else if At(text, p + 1) == 120 {
        SkipPlain(text, p + 2, q);
      }
    }
  }

  /** The reader's buffer is large enough: one byte per byte of text. */
  lemma {:induction false} DecodedFits(text: seq<Byte>, p: nat, end: nat)
    requires LiteralEnd(text, p) == Found(end)
    ensures Decoded(text, p, end).Some? ==> |Decoded(text, p, end).value| <= end - p
    decreases end - p
  {
    if p < end {
      if At(text, p) == BACKSLASH {
        EscapeInside(text, p);
        var (c, q) := Escape(text, p + 1);
        if c != ERROR {
          DecodedFits(text, q, end);
        }
      } else {
        DecodedFits(text, p + 1, end);
      }
    }
  }

  /** Reads the literal whose opening quote is at `quote`: no bytes if it is not closed or
      has a bad escape sequence.  `inside` says that nothing past the text was looked at. */
  method ReadStringLiteral(text: seq<Byte>, quote: nat) returns (r: Option<seq<Byte>>, inside: bool)
    ensures inside <==> !LiteralEnd(text, quote + 1).PastEnd?
    ensures inside ==> r == match LiteralEnd(text, quote + 1) case Found(end) => Decoded(text, quote + 1,
              end) case _ => None
  {
    hide Decoded, LiteralEnd, Escape, Glued;
    var e := FindStringLiteralEnd(text, quote + 1);
    if !e.Found? {
      return None, e.Unclosed?;
    }
    var end := e.end;
    var buf := new Byte[end - quote];
    var len := 0;
    var p := quote + 1;
    ghost var all := Decoded(text, p, end);
    DecodedFits(text, p, end);
    GluedStart(all);
    assert buf[..0] == [];
    while p < end
      invariant LiteralEnd(text, p) == Found(end) && len <= p - (quote + 1) && p <= end
      invariant Glued(all, buf[..len], Decoded(text, p, end))
      decreases end - p
    {
      ghost var p0, before := p, buf[..len];
      DecodedStep(text, p, end);
      if At(text, p) == BACKSLASH {
        var c;
        c, p := ReadEscapedChar(text, p + 1);
        if c == ERROR {
          GluedNone(all, before);
          return None, true;
        }
        buf[len] := c % 256;
      } else {
        buf[len] := At(text, p);
        p := p + 1;
      }
      len := len + 1;
      assert buf[..len] == before + [buf[len - 1]];
      GluedStep(all, before, buf[len - 1], Decoded(text, p, end), Decoded(text, p0, end));
    }
    DecodedDone(text, p, end);
    GluedEnd(all, buf[..len]);
    return Some(buf[..len]), true;
  }

  /** What has been read and what is still to be read make the whole. */
  ghost predicate Glued(all: Option<seq<Byte>>, done: seq<Byte>, rest: Option<seq<Byte>>) {
    all == if rest.None? then None else Some(done + rest.value)
  }

  lemma GluedStart(all: Option<seq<Byte>>)
    ensures Glued(all, [], all)
  {
    assert all.Some? ==> [] + all.value == all.value;
  }

  lemma GluedEnd(all: Option<seq<Byte>>, done: seq<Byte>)
    requires Glued(all, done, Some([]))
    ensures all == Some(done)
  {
    assert done + [] == done;
  }

  lemma GluedNone(all: Option<seq<Byte>>, done: seq<Byte>)
    requires Glued(all, done, None)
    ensures all == None
  {
  }

  lemma GluedStep(all: Option<seq<Byte>>, done: seq<Byte>, c: Byte, rest: Option<seq<Byte>>, more: Option<seq<Byte>>)
    requires Glued(all, done, more) && more == if rest.None? then None else Some([c] + rest.value)
    ensures Glued(all, done + [c], rest)
  {
    if rest.Some? {
      assert done + ([c] + rest.value) == done + [c] + rest.value;
    }
  }

  lemma DecodedDone(text: seq<Byte>, p: nat, end: nat)
    requires p >= end
    ensures Decoded(text, p, end) == Some([])
  {
  }

  lemma DecodedStep(text: seq<Byte>, p: nat, end: nat)
    requires p < end && LiteralEnd(text, p) == Found(end)
    ensures At(text, p) != BACKSLASH ==> LiteralEnd(text, p + 1) == Found(end)
    ensures At(text, p) == BACKSLASH && Escape(text, p + 1).0 != ERROR ==>
              LiteralEnd(text, Escape(text, p + 1).1) == Found(end)
    ensures Decoded(text, p, end) ==
            if At(text, p) == BACKSLASH && Escape(text, p + 1).0 == ERROR then None
            else
              var (c, q) := if At(text, p) == BACKSLASH then Escape(text, p + 1) else (At(text, p) as nat, p + 1);
              var rest := Decoded(text, q, end);
              if rest.None? then None else Some([c % 256] + rest.value)
  {
    if At(text, p) == BACKSLASH {
      EscapeInside(text, p);
    }
  }

  // ---------------------------------------------------------------- the round trip

  predicate OneLine(s: seq<Byte>) {
    NEWLINE !in s
  }

  /** Escaping byte by byte from the left. */
  lemma {:induction false} EscapedFirst(s: seq<Byte>)
    requires s != []
    ensures Escaped(s) == (if NeedsEscape(s[0]) then [BACKSLASH, s[0]] else [s[0]]) + Escaped(s[1..])
  {
    hide Escaped;
    var last := |s| - 1;
    EscapedEnds(s);
    EscapedNext(s, last);
    if last == 0 {
      EscapedEnds(s[1..]);
      assert s[1..] == s[1..][..0];
    } else {
      EscapedFirst(s[..last]);
      EscapedEnds(s[1..]);
      EscapedNext(s[1..], last - 1);
      assert s[..last][1..] == s[1..][..last - 1];
    }
  }

  /** Where the quoted text stands: after the opening quote and before the closing one. */
  ghost predicate Holds(text: seq<Byte>, p: nat, s: seq<Byte>) {
    p + |Escaped(s)| < |text| && text[p..p + |Escaped(s)|] == Escaped(s) && text[p + |Escaped(s)|] == QUOTE
  }

  lemma HoldsRest(text: seq<Byte>, p: nat, s: seq<Byte>)
    requires Holds(text, p, s) && s != []
    ensures NeedsEscape(s[0]) ==> At(text, p) == BACKSLASH && At(text, p + 1) == s[0] && Holds(text, p + 2, s[1..])
    ensures !NeedsEscape(s[0]) ==> At(text, p) == s[0] && Holds(text, p + 1, s[1..])
  {
    EscapedFirst(s);
    var e := Escaped(s);
    assert text[p] == text[p..p + |e|][0];
    if NeedsEscape(s[0]) {
      assert text[p + 1] == text[p..p + |e|][1];
      assert text[p + 2..p + |e|] == e[2..];
    } else {
      assert text[p + 1..p + |e|] == e[1..];
    }
  }

  /** The closing quote is found exactly if the string has no newline. */
  lemma {:induction false} EndFound(text: seq<Byte>, p: nat, s: seq<Byte>)
    requires Holds(text, p, s) && NUL !in s
    ensures LiteralEnd(text, p) == if OneLine(s) then Found(p + |Escaped(s)|) else Unclosed
    decreases |s|
  {
    if s != [] {
      HoldsRest(text, p, s);
      EscapedFirst(s);
      assert s == [s[0]] + s[1..];
      EndFound(text, if NeedsEscape(s[0]) then p + 2 else p + 1, s[1..]);
    }
  }

  lemma {:induction false} DecodedBack(text: seq<Byte>, p: nat, s: seq<Byte>)
    requires Holds(text, p, s)
    ensures Decoded(text, p, p + |Escaped(s)|) == Some(s)
    decreases |s|
  {
    hide Escaped;
    EscapedEnds(s);
    if s != [] {
      HoldsRest(text, p, s);
      EscapedFirst(s);
      DecodedBack(text, if NeedsEscape(s[0]) then p + 2 else p + 1, s[1..]);
      assert s == [s[0]] + s[1..];
    }
  }

  /** Reading a quoted string gives the string back, wherever it stands in the text; with
      a newline in it, it is no literal. */
  lemma QuoteThenRead(before: seq<Byte>, s: seq<Byte>, after: seq<Byte>)
    requires NUL !in s
    ensures var text, p := before + Quote(s) + after, |before| + 1;
            if OneLine(s) then
              LiteralEnd(text, p) == Found(p + |Escaped(s)|) && Decoded(text, p, p + |Escaped(s)|) == Some(s)
            else LiteralEnd(text, p) == Unclosed
  {
    hide Escaped, LiteralEnd, Decoded;
    var text, p := before + Quote(s) + after, |before| + 1;
    assert text[p..p + |Escaped(s)|] == Escaped(s);
    assert text[p + |Escaped(s)|] == QUOTE;
    EndFound(text, p, s);
    DecodedBack(text, p, s);
  }
}
