/**
 Text as the C# tools see it: sequences of UTF-16 code units, with the few operations of
 the .NET library that the tools rely on.  Dafny's `char` excludes surrogates, so code units
 are numbers here.
 */
module CodeUnits {
  import opened Wrappers

  newtype Unit = u: int | 0 <= u < 0x10000

  type Str = seq<Unit>

  const TAB: Unit := 9
  const LF: Unit := 10
  const CR: Unit := 13
  const SPACE: Unit := 32
  const QUOTE: Unit := 34
  const DOT: Unit := 46
  const COLON: Unit := 58
  const SEMICOLON: Unit := 59
  const EQUALS: Unit := 61
  const BACKSLASH: Unit := 92
  const ELLIPSIS: Unit := 0x2026

  /** An ASCII constant of the program as code units. */
  function Ascii(s: string): (r: Str)
    requires forall i :: 0 <= i < |s| ==> s[i] as int < 128
    ensures |r| == |s| && forall i :: 0 <= i < |s| ==> r[i] as int == s[i] as int
  {
    seq(|s|, i requires 0 <= i < |s| => s[i] as int as Unit)
  }

  predicate IsPrefix(prefix: Str, s: Str) {
    |prefix| <= |s| && s[..|prefix|] == prefix
  }

  lemma ConcatAssoc(a: Str, b: Str, c: Str)
    ensures (a + b) + c == a + (b + c)
  {
  }

  // ----- trimming -----

  /** `TrimEnd('\r')`: drops every trailing carriage return. */
  function TrimEndCr(s: Str): Str {
    if s != [] && s[|s| - 1] == CR then TrimEndCr(s[..|s| - 1]) else s
  }

  /** What is dropped is carriage returns, and none is left at the end. */
  lemma {:induction false} TrimEndCrDrops(s: Str)
    ensures var r := TrimEndCr(s);
            && |r| <= |s| && r == s[..|r|]
            && (r == [] || r[|r| - 1] != CR)
            && forall i :: |r| <= i < |s| ==> s[i] == CR
  {
    if s != [] && s[|s| - 1] == CR {
      TrimEndCrDrops(s[..|s| - 1]);
    }
  }

  /** `char.IsWhiteSpace`. */
  predicate IsWhite(u: Unit) {
    || 9 <= u <= 13 || u == 0x20 || u == 0x85 || u == 0xA0 || u == 0x1680
    || 0x2000 <= u <= 0x200A || u == 0x2028 || u == 0x2029 || u == 0x202F || u == 0x205F || u == 0x3000
  }

  function TrimStart(s: Str): (r: Str)
    ensures |r| <= |s| && r == s[|s| - |r|..]
    ensures r == [] || !IsWhite(r[0])
  {
    if s != [] && IsWhite(s[0]) then TrimStart(s[1..]) else s
  }

  function TrimEnd(s: Str): (r: Str)
    ensures |r| <= |s| && r == s[..|r|]
    ensures r == [] || !IsWhite(r[|r| - 1])
  {
    if s != [] && IsWhite(s[|s| - 1]) then TrimEnd(s[..|s| - 1]) else s
  }

  function Trim(s: Str): (r: Str)
    ensures |r| <= |s|
    ensures r == [] || (!IsWhite(r[0]) && !IsWhite(r[|r| - 1]))
  {
    TrimEnd(TrimStart(s))
  }

  /** Text that trimming leaves alone. */
  predicate Trimmed(s: Str) {
    s == [] || (!IsWhite(s[0]) && !IsWhite(s[|s| - 1]))
  }

  predicate AllWhite(s: Str) {
    forall i :: 0 <= i < |s| ==> IsWhite(s[i])
  }

  lemma {:induction false} TrimStartIs(left: Str, text: Str)
    requires AllWhite(left) && (text == [] || !IsWhite(text[0]))
    ensures TrimStart(left + text) == text
    decreases |left|
  {
    hide IsWhite;
    if left == [] {
      assert left + text == text;
    } else {
      TrimStartIs(left[1..], text);
      assert (left + text)[1..] == left[1..] + text;
    }
  }

  lemma {:induction false} TrimEndIs(text: Str, right: Str)
    requires AllWhite(right) && (text == [] || !IsWhite(text[|text| - 1]))
    ensures TrimEnd(text + right) == text
    decreases |right|
  {
    hide IsWhite;
    var s := text + right;
    if right == [] {
      assert s == text;
    } else {
      TrimEndIs(text, right[..|right| - 1]);
      assert s[..|s| - 1] == text + right[..|right| - 1];
    }
  }

  /** Trimming takes the white space around a text, and nothing else. */
  lemma TrimIs(left: Str, text: Str, right: Str)
    requires AllWhite(left) && AllWhite(right) && Trimmed(text)
    ensures Trim(left + (text + right)) == text
  {
    hide IsWhite, TrimStart, TrimEnd;
    if text == [] {
      TrimStartIs(left + right, []);
      assert left + (text + right) == left + right + [];
      TrimEndIs([], []);
    } else {
      TrimStartIs(left, text + right);
      TrimEndIs(text, right);
    }
  }

  // ----- lines -----

  predicate NoNewline(s: Str) {
    LF !in s
  }

  /** `Split('\n')`: one more piece than there are newlines. */
  function SplitLines(s: Str): (lines: seq<Str>)
    ensures lines != []
    ensures forall i :: 0 <= i < |lines| ==> NoNewline(lines[i])
  {
    if s == [] then [[]]
    else if s[0] == LF then [[]] + SplitLines(s[1..])
    else var rest := SplitLines(s[1..]); [[s[0]] + rest[0]] + rest[1..]
  }

  /** `string.Join('\n', lines)`. */
  function JoinLines(lines: seq<Str>): Str {
    if lines == [] then []
    else if |lines| == 1 then lines[0]
    else lines[0] + [LF] + JoinLines(lines[1..])
  }

  lemma {:induction false} SplitPiece(piece: Str, rest: Str)
    requires NoNewline(piece)
    ensures SplitLines(piece + [LF] + rest) == [piece] + SplitLines(rest)
  {
    var s := piece + [LF] + rest;
    if piece == [] {
      assert s[1..] == rest;
    } else {
      SplitPiece(piece[1..], rest);
      assert s[1..] == piece[1..] + [LF] + rest;
      assert [piece[0]] + piece[1..] == piece;
    }
  }

  lemma {:induction false} SplitSingle(piece: Str)
    requires NoNewline(piece)
    ensures SplitLines(piece) == [piece]
  {
    if piece != [] {
      SplitSingle(piece[1..]);
      assert [piece[0]] + piece[1..] == piece;
    }
  }

  lemma {:induction false} SplitJoin(lines: seq<Str>)
    requires lines != []
    requires forall i :: 0 <= i < |lines| ==> NoNewline(lines[i])
    ensures SplitLines(JoinLines(lines)) == lines
  {
    if |lines| == 1 {
      SplitSingle(lines[0]);
    } else {
      SplitJoin(lines[1..]);
      SplitPiece(lines[0], JoinLines(lines[1..]));
    }
  }

  // ----- numbers -----

  predicate IsDigit(u: Unit) {
    48 <= u <= 57
  }

  predicate IsHexDigit(u: Unit) {
    IsDigit(u) || 65 <= u <= 70 || 97 <= u <= 102
  }

  function HexDigitValue(u: Unit): (v: nat)
    requires IsHexDigit(u)
    ensures v < 16
  {
    if IsDigit(u) then u as int - 48 else if u <= 70 then u as int - 55 else u as int - 87
  }

  /** The length of the run of units at the front of `s` that satisfy `p`. */
  function RunLength(s: Str, p: Unit -> bool): (n: nat)
    ensures n <= |s|
    ensures forall i :: 0 <= i < n ==> p(s[i])
    ensures n < |s| ==> !p(s[n])
  {
    if s != [] && p(s[0]) then 1 + RunLength(s[1..], p) else 0
  }

  lemma {:induction false} RunLengthIs(s: Str, p: Unit -> bool, n: nat)
    requires n <= |s|
    requires forall i :: 0 <= i < n ==> p(s[i])
    requires n < |s| ==> !p(s[n])
    ensures RunLength(s, p) == n
  {
  }

  function Value(base: nat, digits: Str): nat
    requires forall i :: 0 <= i < |digits| ==> IsHexDigit(digits[i])
  {
    if digits == [] then 0
    else Value(base, digits[..|digits| - 1]) * base + HexDigitValue(digits[|digits| - 1])
  }

  /** `ToString(CultureInfo.InvariantCulture)` of an unsigned integer. */
  function Dec(n: nat): (r: Str)
    ensures r != []
    ensures forall i :: 0 <= i < |r| ==> IsDigit(r[i])
  {
    if n < 10 then [48 + n as Unit] else Dec(n / 10) + [48 + (n % 10) as Unit]
  }

  lemma {:induction false} DecValue(n: nat)
    ensures Value(10, Dec(n)) == n
  {
    if n >= 10 {
      DecValue(n / 10);
      assert Dec(n)[..|Dec(n)| - 1] == Dec(n / 10);
    } else {
      assert Dec(n)[..0] == [];
    }
  }

  lemma {:induction false} LeadingZeros(zeros: Str, digits: Str)
    requires forall i :: 0 <= i < |zeros| ==> zeros[i] == 48
    requires forall i :: 0 <= i < |digits| ==> IsHexDigit(digits[i])
    ensures Value(10, zeros + digits) == Value(10, digits)
  {
    var all := zeros + digits;
    if digits != [] {
      LeadingZeros(zeros, digits[..|digits| - 1]);
      assert all[..|all| - 1] == zeros + digits[..|digits| - 1];
    } else if zeros != [] {
      LeadingZeros(zeros[..|zeros| - 1], []);
      assert all[..|all| - 1] == zeros[..|zeros| - 1] + [];
    }
  }

  function HexDigit(v: nat): (u: Unit)
    requires v < 16
    ensures IsHexDigit(u) && HexDigitValue(u) == v
  {
    if v < 10 then 48 + v as Unit else 87 + v as Unit
  }

  /** `ToString("x4")` of a code unit. */
  function Hex4(u: Unit): (r: Str)
    ensures |r| == 4 && forall i :: 0 <= i < 4 ==> IsHexDigit(r[i]) && 48 <= r[i] <= 102
  {
    var n := u as int;
    [HexDigit(n / 0x1000), HexDigit(n / 0x100 % 16), HexDigit(n / 16 % 16), HexDigit(n % 16)]
  }

  lemma FourDigits(h: Str)
    requires |h| == 4 && forall i :: 0 <= i < 4 ==> IsHexDigit(h[i])
    ensures Value(16, h) == HexDigitValue(h[0]) * 0x1000 + HexDigitValue(h[1]) * 0x100
                            + HexDigitValue(h[2]) * 16 + HexDigitValue(h[3])
  {
    var h3, h2, h1 := h[..3], h[..2], h[..1];
    assert h3[..2] == h2 && h2[..1] == h1 && h1[..0] == [];
    assert Value(16, h1) == HexDigitValue(h[0]);
    assert Value(16, h2) == Value(16, h1) * 16 + HexDigitValue(h[1]);
    assert Value(16, h3) == Value(16, h2) * 16 + HexDigitValue(h[2]);
  }

  /** A 16-bit number from its hexadecimal digits. */
  lemma HexDigits(n: nat)
    ensures n / 0x1000 * 0x1000 + n / 0x100 % 16 * 0x100 + n / 16 % 16 * 16 + n % 16 == n
  {
    assert n / 0x100 == n / 0x1000 * 16 + n / 0x100 % 16;
    assert n / 16 == n / 0x100 * 16 + n / 16 % 16;
  }

  lemma Hex4Value(u: Unit)
    ensures Value(16, Hex4(u)) == u as int
  {
    hide Value, HexDigit, HexDigitValue;
    FourDigits(Hex4(u));
    HexDigits(u as int);
  }

  /** White space as the .NET number parser knows it. */
  predicate IsNumberWhite(u: Unit) {
    u == 0x20 || 9 <= u <= 13
  }

  predicate IsNul(u: Unit) {
    u == 0
  }

  /** What the .NET number parser accepts after the digits: white space, then NULs. */
  predicate TrailerOk(s: Str) {
    var white := RunLength(s, IsNumberWhite);
    RunLength(s[white..], IsNul) == |s| - white
  }

  /** `uint.TryParse` with `NumberStyles.HexNumber`, by contract. */
  function TryParseHex(s: Str): (r: Option<nat>)
    ensures r.Some? ==> r.value < 0x1_0000_0000
  {
    var body := s[RunLength(s, IsNumberWhite)..];
    var n := RunLength(body, IsHexDigit);
    if n == 0 || !TrailerOk(body[n..]) then None
    else var v := Value(16, body[..n]); if v < 0x1_0000_0000 then Some(v) else None
  }

  /** `uint.TryParse` with `NumberStyles.Integer`, by contract: a minus sign is accepted on zero only. */
  function TryParseDecimal(s: Str): (r: Option<nat>)
    ensures r.Some? ==> r.value < 0x1_0000_0000
  {
    var body := s[RunLength(s, IsNumberWhite)..];
    var negative := body != [] && body[0] == 45;
    var digits := if negative || (body != [] && body[0] == 43) then body[1..] else body;
    var n := RunLength(digits, IsDigit);
    if n == 0 || !TrailerOk(digits[n..]) then None
    else
      var v := Value(10, digits[..n]);
      if v >= 0x1_0000_0000 || (negative && v != 0) then None else Some(v)
  }

  /** `TryParseUInt`: a `0x` or `0X` prefix selects hexadecimal. */
  function TryParseUInt(s: Str): (r: Option<nat>)
    ensures r.Some? ==> r.value < 0x1_0000_0000
  {
    if |s| >= 2 && s[0] == 48 && (s[1] == 120 || s[1] == 88) then TryParseHex(s[2..]) else TryParseDecimal(s)
  }

  lemma ParseDecimal(s: Str)
    requires s != [] && (forall i :: 0 <= i < |s| ==> IsDigit(s[i])) && Value(10, s) < 0x1_0000_0000
    ensures TryParseUInt(s) == Some(Value(10, s))
  {
    hide Value;
    RunLengthIs(s, IsNumberWhite, 0);
    RunLengthIs(s, IsDigit, |s|);
    assert s[0..] == s && s[..|s|] == s && s[|s|..] == [];
  }

  lemma ParseHexadecimal(s: Str)
    requires |s| > 2 && s[0] == 48 && (s[1] == 120 || s[1] == 88)
    requires (forall i :: 2 <= i < |s| ==> IsHexDigit(s[i])) && Value(16, s[2..]) < 0x1_0000_0000
    ensures TryParseUInt(s) == Some(Value(16, s[2..]))
  {
    hide Value;
    var digits := s[2..];
    RunLengthIs(digits, IsNumberWhite, 0);
    RunLengthIs(digits, IsHexDigit, |digits|);
    assert digits[0..] == digits && digits[..|digits|] == digits && digits[|digits|..] == [];
  }
}
