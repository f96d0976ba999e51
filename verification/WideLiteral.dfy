/**
 `EscapeWideLiteral` of the message-table emitter (tools/mc/TableEmitter.cs), proved against
 readers of C++ wide string literals.

 ISO/IEC 14882:2017, section 5.13.3, lets `\x` take every hexadecimal digit that follows.
 The emitter's comment assumes that it stops after four.  Both readers are modelled: the
 round trip is unconditional under the four-digit rule and holds under the ISO rule exactly
 when no hex-escaped unit is followed by a hexadecimal digit.
 */
module WideLiteral {
  import opened CodeUnits
  import opened Wrappers

  // ----- the escaper -----

  function EscapeUnit(c: Unit): (r: Str)
    ensures r != []
    ensures forall i :: 0 <= i < |r| ==> 0x20 <= r[i] < 0x7f
  {
    if c == BACKSLASH then [BACKSLASH, BACKSLASH]
    else if c == QUOTE then [BACKSLASH, QUOTE]
    else if c == LF then [BACKSLASH, 110]
    else if c == CR then [BACKSLASH, 114]
    else if c == TAB then [BACKSLASH, 116]
    else if 0x20 <= c < 0x7f then [c]
    else [BACKSLASH, 120] + Hex4(c)
  }

  function Escape(s: Str): (r: Str)
    ensures forall i :: 0 <= i < |r| ==> 0x20 <= r[i] < 0x7f
  {
    if s == [] then [] else EscapeUnit(s[0]) + Escape(s[1..])
  }

  lemma {:induction false} EscapeAppend(s: Str, c: Unit)
    ensures Escape(s + [c]) == Escape(s) + EscapeUnit(c)
  {
    hide EscapeUnit;
    if s == [] {
      assert s + [c] == [c] && [c][1..] == [];
    } else {
      EscapeAppend(s[1..], c);
      assert (s + [c])[1..] == s[1..] + [c];
    }
  }

  method EscapeWideLiteral(s: Str) returns (r: Str)
    ensures r == Escape(s)
    ensures forall i :: 0 <= i < |r| ==> 0x20 <= r[i] < 0x7f
    ensures forall rest :: Literal(r + [QUOTE] + rest) == Some((r, rest))
    ensures Decode(FourDigits, r) == Some(s)
    ensures Decode(Iso, r) == Some(s) <==> !Hazard(s)
  {
    r := [];
    for i := 0 to |s|
      invariant r == Escape(s[..i])
    {
      var c := s[i];
      EscapeAppend(s[..i], c);
      assert s[..i + 1] == s[..i] + [c];
      if c == BACKSLASH {
        r := r + [BACKSLASH, BACKSLASH];
      } else if c == QUOTE {
        r := r + [BACKSLASH, QUOTE];
      } else if c == LF {
        r := r + [BACKSLASH, 110];
      } else if c == CR {
        r := r + [BACKSLASH, 114];
      } else if c == TAB {
        r := r + [BACKSLASH, 116];
      } else if c < 0x20 {
        r := r + ([BACKSLASH, 120] + Hex4(c));
      } else if c < 0x7f {
        r := r + [c];
      } else {
        r := r + ([BACKSLASH, 120] + Hex4(c));
      }
    }
    assert s[..|s|] == s;
    forall rest ensures Literal(r + [QUOTE] + rest) == Some((r, rest)) {
      LiteralOfEscape(s, rest);
    }
    RoundTripFourDigits(s);
    RoundTripIso(s);
  }

  // ----- finding the end of a literal -----

  /** The text up to the first unescaped quote, and what follows that quote. */
  function Literal(text: Str): (r: Option<(Str, Str)>)
    ensures r.Some? ==> |r.value.1| < |text|
  {
    if text == [] then None
    else if text[0] == QUOTE then Some(([], text[1..]))
    else if text[0] == BACKSLASH then
      if |text| == 1 then None
      else match Literal(text[2..])
        case None => None
        case Some((body, rest)) => Some((text[..2] + body, rest))
    else match Literal(text[1..])
      case None => None
      case Some((body, rest)) => Some((text[..1] + body, rest))
  }

  /** Ordinary characters are part of the literal. */
  lemma {:induction false} LiteralPlain(plain: Str, text: Str)
    requires forall i :: 0 <= i < |plain| ==> plain[i] != QUOTE && plain[i] != BACKSLASH
    requires Literal(text).Some?
    ensures Literal(plain + text) == Some((plain + Literal(text).value.0, Literal(text).value.1))
  {
    if plain == [] {
      assert plain + text == text;
      assert plain + Literal(text).value.0 == Literal(text).value.0;
    } else {
      assert (plain + text)[1..] == plain[1..] + text && (plain + text)[..1] == plain[..1];
      LiteralPlain(plain[1..], text);
      assert plain[..1] + plain[1..] == plain;
      assert plain[..1] + (plain[1..] + Literal(text).value.0) == plain + Literal(text).value.0;
    }
  }

  /** So are a backslash and whatever follows it. */
  lemma LiteralPair(u: Unit, text: Str)
    requires Literal(text).Some?
    ensures Literal([BACKSLASH, u] + text) == Some(([BACKSLASH, u] + Literal(text).value.0, Literal(text).value.1))
  {
    var all := [BACKSLASH, u] + text;
    assert all[2..] == text && all[..2] == [BACKSLASH, u];
  }

  lemma LiteralEscaped(u: Unit, plain: Str, text: Str)
    requires forall i :: 0 <= i < |plain| ==> plain[i] != QUOTE && plain[i] != BACKSLASH
    requires Literal(text).Some?
    ensures Literal([BACKSLASH, u] + plain + text)
            == Some(([BACKSLASH, u] + plain + Literal(text).value.0, Literal(text).value.1))
  {
    hide Literal;
    LiteralPlain(plain, text);
    LiteralPair(u, plain + text);
    ConcatAssoc([BACKSLASH, u], plain, text);
    ConcatAssoc([BACKSLASH, u], plain, Literal(text).value.0);
  }

  lemma LiteralUnit(c: Unit, text: Str)
    requires Literal(text).Some?
    ensures Literal(EscapeUnit(c) + text) == Some((EscapeUnit(c) + Literal(text).value.0, Literal(text).value.1))
  {
    hide Literal;
    var e := EscapeUnit(c);
    if e[0] == BACKSLASH {
      LiteralEscaped(e[1], e[2..], text);
      assert [BACKSLASH, e[1]] + e[2..] == e;
    } else {
      LiteralPlain(e, text);
    }
  }

  /** No quote inside the escaped text ends the literal early. */
  lemma {:induction false} LiteralOfEscape(s: Str, rest: Str)
    ensures Literal(Escape(s) + [QUOTE] + rest) == Some((Escape(s), rest))
  {
    if s == [] {
      assert Escape(s) + [QUOTE] + rest == [QUOTE] + rest;
      assert ([QUOTE] + rest)[1..] == rest;
    } else {
      LiteralOfEscape(s[1..], rest);
      LiteralUnit(s[0], Escape(s[1..]) + [QUOTE] + rest);
      ConcatAssoc(EscapeUnit(s[0]), Escape(s[1..]), [QUOTE]);
      ConcatAssoc(EscapeUnit(s[0]), Escape(s[1..]) + [QUOTE], rest);
    }
  }

  // ----- the value of a literal -----

  datatype HexRule = Iso | FourDigits

  /** How many of the hexadecimal digits at the front of `s` an `\x` takes. */
  function HexTaken(rule: HexRule, s: Str): (n: nat)
    ensures n <= |s|
    ensures forall i :: 0 <= i < n ==> IsHexDigit(s[i])
  {
    var run := RunLength(s, IsHexDigit);
    if rule.FourDigits? && run > 4 then 4 else run
  }

  function SimpleEscape(u: Unit): Option<Unit> {
    if u == BACKSLASH || u == QUOTE then Some(u)
    else if u == 110 then Some(LF)
    else if u == 114 then Some(CR)
    else if u == 116 then Some(TAB)
    else None
  }

  function Cons(u: Unit, rest: Option<Str>): Option<Str> {
    if rest.None? then None else Some([u] + rest.value)
  }

  /**
   The units a literal denotes, for the escapes the emitter uses.  `None`: ill-formed, or a
   value that does not fit the 16-bit wide character of `-fshort-wchar`.
   */
  function Decode(rule: HexRule, text: Str): Option<Str>
    decreases |text|
  {
    if text == [] then Some([])
    else if text[0] != BACKSLASH then Cons(text[0], Decode(rule, text[1..]))
    else if |text| == 1 then None
    else if text[1] != 120 then
      var simple := SimpleEscape(text[1]);
      if simple.None? then None else Cons(simple.value, Decode(rule, text[2..]))
    else
      var n := HexTaken(rule, text[2..]);
      if n == 0 then None
      else
        var v := Value(16, text[2..][..n]);
        if v >= 0x10000 then None else Cons(v as Unit, Decode(rule, text[2..][n..]))
  }

  /** A unit that the escaper writes as `\xNNNN`. */
  predicate HexEscaped(c: Unit) {
    c != LF && c != CR && c != TAB && (c < 0x20 || c >= 0x7f)
  }

  /** Some hex-escaped unit is directly followed by a hexadecimal digit. */
  predicate Hazard(s: Str) {
    exists i :: 0 <= i < |s| - 1 && HexEscaped(s[i]) && IsHexDigit(s[i + 1])
  }

  lemma HazardCons(s: Str)
    requires s != []
    ensures Hazard(s) <==> (|s| > 1 && HexEscaped(s[0]) && IsHexDigit(s[1])) || Hazard(s[1..])
  {
    if Hazard(s) {
      var i :| 0 <= i < |s| - 1 && HexEscaped(s[i]) && IsHexDigit(s[i + 1]);
      if i > 0 {
        assert HexEscaped(s[1..][i - 1]) && IsHexDigit(s[1..][i - 1 + 1]);
      }
    }
    if Hazard(s[1..]) {
      var i :| 0 <= i < |s[1..]| - 1 && HexEscaped(s[1..][i]) && IsHexDigit(s[1..][i + 1]);
      assert HexEscaped(s[i + 1]) && IsHexDigit(s[i + 1 + 1]);
    }
    if |s| > 1 && HexEscaped(s[0]) && IsHexDigit(s[1]) {
      assert IsHexDigit(s[0 + 1]);
    }
  }

  /** A unit that is not hex-escaped is read back alone, whatever follows it. */
  lemma DecodeSimple(rule: HexRule, c: Unit, rest: Str)
    requires !HexEscaped(c)
    ensures Decode(rule, EscapeUnit(c) + rest) == Cons(c, Decode(rule, rest))
  {
    var e := EscapeUnit(c);
    if |e| == 1 {
      assert (e + rest)[1..] == rest;
    } else {
      assert (e + rest)[2..] == rest;
    }
  }

  /** The digits of a hex escape, and as many of the digits that follow as the rule lets it take. */
  lemma DecodeHex(rule: HexRule, c: Unit, rest: Str, n: nat)
    requires HexEscaped(c)
    requires n == HexTaken(rule, Hex4(c) + rest) && n <= |Hex4(c) + rest|
    ensures Decode(rule, EscapeUnit(c) + rest) ==
            if n == 0 || Value(16, (Hex4(c) + rest)[..n]) >= 0x10000 then None
            else Cons(Value(16, (Hex4(c) + rest)[..n]) as Unit, Decode(rule, (Hex4(c) + rest)[n..]))
  {
    var text := EscapeUnit(c) + rest;
    assert text[2..] == Hex4(c) + rest;
  }

  /** Hexadecimal digits are escaped as they are. */
  lemma {:induction false} EscapeDigits(digits: Str, rest: Str)
    requires forall i :: 0 <= i < |digits| ==> IsHexDigit(digits[i])
    ensures Escape(digits + rest) == digits + Escape(rest)
    decreases |digits|
  {
    hide EscapeUnit;
    var s := digits + rest;
    if digits == [] {
      assert s == rest;
    } else {
      EscapeDigits(digits[1..], rest);
      FirstOfEscape(s[0]);
      assert s[1..] == digits[1..] + rest;
      assert [s[0]] + (digits[1..] + Escape(rest)) == digits + Escape(rest);
    }
  }

  /** Escaping keeps hexadecimal digits and starts nothing else with one. */
  lemma RunOfEscape(s: Str)
    ensures var k := RunLength(s, IsHexDigit);
            && RunLength(Escape(s), IsHexDigit) == k <= |Escape(s)|
            && Escape(s)[k..] == Escape(s[k..]) && Escape(s)[..k] == s[..k]
  {
    hide EscapeUnit, RunLength;
    var k := RunLength(s, IsHexDigit);
    var rest := s[k..];
    assert s == s[..k] + rest;
    EscapeDigits(s[..k], rest);
    if rest != [] {
      FirstOfEscape(rest[0]);
      assert !IsHexDigit(Escape(rest)[0]);
    }
    RunLengthIs(Escape(s), IsHexDigit, k);
  }

  lemma FirstOfEscape(c: Unit)
    ensures IsHexDigit(c) ==> EscapeUnit(c) == [c]
    ensures !IsHexDigit(c) ==> !IsHexDigit(EscapeUnit(c)[0])
  {
  }

  /** Four digits are always there to be taken, then the run that follows. */
  lemma RunAfterHex4(c: Unit, rest: Str)
    ensures RunLength(Hex4(c) + rest, IsHexDigit) == 4 + RunLength(rest, IsHexDigit)
  {
    RunLengthIs(Hex4(c) + rest, IsHexDigit, 4 + RunLength(rest, IsHexDigit));
  }

  lemma {:induction false} RoundTripFourDigits(s: Str)
    ensures Decode(FourDigits, Escape(s)) == Some(s)
  {
    hide EscapeUnit, Hex4, Value;
    if s != [] {
      RoundTripFourDigits(s[1..]);
      assert [s[0]] + s[1..] == s;
      if HexEscaped(s[0]) {
        var rest := Escape(s[1..]);
        RunAfterHex4(s[0], rest);
        DecodeHex(FourDigits, s[0], rest, 4);
        assert (Hex4(s[0]) + rest)[..4] == Hex4(s[0]) && (Hex4(s[0]) + rest)[4..] == rest;
        Hex4Value(s[0]);
      } else {
        DecodeSimple(FourDigits, s[0], Escape(s[1..]));
      }
    }
  }

  /** Under the ISO rule a hex escape swallows the run of hexadecimal digits after it. */
  lemma IsoSwallows(c: Unit, rest: Str, k: nat)
    requires HexEscaped(c)
    requires k == RunLength(rest, IsHexDigit) <= |rest|
    ensures var d, t := Decode(Iso, EscapeUnit(c) + Escape(rest)), Decode(Iso, Escape(rest[k..]));
            && (d.Some? ==> t.Some? && |d.value| == 1 + |t.value|)
            && (d.None? <==> Value(16, Hex4(c) + rest[..k]) >= 0x10000 || t.None?)
            && (k == 0 ==> d == Cons(c, t))
  {
    hide EscapeUnit, Decode, Hex4, Value, Escape, RunLength;
    var text := Escape(rest);
    RunOfEscape(rest);
    RunAfterHex4(c, text);
    DecodeHex(Iso, c, text, 4 + k);
    assert (Hex4(c) + text)[4 + k..] == text[k..];
    assert (Hex4(c) + text)[..4 + k] == Hex4(c) + rest[..k];
    if k == 0 {
      assert (Hex4(c) + text)[..4] == Hex4(c);
      Hex4Value(c);
    }
  }

  /**
   So the value never has more units than the text, has fewer when there is a hazard, and is
   exact when there is none.
   */
  lemma {:induction false} IsoLength(s: Str)
    ensures var d := Decode(Iso, Escape(s));
            && (d.Some? ==> |d.value| <= |s|)
            && (Hazard(s) ==> d.None? || |d.value| < |s|)
            && (!Hazard(s) ==> d == Some(s))
    decreases |s|
  {
    hide EscapeUnit;
    if s != [] {
      HazardCons(s);
      assert [s[0]] + s[1..] == s;
      if HexEscaped(s[0]) {
        var k := RunLength(s[1..], IsHexDigit);
        IsoLength(s[1..][k..]);
        IsoSwallows(s[0], s[1..], k);
        if k == 0 {
          assert s[1..][0..] == s[1..];
        }
      } else {
        IsoLength(s[1..]);
        DecodeSimple(Iso, s[0], Escape(s[1..]));
      }
    }
  }

  lemma RoundTripIso(s: Str)
    ensures Decode(Iso, Escape(s)) == Some(s) <==> !Hazard(s)
  {
    IsoLength(s);
  }

  /** The unit at `i` is hex-escaped, and with the hexadecimal digits after it too large for a wide character. */
  predicate TooWideAt(s: Str, i: int) {
    && 0 <= i < |s| && HexEscaped(s[i])
    && Value(16, Hex4(s[i]) + s[i + 1..][..RunLength(s[i + 1..], IsHexDigit)]) >= 0x10000
  }

  predicate TooWide(s: Str) {
    exists i :: 0 <= i < |s| && TooWideAt(s, i)
  }

  lemma TooWideLater(s: Str, j: nat)
    requires j <= |s| && forall i :: 0 <= i < j ==> !TooWideAt(s, i)
    ensures TooWide(s) <==> TooWide(s[j..])
  {
    hide Hex4, Value;
    forall i | j <= i < |s|
      ensures TooWideAt(s, i) <==> TooWideAt(s[j..], i - j)
    {
      assert s[j..][i - j + 1..] == s[i + 1..];
    }
    if i :| 0 <= i < |s| && TooWideAt(s, i) {
      assert TooWideAt(s[j..], i - j);
    }
    if i :| 0 <= i < |s| - j && TooWideAt(s[j..], i) {
      assert TooWideAt(s, i + j);
    }
  }

  /** The first unit of a text, hex-escaped, decides with its digits; else the rest does. */
  lemma TooWideHex(s: Str, k: nat)
    requires s != [] && HexEscaped(s[0]) && k == RunLength(s[1..], IsHexDigit) < |s|
    ensures TooWide(s) <==> Value(16, Hex4(s[0]) + s[1..][..k]) >= 0x10000 || TooWide(s[1 + k..])
  {
    hide Hex4, Value, TooWide;
    if TooWideAt(s, 0) {
      assert TooWide(s) by { TooWideIs(s, 0); }
    } else {
      assert forall i :: 1 <= i < 1 + k ==> IsHexDigit(s[1..][i - 1]) && !HexEscaped(s[i]);
      TooWideLater(s, 1 + k);
    }
  }

  lemma TooWideIs(s: Str, i: nat)
    requires TooWideAt(s, i)
    ensures TooWide(s)
  {
  }

  lemma EscapeHead(s: Str)
    requires s != []
    ensures Escape(s) == EscapeUnit(s[0]) + Escape(s[1..])
  {
  }

  /** Under the ISO rule a literal denotes nothing exactly when an escape in it is too large. */
  lemma {:induction false} IsoDenotes(s: Str)
    ensures Decode(Iso, Escape(s)).None? <==> TooWide(s)
    decreases |s|
  {
    if s == [] {
    } else {
      hide Decode, Escape, EscapeUnit, Hex4, Value, RunLength, TooWide;
      EscapeHead(s);
      if HexEscaped(s[0]) {
        var k := RunLength(s[1..], IsHexDigit);
        assert s[1..][k..] == s[1 + k..];
        IsoDenotes(s[1 + k..]);
        IsoSwallows(s[0], s[1..], k);
        TooWideHex(s, k);
      } else {
        IsoDenotes(s[1..]);
        DecodeSimple(Iso, s[0], Escape(s[1..]));
        TooWideLater(s, 1);
      }
      assert Decode(Iso, Escape(s)).None? <==> TooWide(s);
    }
  }
}
