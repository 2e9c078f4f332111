/** Quoted literals of the grammar file and their canonical names (jay/reader.c, get_literal). Characters are bytes. */
module Literal {

  const BACKSLASH: nat := 92
  const NEWLINE: nat := 10
  const MAXCHAR: nat := 255

  /** jay/reader.c, hexval. */
  function HexValue(c: nat): (v: int)
    ensures -1 <= v < 16
    ensures 0 <= v < 10 ==> c == '0' as nat + v
    ensures v >= 10 ==> c == 'A' as nat + (v - 10) || c == 'a' as nat + (v - 10)
    ensures v < 0 ==> c !in {48, 49, 50, 51, 52, 53, 54, 55, 56, 57, 65, 66, 67, 68, 69, 70, 97, 98, 99, 100, 101, 102}
  {
    if 48 <= c <= 57 then c - 48
    else if 65 <= c <= 70 then c - 65 + 10
    else if 97 <= c <= 102 then c - 97 + 10
    else -1
  }

  predicate IsOctal(c: nat)
  {
    48 <= c <= 55
  }

  /** The character at a position; behind the text there is the null that ends the line buffer. */
  function At(text: seq<nat>, i: nat): nat
  {
    if i < |text| then text[i] else 0
  }

  /** One round of the reading loop. */
  datatype Turn = Char(c: nat, next: nat) | Continued(next: nat) | Closed(next: nat) | Unterminated | Illegal

  function OctalTurn(text: seq<nat>, i: nat): Turn
    requires IsOctal(At(text, i))
  {
    var n := At(text, i) - 48;
    if !IsOctal(At(text, i + 1)) then Char(n, i + 1)
    else
      var n2 := n * 8 + (At(text, i + 1) - 48);
      if !IsOctal(At(text, i + 2)) then Char(n2, i + 2)
      else
        var n3 := n2 * 8 + (At(text, i + 2) - 48);
        if n3 > MAXCHAR then Illegal else Char(n3, i + 3)
  }

  function HexTurn(text: seq<nat>, i: nat, n: nat): Turn
    decreases |text| - i
  {
    if i >= |text| || HexValue(text[i]) < 0 then Char(n, i)
    else if n * 16 + HexValue(text[i]) > MAXCHAR then Illegal
    else HexTurn(text, i + 1, n * 16 + HexValue(text[i]))
  }

  /** The control characters that have a letter of their own. */
  function Control(d: nat): (c: nat)
  {
    if d == 97 then 7 else if d == 98 then 8 else if d == 102 then 12 else if d == 110 then 10
    else if d == 114 then 13 else if d == 116 then 9 else if d == 118 then 11 else d
  }

  /** Behind a backslash. */
  function EscapeTurn(text: seq<nat>, i: nat): Turn
  {
    if i >= |text| then Unterminated
    else
      var d := text[i];
      if d == NEWLINE then (if i + 1 >= |text| then Unterminated else Continued(i + 1))
      else if IsOctal(d) then OctalTurn(text, i)
      else if d == 120 then (if HexValue(At(text, i + 1)) < 0 then Illegal else HexTurn(text, i + 2, HexValue(At(text, i + 1))))
      else Char(Control(d), i + 1)
  }

  function ReadTurn(text: seq<nat>, i: nat, quote: nat): Turn
  {
    if i >= |text| then Unterminated
    else if text[i] == quote then Closed(i + 1)
    else if text[i] == NEWLINE then Unterminated
    else if text[i] == BACKSLASH then EscapeTurn(text, i + 1)
    else Char(text[i], i + 1)
  }

  lemma {:induction false} HexAdvances(text: seq<nat>, i: nat, n: nat)
    ensures HexTurn(text, i, n) == Illegal || (HexTurn(text, i, n).Char? && HexTurn(text, i, n).next >= i)
    decreases |text| - i
  {
    if i < |text| && HexValue(text[i]) >= 0 && n * 16 + HexValue(text[i]) <= MAXCHAR {
      HexAdvances(text, i + 1, n * 16 + HexValue(text[i]));
    }
  }

  lemma TurnAdvances(text: seq<nat>, i: nat, quote: nat)
    ensures match ReadTurn(text, i, quote)
            case Char(_, next) => i < |text| && next > i
            case Continued(next) => i < |text| && next > i
            case _ => true
  {
    if HexValue(At(text, i + 2)) >= 0 {
      HexAdvances(text, i + 3, HexValue(At(text, i + 2)));
    }
  }

  /** The bytes of the literal whose contents start at position i. */
  datatype Contents = Bytes(bytes: seq<nat>, next: nat) | OpenEnd | BadCharacter

  ghost function Read(text: seq<nat>, i: nat, quote: nat, acc: seq<nat>): Contents
    decreases |text| - i
  {
    TurnAdvances(text, i, quote);
    match ReadTurn(text, i, quote)
    case Char(c, next) => Read(text, next, quote, acc + [c])
    case Continued(next) => Read(text, next, quote, acc)
    case Closed(next) => Bytes(acc, next)
    case Unterminated => OpenEnd
    case Illegal => BadCharacter
  }

  // ---------------------------------------------------------------------------------
  // What the escapes stand for, in characters.

  /** The number that digits stand for, the last one counting least. */
  ghost function Value(digits: seq<nat>, base: nat): nat
  {
    if digits == [] then 0 else Value(digits[..|digits|-1], base) * base + digits[|digits|-1]
  }

  /** c is the character of a digit, in either case. */
  ghost predicate IsDigit(c: nat, d: nat)
  {
    if d < 10 then c == '0' as nat + d else c == 'A' as nat + (d - 10) || c == 'a' as nat + (d - 10)
  }

  /** The digits stand at position i, and no other one behind them. */
  ghost predicate DigitsAt(text: seq<nat>, i: nat, digits: seq<nat>, base: nat)
  {
    && base <= 16 && i + |digits| <= |text|
    && (forall k :: 0 <= k < |digits| ==> digits[k] < base && IsDigit(text[i + k], digits[k]))
    && (i + |digits| < |text| ==> NoDigit(text[i + |digits|], base))
  }

  ghost predicate NoDigit(c: nat, base: nat)
  {
    forall d: nat :: d < base ==> !IsDigit(c, d)
  }

  lemma DigitsRest(text: seq<nat>, i: nat, digits: seq<nat>, base: nat)
    requires DigitsAt(text, i, digits, base) && digits != []
    ensures IsDigit(text[i], digits[0]) && digits[0] < base && DigitsAt(text, i + 1, digits[1..], base)
  {
    hide IsDigit, NoDigit;
    assert IsDigit(text[i + 0], digits[0]);
    var rest := digits[1..];
    forall k | 0 <= k < |rest| ensures rest[k] < base && IsDigit(text[i + 1 + k], rest[k]) {
      var l := k + 1;
      assert IsDigit(text[i + l], digits[l]);
    }
  }

  lemma DigitValue(c: nat)
    ensures forall d: nat :: d < 16 ==> (IsDigit(c, d) <==> HexValue(c) == d)
    ensures HexValue(c) < 0 <==> NoDigit(c, 16)
  {
    if HexValue(c) >= 0 {
      assert IsDigit(c, HexValue(c));
    }
  }

  /** Working from the left, the digits so far are one number. */
  lemma {:induction false} ValueMerge(n: nat, digits: seq<nat>, base: nat)
    requires digits != []
    ensures Value([n] + digits, base) == Value([n * base + digits[0]] + digits[1..], base)
    decreases |digits|
  {
    var merged := n * base + digits[0];
    ValueOne(n, base);
    ValueOne(merged, base);
    if |digits| == 1 {
      assert ([n] + digits)[..1] == [n] && [merged] + digits[1..] == [merged];
    } else {
      var front := digits[..|digits|-1];
      ValueMerge(n, front, base);
      assert ([n] + digits)[..|digits|] == [n] + front;
      assert ([merged] + digits[1..])[..|digits|-1] == [merged] + front[1..];
    }
  }

  lemma ValueOne(n: nat, base: nat)
    ensures Value([n], base) == n
  {
    assert [n][..0] == [] && Value([], base) == 0;
  }

  lemma {:induction false} ValueBound(n: nat, digits: seq<nat>, base: nat)
    requires base > 0
    ensures n <= Value([n] + digits, base)
    decreases |digits|
  {
    if digits == [] {
      ValueOne(n, base);
      assert [n] + digits == [n];
    } else {
      var front := digits[..|digits|-1];
      ValueBound(n, front, base);
      assert ([n] + digits)[..|digits|] == [n] + front;
      Times(Value([n] + front, base), base);
    }
  }

  lemma Times(x: nat, y: nat)
    requires y > 0
    ensures x <= x * y
  {
  }

  lemma {:induction false} HexTurnIs(text: seq<nat>, i: nat, n: nat, digits: seq<nat>)
    requires DigitsAt(text, i, digits, 16) && n <= MAXCHAR
    ensures var number := Value([n] + digits, 16);
            HexTurn(text, i, n) == if number <= MAXCHAR then Char(number, i + |digits|) else Illegal
    decreases |digits|
  {
    hide HexValue, IsDigit, NoDigit, Value;
    if i < |text| { DigitValue(text[i]); }
    if digits == [] {
      ValueOne(n, 16);
      assert [n] + digits == [n];
    } else {
      DigitsRest(text, i, digits, 16);
      var merged := n * 16 + digits[0];
      ValueMerge(n, digits, 16);
      if merged <= MAXCHAR {
        HexTurnIs(text, i + 1, merged, digits[1..]);
      } else {
        ValueBound(merged, digits[1..], 16);
      }
    }
  }

  /** A backslash, an x and hexadecimal digits are the byte of that number, unless it is too large. */
  lemma HexReads(text: seq<nat>, i: nat, quote: nat, digits: seq<nat>)
    requires i + 2 < |text| && text[i] == BACKSLASH != quote && text[i+1] == 'x' as nat
    requires digits != [] && DigitsAt(text, i + 2, digits, 16)
    ensures ReadTurn(text, i, quote) == if Value(digits, 16) <= MAXCHAR then Char(Value(digits, 16), i + 2 + |digits|) else Illegal
  {
    hide HexValue, IsDigit, DigitsAt, OctalTurn;
    var first, rest := digits[0], digits[1..];
    DigitsRest(text, i + 2, digits, 16);
    DigitValue(text[i + 2]);
    HexTurnIs(text, i + 3, first, rest);
    assert [first] + rest == digits;
  }

  /** Without a digit behind the x, it is an error. */
  lemma HexNeedsDigit(text: seq<nat>, i: nat, quote: nat)
    requires i + 1 < |text| && text[i] == BACKSLASH != quote && text[i+1] == 'x' as nat
    requires i + 2 < |text| ==> NoDigit(text[i + 2], 16)
    ensures ReadTurn(text, i, quote) == Illegal
  {
    hide OctalTurn;
    if i + 2 < |text| { DigitValue(text[i + 2]); }
  }

  /** A backslash and up to three octal digits are the byte of that number, unless it is too large. */
  lemma OctalReads(text: seq<nat>, i: nat, quote: nat, digits: seq<nat>)
    requires i < |text| && text[i] == BACKSLASH != quote && 1 <= |digits| <= 3 && i + 1 + |digits| <= |text|
    requires forall k :: 0 <= k < |digits| ==> digits[k] < 8 && text[i + 1 + k] == '0' as nat + digits[k]
    requires |digits| < 3 && i + 1 + |digits| < |text| ==> !('0' as nat <= text[i + 1 + |digits|] <= '7' as nat)
    ensures ReadTurn(text, i, quote) == if Value(digits, 8) <= MAXCHAR then Char(Value(digits, 8), i + 1 + |digits|) else Illegal
  {
    ValueOne(digits[0], 8);
    assert text[i + 1 + 0] == '0' as nat + digits[0];
    if |digits| == 1 {
      assert digits == [digits[0]];
    } else {
      assert text[i + 1 + 1] == '0' as nat + digits[1];
      assert digits[..2][..1] == [digits[0]];
      if |digits| == 2 {
        assert digits[..2] == digits;
      } else {
        assert text[i + 1 + 2] == '0' as nat + digits[2];
      }
    }
  }

  /** Behind a backslash, seven letters are control characters, a newline goes on with the next line, and any other character
      but an x or an octal digit stands for itself. */
  lemma LettersRead(text: seq<nat>, i: nat, quote: nat)
    requires i + 1 < |text| && text[i] == BACKSLASH != quote
    ensures forall k :: 0 <= k < 7 && text[i+1] == "abfnrtv"[k] as nat ==>
              ReadTurn(text, i, quote) == Char([7, 8, 12, 10, 13, 9, 11][k], i + 2)
    ensures text[i+1] == 10 ==> ReadTurn(text, i, quote) == if i + 2 < |text| then Continued(i + 2) else Unterminated
    ensures && text[i+1] != 10 && text[i+1] != 'x' as nat && !('0' as nat <= text[i+1] <= '7' as nat)
            && (forall k :: 0 <= k < 7 ==> text[i+1] != "abfnrtv"[k] as nat)
            ==> ReadTurn(text, i, quote) == Char(text[i+1], i + 2)
  {
    var letters := "abfnrtv";
    assert letters[0] == 'a' && letters[1] == 'b' && letters[2] == 'f' && letters[3] == 'n' && letters[4] == 'r'
        && letters[5] == 't' && letters[6] == 'v';
  }

  /** The quote ends the literal, a newline before it is an error, and any other character but a backslash stands for itself. */
  lemma PlainReads(text: seq<nat>, i: nat, quote: nat)
    requires i < |text| && text[i] != BACKSLASH
    ensures ReadTurn(text, i, quote) ==
              if text[i] == quote then Closed(i + 1) else if text[i] == '\n' as nat then Unterminated else Char(text[i], i + 1)
  {
  }

  // ---------------------------------------------------------------------------------
  // The canonical name.

  predicate IsPrint(c: nat)
  {
    32 <= c <= 126
  }

  function Letter(c: nat): (d: nat)
  {
    if c == 7 then 97 else if c == 8 then 98 else if c == 12 then 102 else if c == 10 then 110
    else if c == 13 then 114 else if c == 9 then 116 else if c == 11 then 118 else 0
  }

  function Escaped(quote: nat, c: nat): (name: seq<nat>)
  {
    if c == BACKSLASH || c == quote then [BACKSLASH, c]
    else if IsPrint(c) then [c]
    else if Letter(c) != 0 then [BACKSLASH, Letter(c)]
    else [BACKSLASH, c / 64 % 8 + 48, c / 8 % 8 + 48, c % 8 + 48]
  }

  function Quote(n: nat): nat
  {
    if n == 1 then 39 else 34
  }

  ghost function Body(quote: nat, bytes: seq<nat>): seq<nat>
  {
    if bytes == [] then [] else Escaped(quote, bytes[0]) + Body(quote, bytes[1..])
  }

  ghost function Canonical(bytes: seq<nat>): seq<nat>
  {
    [Quote(|bytes|)] + Body(Quote(|bytes|), bytes) + [Quote(|bytes|)]
  }

  /** The name of one byte stands in single quotes, any other in double ones. */
  lemma CanonicalQuotes(bytes: seq<nat>)
    ensures var name, quote := Canonical(bytes), if |bytes| == 1 then '\'' as nat else '"' as nat;
            |name| >= 2 && name[0] == quote && name[|name|-1] == quote && name == [quote] + Body(quote, bytes) + [quote]
  {
  }

  /** Printable characters stand for themselves, except for the quote and the backslash; seven bytes have letters, and the
      others are three octal digits. */
  lemma EscapedIs(quote: nat, c: nat)
    requires c <= MAXCHAR
    ensures c == BACKSLASH || c == quote ==> Escaped(quote, c) == [BACKSLASH, c]
    ensures ' ' as nat <= c <= '~' as nat && c != BACKSLASH && c != quote ==> Escaped(quote, c) == [c]
    ensures forall k :: 0 <= k < 7 && c == [7, 8, 12, 10, 13, 9, 11][k] && c != quote ==>
              Escaped(quote, c) == [BACKSLASH, "abfnrtv"[k] as nat]
    ensures && !(' ' as nat <= c <= '~' as nat) && c != quote
            && (forall k :: 0 <= k < 7 ==> c != [7, 8, 12, 10, 13, 9, 11][k])
            ==> exists a: nat, b: nat, d: nat :: OctalName(quote, c, a, b, d)
  {
    var bytes, letters := [7, 8, 12, 10, 13, 9, 11], "abfnrtv";
    assert bytes[0] == 7 && bytes[1] == 8 && bytes[2] == 12 && bytes[3] == 10 && bytes[4] == 13 && bytes[5] == 9 && bytes[6] == 11;
    assert letters[0] == 'a' && letters[1] == 'b' && letters[2] == 'f' && letters[3] == 'n' && letters[4] == 'r'
        && letters[5] == 't' && letters[6] == 'v';
    OctalDigits(c);
    if !IsPrint(c) && Letter(c) == 0 && c != quote {
      assert OctalName(quote, c, c / 64 % 8, c / 8 % 8, c % 8);
    }
  }

  ghost predicate OctalName(quote: nat, c: nat, a: nat, b: nat, d: nat)
  {
    && a < 8 && b < 8 && d < 8 && c == a * 64 + b * 8 + d
    && Escaped(quote, c) == [BACKSLASH, '0' as nat + a, '0' as nat + b, '0' as nat + d]
  }

  ghost predicate AreBytes(s: seq<nat>)
  {
    forall k :: 0 <= k < |s| ==> s[k] <= MAXCHAR
  }

  /** Whatever follows it, an escaped byte reads as that byte. */
  lemma EscapedReads(text: seq<nat>, i: nat, quote: nat, c: nat)
    requires c <= MAXCHAR && quote in {34, 39} && i + |Escaped(quote, c)| <= |text|
    requires text[i..i + |Escaped(quote, c)|] == Escaped(quote, c)
    ensures ReadTurn(text, i, quote) == Char(c, i + |Escaped(quote, c)|)
  {
    hide OctalTurn, HexTurn, HexValue;
    var e := Escaped(quote, c);
    assert text[i] == e[0];
    if |e| > 1 { assert text[i + 1] == e[1]; }
    if |e| > 2 {
      assert text[i + 2] == e[2] && text[i + 3] == e[3];
      ThreeDigits(text, i + 1, c);
    }
  }

  /** Three octal digits. */
  lemma ThreeDigits(text: seq<nat>, i: nat, c: nat)
    requires c <= MAXCHAR && i + 3 <= |text|
    requires text[i] == c / 64 % 8 + 48 && text[i+1] == c / 8 % 8 + 48 && text[i+2] == c % 8 + 48
    ensures IsOctal(At(text, i)) && OctalTurn(text, i) == Char(c, i + 3)
  {
    OctalDigits(c);
    OctalNumber(text, i, c / 64 % 8, c / 8 % 8, c % 8);
  }

  lemma OctalDigits(c: nat)
    requires c <= MAXCHAR
    ensures c == c / 64 % 8 * 64 + c / 8 % 8 * 8 + c % 8
  {
    assert c / 8 / 8 == c / 64 < 8;
  }

  lemma OctalNumber(text: seq<nat>, i: nat, a: nat, b: nat, d: nat)
    requires a < 8 && b < 8 && d < 8 && a * 64 + b * 8 + d <= MAXCHAR && i + 3 <= |text|
    requires text[i] == a + 48 && text[i+1] == b + 48 && text[i+2] == d + 48
    ensures IsOctal(At(text, i)) && OctalTurn(text, i) == Char(a * 64 + b * 8 + d, i + 3)
  {
  }

  lemma ClosingQuote(text: seq<nat>, i: nat, quote: nat)
    requires i < |text| && text[i] == quote
    ensures ReadTurn(text, i, quote) == Closed(i + 1)
  {
  }

  lemma {:induction false} BodyReads(text: seq<nat>, i: nat, quote: nat, bytes: seq<nat>, acc: seq<nat>)
    requires AreBytes(bytes) && quote in {34, 39} && i + |Body(quote, bytes)| < |text|
    requires text[i..i + |Body(quote, bytes)|] == Body(quote, bytes) && text[i + |Body(quote, bytes)|] == quote
    ensures Read(text, i, quote, acc) == Bytes(acc + bytes, i + |Body(quote, bytes)| + 1)
    decreases bytes
  {
    hide Escaped, ReadTurn;
    if bytes == [] {
      ClosingQuote(text, i, quote);
      assert acc + bytes == acc;
    } else {
      var e, rest := Escaped(quote, bytes[0]), Body(quote, bytes[1..]);
      assert text[i..i + |e|] == (e + rest)[..|e|];
      EscapedReads(text, i, quote, bytes[0]);
      assert text[i + |e|..i + |e| + |rest|] == (e + rest)[|e|..];
      BodyReads(text, i + |e|, quote, bytes[1..], acc + [bytes[0]]);
      assert acc + [bytes[0]] + bytes[1..] == acc + bytes;
    }
  }

  /** Reading the canonical name of a literal gives back the literal, whatever follows. */
  lemma RoundTrip(bytes: seq<nat>, rest: seq<nat>)
    requires AreBytes(bytes)
    ensures var name := Canonical(bytes);
            Read(name + rest, 1, name[0], []) == Bytes(bytes, |name|)
  {
    var quote := Quote(|bytes|);
    var name, body := Canonical(bytes), Body(quote, bytes);
    var text := name + rest;
    assert text[1..1 + |body|] == body;
    BodyReads(text, 1, quote, bytes, []);
    assert [] + bytes == bytes;
  }

  /** Two literals get the same name exactly if they are the same. */
  lemma NamesAreExact(a: seq<nat>, b: seq<nat>)
    requires AreBytes(a) && AreBytes(b)
    ensures Canonical(a) == Canonical(b) <==> a == b
  {
    RoundTrip(a, []);
    RoundTrip(b, []);
  }

  // ---------------------------------------------------------------------------------

  datatype Result = Name(bytes: seq<nat>, name: seq<nat>, cptr: nat) | UnterminatedString | IllegalCharacter

  /** The number behind a backslash, digit by digit. */
  method ReadHex(text: seq<nat>, start: nat, first: nat) returns (turn: Turn)
    requires first < 16
    ensures turn == HexTurn(text, start, first)
  {
    var cptr, n: nat := start, first;
    while true
      invariant HexTurn(text, start, first) == HexTurn(text, cptr, n)
      decreases |text| - cptr
    {
      if cptr >= |text| {
        return Char(n, cptr);
      }
      var i := HexValue(text[cptr]);
      if i < 0 {
        return Char(n, cptr);
      }
      cptr := cptr + 1;
      n := n * 16 + i;
      if n > MAXCHAR {
        return Illegal;
      }
    }
  }

  /** jay/reader.c, get_literal: the contents, and the name under which the symbol is looked up. */
  method GetLiteral(text: seq<nat>, start: nat) returns (result: Result)
    requires start < |text| && text[start] in {34, 39}
    ensures match Read(text, start + 1, text[start], [])
            case Bytes(bytes, next) => result == Name(bytes, Canonical(bytes), next)
            case OpenEnd => result == UnterminatedString
            case BadCharacter => result == IllegalCharacter
  {
    hide ReadTurn;
    var quote := text[start];
    var cptr, cache := start + 1, [];
    while true
      invariant Read(text, start + 1, quote, []) == Read(text, cptr, quote, cache)
      decreases |text| - cptr
    {
      TurnAdvances(text, cptr, quote);
      var turn := ReadOne(text, cptr, quote);
      match turn
      case Char(c, next) =>
        cache := cache + [c];
        cptr := next;
      case Continued(next) =>
        cptr := next;
      case Closed(next) =>
        cptr := next;
        break;
      case Unterminated =>
        return UnterminatedString;
      case Illegal =>
        return IllegalCharacter;
    }
    var name := MakeName(cache);
    result := Name(cache, name, cptr);
  }

  /** One round of the reading loop of get_literal. */
  method ReadOne(text: seq<nat>, cptr: nat, quote: nat) returns (turn: Turn)
    ensures turn == ReadTurn(text, cptr, quote)
  {
    if cptr >= |text| {
      return Unterminated;
    }
    var c, p := text[cptr], cptr + 1;
    if c == quote {
      return Closed(p);
    }
    if c == NEWLINE {
      return Unterminated;
    }
    if c != BACKSLASH {
      return Char(c, p);
    }
    if p >= |text| {
      return Unterminated;
    }
    c, p := text[p], p + 1;
    if c == NEWLINE {
      turn := if p >= |text| then Unterminated else Continued(p);
    } else if IsOctal(c) {
      var n := c - 48;
      c := At(text, p);
      if IsOctal(c) {
        n := n * 8 + (c - 48);
        p := p + 1;
        c := At(text, p);
        if IsOctal(c) {
          n := n * 8 + (c - 48);
          p := p + 1;
        }
      }
      turn := if n > MAXCHAR then Illegal else Char(n, p);
    } else if c == 120 {
      var n := HexValue(At(text, p));
      if n < 0 {
        return Illegal;
      }
      turn := ReadHex(text, p + 1, n);
    } else {
      turn := Char(Control(c), p);
    }
  }

  /** The second half: quote the bytes and escape what would not read back. */
  method MakeName(s: seq<nat>) returns (cache: seq<nat>)
    ensures cache == Canonical(s)
  {
    hide Escaped;
    var n := |s|;
    cache := [Quote(n)];
    var i := 0;
    assert s[0..] == s;
    while i < n
      invariant i <= n && cache + Body(Quote(n), s[i..]) == [Quote(n)] + Body(Quote(n), s)
    {
      assert s[i..][0] == s[i] && s[i..][1..] == s[i + 1..];
      assert cache + (Escaped(Quote(n), s[i]) + Body(Quote(n), s[i + 1..])) == cache + Escaped(Quote(n), s[i]) + Body(Quote(n), s[i + 1..]);
      cache := cache + Escaped(Quote(n), s[i]);
      i := i + 1;
    }
    cache := cache + [Quote(n)];
  }
}
