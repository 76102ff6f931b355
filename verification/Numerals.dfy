/** Decimal numerals and the numbers they denote, against what the field parser makes of them. */
module Numerals {
  import opened Options
  import opened NumericField

  /** A numeral by its parts: digits with an optional point among them, then perhaps a power of ten; spaces and
      a sign may come first, and spaces last. */
  datatype Numeral = Numeral(
    before: Text, sign: Text, whole: Text, point: bool, fraction: Text, power: Option<Power>, after: Text)

  datatype Power = Power(mark: char, sign: Text, digits: Text)

  predicate AllDigits(s: Text) {
    forall i :: 0 <= i < |s| ==> IsDigit(s[i])
  }

  predicate IsSign(s: Text) {
    s in {[], ['+'], ['-']}
  }

  predicate Proper(n: Numeral) {
    && AllSpace(n.before) && AllSpace(n.after) && IsSign(n.sign)
    && AllDigits(n.whole) && AllDigits(n.fraction) && n.whole + n.fraction != []
    && (!n.point ==> n.fraction == [])
    && ProperPower(n.power)
  }

  predicate ProperPower(power: Option<Power>) {
    power.Some? ==>
      && power.value.mark in {'e', 'E'} && IsSign(power.value.sign)
      && AllDigits(power.value.digits) && power.value.digits != []
  }

  // ---------------------------------------------------------------- what a numeral denotes

  /** Positional value of a string of digits. */
  function DigitsValue(digits: Text): nat
    requires AllDigits(digits)
  {
    if digits == [] then 0
    else 10 * DigitsValue(digits[..|digits| - 1]) + (digits[|digits| - 1] as int - '0' as int)
  }

  /** The size of the written power of ten, and the power itself. */
  function PowerSize(n: Numeral): nat
    requires Proper(n)
  {
    if n.power.None? then 0 else DigitsValue(n.power.value.digits)
  }

  function Signed10(n: Numeral, size: nat): int {
    if n.power.Some? && n.power.value.sign == ['-'] then -(size as int) else size
  }

  /** The exact decimal a numeral denotes: its digits, ten to the written power for every one of them, and one
      tenth for every digit behind the point. */
  function Denoted(n: Numeral): Decimal
    requires Proper(n)
  {
    Decimal(n.sign == ['-'], DigitsValue(n.whole + n.fraction), Signed10(n, PowerSize(n)) - |n.fraction|)
  }

  function Pow10(k: int): real
    decreases if k >= 0 then k else -k
  {
    if k == 0 then 1.0 else if k > 0 then 10.0 * Pow10(k - 1) else Pow10(k + 1) / 10.0
  }

  /** The number that a decimal stands for. */
  function Number(d: Decimal): real {
    (if d.negative then -1.0 else 1.0) * d.mantissa as real * Pow10(d.exponent)
  }

  function PrintPower(power: Option<Power>): Text {
    if power.None? then [] else [power.value.mark] + power.value.sign + power.value.digits
  }

  /** The numeral from its first digit or point on. */
  function PrintBody(n: Numeral): Text {
    n.whole + ((if n.point then ['.'] else []) + (n.fraction + (PrintPower(n.power) + n.after)))
  }

  function Print(n: Numeral): Text {
    n.before + (n.sign + PrintBody(n))
  }

  // ---------------------------------------------------------------- digits

  lemma DigitsMore(digits: Text, d: char)
    requires AllDigits(digits) && IsDigit(d)
    ensures AllDigits(digits + [d])
    ensures DigitsValue(digits + [d]) == 10 * DigitsValue(digits) + (d as int - '0' as int)
  {
    assert (digits + [d])[..|digits|] == digits;
  }

  /** The mantissa scan runs through a string of digits. */
  lemma {:induction false} ScanRun(seen: Text, run: Text, rest: Text, fractional: nat, decimal: bool, any: bool)
    requires AllDigits(seen) && AllDigits(run)
    ensures AllDigits(seen + run)
    ensures ScanDigits(run + rest, DigitsValue(seen), fractional, decimal, any) ==
            ScanDigits(rest, DigitsValue(seen + run), if decimal then fractional + |run| else fractional, decimal,
                       any || run != [])
    decreases |run|
  {
    if run == [] {
      assert run + rest == rest && seen + run == seen;
    } else {
      DigitsMore(seen, run[0]);
      ScanRun(seen + [run[0]], run[1..], rest, if decimal then fractional + 1 else fractional, decimal, true);
      assert (run + rest)[1..] == run[1..] + rest;
      assert (seen + [run[0]]) + run[1..] == seen + run;
    }
  }

  /** The exponent scan saturates. */
  lemma {:induction false} ExponentRun(seen: Text, run: Text, rest: Text, any: bool)
    requires AllDigits(seen) && AllDigits(run)
    ensures AllDigits(seen + run)
    ensures ScanExponent(run + rest, AtMost(DigitsValue(seen)), any) ==
            ScanExponent(rest, AtMost(DigitsValue(seen + run)), any || run != [])
    decreases |run|
  {
    if run == [] {
      assert run + rest == rest && seen + run == seen;
    } else {
      DigitsMore(seen, run[0]);
      ExponentRun(seen + [run[0]], run[1..], rest, true);
      assert (run + rest)[1..] == run[1..] + rest;
      assert (seen + [run[0]]) + run[1..] == seen + run;
    }
  }

  function AtMost(size: nat): nat {
    if size < 1000 then size else 1000
  }

  /** What may follow the digits of a numeral: its end, or something that is neither digit nor point. */
  predicate Ends(rest: Text) {
    rest == [] || (!IsDigit(rest[0]) && rest[0] != '.')
  }

  lemma ScanStops(rest: Text, mantissa: nat, fractional: nat, decimal: bool, any: bool)
    requires Ends(rest)
    ensures ScanDigits(rest, mantissa, fractional, decimal, any) == Digits(mantissa, fractional, any, rest)
  {
  }

  lemma ScanMantissa(n: Numeral, rest: Text)
    requires Proper(n) && Ends(rest)
    ensures ScanDigits(n.whole + ((if n.point then ['.'] else []) + (n.fraction + rest)), 0, 0, false, false) ==
            Digits(DigitsValue(n.whole + n.fraction), |n.fraction|, true, rest)
  {
    hide ScanDigits;
    var tail := n.fraction + rest;
    var middle := (if n.point then ['.'] else []) + tail;
    assert [] + n.whole == n.whole;
    ScanRun([], n.whole, middle, 0, false, false);
    if n.point {
      PointOnce(tail, DigitsValue(n.whole), n.whole != []);
      ScanRun(n.whole, n.fraction, rest, 0, true, n.whole != []);
    } else {
      assert n.fraction == [] && middle == rest && n.whole + n.fraction == n.whole;
    }
    ScanStops(rest, DigitsValue(n.whole + n.fraction), |n.fraction|, n.point, true);
  }

  lemma PointOnce(tail: Text, mantissa: nat, any: bool)
    ensures ScanDigits(['.'] + tail, mantissa, 0, false, any) == ScanDigits(tail, mantissa, 0, true, any)
  {
    assert (['.'] + tail)[1..] == tail;
  }

  // ---------------------------------------------------------------- spaces and signs

  lemma {:induction false} DropBefore(spaces: Text, rest: Text)
    requires AllSpace(spaces) && (rest == [] || !IsSpace(rest[0]))
    ensures DropSpace(spaces + rest) == rest
  {
    if spaces == [] {
      assert spaces + rest == rest;
    } else {
      DropBefore(spaces[1..], rest);
      assert (spaces + rest)[1..] == spaces[1..] + rest;
    }
  }

  lemma SignOff(sign: Text, rest: Text)
    requires IsSign(sign) && rest != [] && !Signed(rest)
    ensures Signed(sign + rest) <==> sign != []
    ensures AfterSign(sign + rest) == rest
    ensures (Signed(sign + rest) && (sign + rest)[0] == '-') <==> sign == ['-']
  {
    if sign == [] {
      assert sign + rest == rest;
    } else {
      assert (sign + rest)[1..] == rest;
    }
  }

  // ---------------------------------------------------------------- the parser on numerals

  /** What the parser makes of a numeral: the written power saturates at a thousand, and the exponent that
      results must lie within forty-five. */
  function Made(n: Numeral): Option<Decimal>
    requires Proper(n)
  {
    var exponent := Signed10(n, AtMost(PowerSize(n))) - |n.fraction|;
    if -45 <= exponent <= 45 then Some(Denoted(n).(exponent := exponent)) else None
  }

  lemma UnsignedNumeral(n: Numeral, negative: bool)
    requires Proper(n)
    ensures ParseUnsigned(negative, PrintBody(n)) ==
            match Made(n) case None => None case Some(d) => Some(d.(negative := negative))
  {
    hide ScanDigits, ScanExponent, DropSpace, DigitsValue, AllDigits, IsDigit, IsSpace, AllSpace, Signed, AfterSign,
      PrintPower, ParseUnsigned, Finish;
    var rest := PrintPower(n.power) + n.after;
    RestEnds(n);
    ScanMantissa(n, rest);
    var digits := ScanDigits(PrintBody(n), 0, 0, false, false);
    if n.power.None? {
      assert rest == n.after by { NoPowerPrinted(n.power); }
      Unpowered(negative, PrintBody(n), n.after);
    } else {
      Powered(negative, PrintBody(n), n.power.value, n.after);
    }
    FinishIs(negative, digits, Signed10(n, AtMost(PowerSize(n))), n.after);
  }

  lemma NoPowerPrinted(power: Option<Power>)
    ensures power.None? ==> PrintPower(power) == []
  {
  }

  lemma FinishIs(negative: bool, digits: Digits, exponent: int, after: Text)
    requires digits.any && AllSpace(after)
    ensures Finish(negative, digits, exponent, after) ==
      if -45 <= exponent - digits.fractional <= 45
      then Some(Decimal(negative, digits.mantissa, exponent - digits.fractional)) else None
  {
    DropBefore(after, []);
    assert after + [] == after;
  }

  lemma Unpowered(negative: bool, s: Text, after: Text)
    requires ScanDigits(s, 0, 0, false, false).rest == after && (after == [] || (after[0] != 'e' && after[0] != 'E'))
    ensures ParseUnsigned(negative, s) == Finish(negative, ScanDigits(s, 0, 0, false, false), 0, after)
  {
    hide ScanDigits, Finish;
  }

  lemma Powered(negative: bool, s: Text, power: Power, after: Text)
    requires ProperPower(Some(power)) && AllSpace(after)
    requires ScanDigits(s, 0, 0, false, false).rest == PrintPower(Some(power)) + after
    ensures var size: int := AtMost(DigitsValue(power.digits));
      ParseUnsigned(negative, s) ==
      Finish(negative, ScanDigits(s, 0, 0, false, false), if power.sign == ['-'] then -size else size, after)
  {
    hide ScanDigits, ScanExponent, Finish, DigitsValue, AllDigits, IsDigit, AllSpace, Signed, AfterSign, AtMost;
    var rest := PrintPower(Some(power)) + after;
    assert rest[0] == power.mark && rest[1..] == power.sign + (power.digits + after);
    DigitsAreUnsigned(power.digits, after);
    SignOff(power.sign, power.digits + after);
    SignedFirst(power.sign + (power.digits + after));
    ExponentOf(power.digits, after);
  }

  lemma SignedFirst(s: Text)
    ensures Signed(s) ==> s != []
  {
  }

  lemma RestEnds(n: Numeral)
    requires Proper(n)
    ensures Ends(PrintPower(n.power) + n.after)
    ensures n.power.None? && n.after != [] ==> n.after[0] != 'e' && n.after[0] != 'E'
  {
    var rest := PrintPower(n.power) + n.after;
    if n.power.None? { assert rest == n.after; }
    else { assert rest[0] == n.power.value.mark; }
  }

  lemma DigitsAreUnsigned(digits: Text, rest: Text)
    requires AllDigits(digits) && digits != []
    ensures digits + rest != [] && !Signed(digits + rest)
  {
    assert (digits + rest)[0] == digits[0];
  }

  lemma ExponentOf(digits: Text, after: Text)
    requires AllDigits(digits) && digits != [] && AllSpace(after)
    ensures ScanExponent(digits + after, 0, false) == (AtMost(DigitsValue(digits)), true, after)
  {
    ExponentRun([], digits, after, false);
    assert [] + digits == digits;
  }

  /** Every numeral is read as `Made` says. */
  lemma ParsePrint(n: Numeral)
    requires Proper(n)
    ensures Parse(Print(n)) == Made(n)
  {
    hide ParseUnsigned, DropSpace, Made, PrintBody;
    var body := PrintBody(n);
    BodyStarts(n);
    DropBefore(n.before, n.sign + body);
    SignOff(n.sign, body);
    UnsignedNumeral(n, n.sign == ['-']);
    MadeSign(n);
  }

  lemma MadeSign(n: Numeral)
    requires Proper(n)
    ensures Made(n).Some? ==> Made(n).value.negative == (n.sign == ['-'])
  {
  }

  lemma BodyStarts(n: Numeral)
    requires Proper(n)
    ensures var body := PrintBody(n); body != [] && !Signed(body) && !IsSpace(body[0])
    ensures n.sign + PrintBody(n) != [] && !IsSpace((n.sign + PrintBody(n))[0])
  {
    var body := PrintBody(n);
    if n.whole != [] { assert body[0] == n.whole[0]; }
    else { assert n.point && body[0] == '.'; }
    if n.sign == [] { assert n.sign + body == body; }
  }

  // ---------------------------------------------------------------- nothing else is read

  /** The digits that a scan went through, with the point if it passed one. */
  lemma {:induction false} Scanned(s: Text, mantissa: nat, fractional: nat, decimal: bool, any: bool)
    returns (whole: Text, point: bool, fraction: Text)
    ensures var d := ScanDigits(s, mantissa, fractional, decimal, any);
      && s == whole + ((if point then ['.'] else []) + (fraction + d.rest))
      && AllDigits(whole) && AllDigits(fraction) && (!point ==> fraction == []) && (decimal ==> !point)
      && (d.any <==> any || whole + fraction != [])
    decreases |s|
  {
    hide ScanDigits, AllDigits, IsDigit;
    ScanStep(s, mantissa, fractional, decimal, any);
    if s != [] && IsDigit(s[0]) {
      var d := s[0] as int - '0' as int;
      var w, p, f := Scanned(s[1..], mantissa * 10 + d, if decimal then fractional + 1 else fractional, decimal, true);
      var rest := ScanDigits(s, mantissa, fractional, decimal, any).rest;
      whole, point, fraction := [s[0]] + w, p, f;
      DigitsCons(s[0], w);
      assert s == [s[0]] + s[1..];
      assert whole + ((if point then ['.'] else []) + (fraction + rest)) ==
             [s[0]] + (w + ((if p then ['.'] else []) + (f + rest)));
      assert whole + fraction != [] by { assert (whole + fraction)[0] == s[0]; }
    } else if s != [] && s[0] == '.' && !decimal {
      var w, p, f := Scanned(s[1..], mantissa, fractional, true, any);
      var rest := ScanDigits(s, mantissa, fractional, decimal, any).rest;
      whole, point, fraction := [], true, w;
      NoDigits();
      assert f == [] && w + f == w && [] + w == w;
      assert s[1..] == w + rest by { assert [] + ([] + rest) == rest; }
      assert s == ['.'] + s[1..] && [] + (['.'] + (w + rest)) == ['.'] + (w + rest);
    } else {
      whole, point, fraction := [], false, [];
      NoDigits();
      assert [] + ([] + ([] + s)) == s;
    }
  }

  lemma ScanStep(s: Text, mantissa: nat, fractional: nat, decimal: bool, any: bool)
    ensures s != [] && IsDigit(s[0]) ==>
      s[0] >= '0' &&
      ScanDigits(s, mantissa, fractional, decimal, any) ==
      ScanDigits(s[1..], mantissa * 10 + (s[0] as int - '0' as int), if decimal then fractional + 1 else fractional,
                 decimal, true)
    ensures s != [] && !IsDigit(s[0]) && s[0] == '.' && !decimal ==>
      ScanDigits(s, mantissa, fractional, decimal, any) == ScanDigits(s[1..], mantissa, fractional, true, any)
    ensures s == [] || (!IsDigit(s[0]) && !(s[0] == '.' && !decimal)) ==>
      ScanDigits(s, mantissa, fractional, decimal, any) == Digits(mantissa, fractional, any, s)
  {
  }

  lemma DigitsCons(c: char, digits: Text)
    requires IsDigit(c) && AllDigits(digits)
    ensures AllDigits([c] + digits)
  {
  }

  lemma NoDigits()
    ensures AllDigits([])
  {
  }

  lemma {:induction false} ScannedExponent(s: Text, exponent: nat, any: bool) returns (digits: Text)
    ensures s == digits + ScanExponent(s, exponent, any).2 && AllDigits(digits)
    ensures ScanExponent(s, exponent, any).1 <==> any || digits != []
    decreases |s|
  {
    hide ScanExponent, AllDigits, IsDigit;
    ExponentStep(s, exponent, any);
    if s != [] && IsDigit(s[0]) {
      var next := exponent * 10 + (s[0] as int - '0' as int);
      var d := ScannedExponent(s[1..], if next < 1000 then next else 1000, true);
      var rest := ScanExponent(s, exponent, any).2;
      digits := [s[0]] + d;
      DigitsCons(s[0], d);
      assert s == [s[0]] + s[1..];
      assert digits + rest == [s[0]] + (d + rest);
    } else {
      digits := [];
      NoDigits();
      assert [] + s == s;
    }
  }

  lemma ExponentStep(s: Text, exponent: nat, any: bool)
    ensures s != [] && IsDigit(s[0]) ==>
      s[0] >= '0' &&
      var next := exponent * 10 + (s[0] as int - '0' as int);
      ScanExponent(s, exponent, any) == ScanExponent(s[1..], if next < 1000 then next else 1000, true)
    ensures s == [] || !IsDigit(s[0]) ==> ScanExponent(s, exponent, any) == (exponent, any, s)
  {
  }

  lemma {:induction false} Dropped(s: Text) returns (spaces: Text)
    ensures s == spaces + DropSpace(s) && AllSpace(spaces)
  {
    hide DropSpace, IsSpace;
    DropStep(s);
    if s != [] && IsSpace(s[0]) {
      var more := Dropped(s[1..]);
      spaces := [s[0]] + more;
      assert s == [s[0]] + s[1..];
      assert spaces + DropSpace(s) == [s[0]] + (more + DropSpace(s));
    } else {
      spaces := [];
      assert [] + s == s;
    }
  }

  lemma DropStep(s: Text)
    ensures DropSpace(s) == if s != [] && IsSpace(s[0]) then DropSpace(s[1..]) else s
  {
  }

  lemma SignOf(s: Text) returns (sign: Text)
    ensures IsSign(sign) && s == sign + AfterSign(s)
  {
    sign := if Signed(s) then [s[0]] else [];
  }

  /** What follows the digits of an accepted field. */
  lemma DissectTail(negative: bool, u: Text) returns (power: Option<Power>, after: Text)
    requires ParseUnsigned(negative, u).Some?
    ensures ScanDigits(u, 0, 0, false, false).rest == PrintPower(power) + after
    ensures ProperPower(power) && AllSpace(after) && ScanDigits(u, 0, 0, false, false).any
  {
    hide ScanDigits, ScanExponent, DropSpace, Signed, AfterSign, IsSpace, AllSpace, IsDigit, AllDigits;
    var rest := ScanDigits(u, 0, 0, false, false).rest;
    if rest != [] && (rest[0] == 'e' || rest[0] == 'E') {
      var tail := rest[1..];
      var sign := SignOf(tail);
      var digits := ScannedExponent(AfterSign(tail), 0, false);
      after := Dropped(ScanExponent(AfterSign(tail), 0, false).2);
      power := Some(Power(rest[0], sign, digits));
      assert after + [] == after;
      assert PrintPower(power) + after == [rest[0]] + (sign + (digits + after));
      assert rest == [rest[0]] + tail;
    } else {
      after := Dropped(rest);
      power := None;
      assert after + [] == after && [] + after == after;
    }
  }

  /** Whatever the parser accepts is a numeral. */
  lemma Dissect(s: Text) returns (n: Numeral)
    requires Parse(s).Some?
    ensures Proper(n) && s == Print(n)
  {
    hide ScanDigits, DropSpace, AfterSign, AllSpace, AllDigits, ParseUnsigned, PrintPower;
    var before := Dropped(s);
    var t := DropSpace(s);
    var sign := SignOf(t);
    var whole, point, fraction := Scanned(AfterSign(t), 0, 0, false, false);
    var power, after := DissectTail(Signed(t) && t[0] == '-', AfterSign(t));
    n := Numeral(before, sign, whole, point, fraction, power, after);
  }

  /** Before rounding, exactly the numerals with a saturated exponent within forty-five are read. */
  lemma ReadIff(s: Text)
    ensures Parse(s).Some? <==> exists n :: Proper(n) && s == Print(n) && Made(n).Some?
  {
    hide Parse, Print, Proper, Made;
    if Parse(s).Some? {
      var n := Dissect(s);
      ParsePrint(n);
    }
    if exists n :: Proper(n) && s == Print(n) && Made(n).Some? {
      var n :| Proper(n) && s == Print(n) && Made(n).Some?;
      ParsePrint(n);
    }
  }

  /** What the parser returns for a numeral: the float of what was made of it. */
  lemma ValuePrint(round: Rounding, n: Numeral)
    requires Proper(n)
    ensures FieldValue(round, Print(n)) == match Made(n) case None => None case Some(d) => round(d)
  {
    hide Parse, Print, Made;
    ParsePrint(n);
  }

  /** What was made of the numeral has a finite float. */
  predicate Finite(round: Rounding, n: Numeral)
    requires Proper(n)
  {
    Made(n).Some? && round(Made(n).value).Some?
  }

  /** A field is accepted exactly when it is a numeral of which a decimal with a finite float is made. */
  lemma AcceptedIff(round: Rounding, s: Text)
    ensures FieldValue(round, s).Some? <==> exists n :: Proper(n) && s == Print(n) && Finite(round, n)
  {
    hide Parse, Print, Proper, Made;
    if FieldValue(round, s).Some? {
      var n := Dissect(s);
      ValuePrint(round, n);
      assert Finite(round, n);
    }
    if exists n :: Proper(n) && s == Print(n) && Finite(round, n) {
      var n :| Proper(n) && s == Print(n) && Finite(round, n);
      ValuePrint(round, n);
    }
  }

  // ---------------------------------------------------------------- when the number is the right one

  lemma {:induction false} Pow10Positive(k: int)
    ensures Pow10(k) > 0.0
    decreases if k >= 0 then k else -k
  {
    if k > 0 { Pow10Positive(k - 1); } else if k < 0 { Pow10Positive(k + 1); }
  }

  lemma Pow10Next(k: int)
    ensures Pow10(k + 1) == 10.0 * Pow10(k)
  {
  }

  lemma {:induction false} Pow10Grows(a: int, b: int)
    requires a < b
    ensures Pow10(a) < Pow10(b)
    decreases b - a
  {
    hide Pow10;
    Pow10Next(b - 1);
    Pow10Positive(b - 1);
    if a < b - 1 { Pow10Grows(a, b - 1); }
  }

  /** Two decimals that differ in the exponent only are the same number exactly when the mantissa is zero. */
  lemma SameNumberIff(d: Decimal, exponent: int)
    ensures Number(d) == Number(d.(exponent := exponent)) <==> d.exponent == exponent || d.mantissa == 0
  {
    hide Pow10;
    var a, b, m := Pow10(d.exponent), Pow10(exponent), d.mantissa as real;
    if d.exponent < exponent { Pow10Grows(d.exponent, exponent); }
    if exponent < d.exponent { Pow10Grows(exponent, d.exponent); }
    if a != b && m != 0.0 {
      assert m * a != m * b by { assert m * (a - b) != 0.0; }
    }
  }

  /** An accepted numeral is read as the number it denotes exactly when its written power is at most a thousand
      or it denotes zero. */
  lemma ReadRightIff(n: Numeral)
    requires Proper(n) && Parse(Print(n)).Some?
    ensures Number(Parse(Print(n)).value) == Number(Denoted(n)) <==>
      PowerSize(n) <= 1000 || DigitsValue(n.whole + n.fraction) == 0
  {
    hide Parse, Print, Number, DigitsValue;
    ParsePrint(n);
    SameNumberIff(Denoted(n), Made(n).value.exponent);
  }

  /** A numeral whose own exponent lies within forty-five is refused exactly when its power is above a thousand
      and the saturated one falls outside, which needs about as many fractional digits as the power; or when
      the float of what was made of it is not finite. */
  lemma RefusedIff(round: Rounding, n: Numeral)
    requires Proper(n) && -45 <= Denoted(n).exponent <= 45
    ensures FieldValue(round, Print(n)) == None <==>
      || (PowerSize(n) > 1000 && !(-45 <= Signed10(n, 1000) - |n.fraction| <= 45))
      || (Made(n).Some? && round(Made(n).value) == None)
    ensures PowerSize(n) <= 1000 ==> FieldValue(round, Print(n)) == round(Denoted(n))
  {
    hide Parse, Print, DigitsValue;
    ValuePrint(round, n);
  }

  // ---------------------------------------------------------------- the range of the floats

  /** Half a unit beyond the largest single-precision float: two to the 128, less two to the 103. */
  const OVERFLOW: real := 340282356779733661637539395458142568448.0

  /** Rounding to the nearest float is finite exactly below that. */
  ghost predicate RoundsToFloat(round: Rounding) {
    forall d :: round(d).Some? <==> -OVERFLOW < Number(d) < OVERFLOW
  }

  /** With such a rounding, a numeral is accepted exactly when its saturated exponent lies within forty-five and
      the number made of it is below the overflow. */
  lemma AcceptedFloatIff(round: Rounding, n: Numeral)
    requires Proper(n) && RoundsToFloat(round)
    ensures FieldValue(round, Print(n)).Some? <==>
      Made(n).Some? && -OVERFLOW < Number(Made(n).value) < OVERFLOW
  {
    hide Parse, Print, Made, Number;
    ValuePrint(round, n);
  }

  lemma {:induction false} Pow10Sum(a: nat, b: nat)
    ensures Pow10(a + b) == Pow10(a) * Pow10(b)
  {
    if a > 0 {
      Pow10Sum(a - 1, b);
      assert a + b - 1 == a - 1 + b;
    }
  }

  lemma Pow10Forty()
    ensures Pow10(40) == 10000000000000000000000000000000000000000.0
  {
    assert Pow10(5) == 100000.0;
    Pow10Sum(5, 5);
    Pow10Sum(10, 10);
    Pow10Sum(20, 20);
  }

  /** For example 1e40 is in range of the exponents, is read as denoted, and has no finite float. */
  lemma TooLarge(round: Rounding)
    requires RoundsToFloat(round)
    ensures var n := Numeral([], [], ['1'], false, [], Some(Power('e', [], "40")), []);
      && Proper(n) && Denoted(n) == Decimal(false, 1, 40) && Parse(Print(n)) == Some(Denoted(n))
      && FieldValue(round, Print(n)) == None
  {
    hide Parse, Print, Pow10;
    var n := Numeral([], [], ['1'], false, [], Some(Power('e', [], "40")), []);
    DigitsMore([], '4');
    DigitsMore("4", '0');
    DigitsMore([], '1');
    assert [] + ['4'] == "4" && "4" + ['0'] == "40" && [] + ['1'] == ['1'] && ['1'] + [] == ['1'];
    Pow10Forty();
    ParsePrint(n);
    AcceptedFloatIff(round, n);
  }

  // ---------------------------------------------------------------- a wrong number

  function Zeros(count: nat): (zeros: Text)
    ensures |zeros| == count && AllDigits(zeros)
  {
    seq(count, _ => '0')
  }

  lemma {:induction false} ZerosAreZero(count: nat)
    ensures DigitsValue(Zeros(count)) == 0
  {
    if count > 0 {
      ZerosAreZero(count - 1);
      assert Zeros(count)[..count - 1] == Zeros(count - 1);
    }
  }

  /** Zero point, 969 zeros, 1, times ten to the 5000: the field denotes ten to the 4030 and is read as ten to
      the 30. */
  lemma WrongNumber()
    ensures var n := Numeral([], [], ['0'], true, Zeros(969) + ['1'], Some(Power('e', [], "5000")), []);
      && Proper(n)
      && Denoted(n) == Decimal(false, 1, 4030)
      && Parse(Print(n)) == Some(Decimal(false, 1, 30))
      && Number(Parse(Print(n)).value) != Number(Denoted(n))
  {
    hide Parse, Print, Number;
    var n := Numeral([], [], ['0'], true, Zeros(969) + ['1'], Some(Power('e', [], "5000")), []);
    assert ['0'] + (Zeros(969) + ['1']) == Zeros(970) + ['1'] by {
      assert ['0'] + Zeros(969) == Zeros(970);
      assert ['0'] + (Zeros(969) + ['1']) == (['0'] + Zeros(969)) + ['1'];
    }
    ZerosAreZero(970);
    DigitsMore(Zeros(970), '1');
    FiveThousand();
    ParsePrint(n);
    ReadRightIff(n);
  }

  lemma FiveThousand()
    ensures AllDigits("5000") && DigitsValue("5000") == 5000
  {
    DigitsMore([], '5');
    assert [] + ['5'] == "5" && "5" + ['0'] == "50" && "50" + ['0'] == "500" && "500" + ['0'] == "5000";
    DigitsMore("5", '0');
    DigitsMore("50", '0');
    DigitsMore("500", '0');
  }
}
