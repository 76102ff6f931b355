/** The number syntax of numeric CSV fields, as exact decimals. */
module NumericField {
  import opened Options

  type Text = seq<char>

  /** An exact decimal before it is rounded to a float. */
  datatype Decimal = Decimal(negative: bool, mantissa: nat, exponent: int)

  predicate IsSpace(c: char) {
    c == ' ' || '\t' <= c <= '\r'
  }

  predicate IsDigit(c: char) {
    '0' <= c <= '9'
  }

  predicate AllSpace(s: Text) {
    forall i :: 0 <= i < |s| ==> IsSpace(s[i])
  }

  function DropSpace(s: Text): Text {
    if s != [] && IsSpace(s[0]) then DropSpace(s[1..]) else s
  }

  function DropTrailing(s: Text): Text {
    if s != [] && IsSpace(s[|s| - 1]) then DropTrailing(s[..|s| - 1]) else s
  }

  function Trim(s: Text): Text {
    DropTrailing(DropSpace(s))
  }

  datatype Digits = Digits(mantissa: nat, fractional: nat, any: bool, rest: Text)

  function ScanDigits(s: Text, mantissa: nat, fractional: nat, decimal: bool, any: bool): Digits {
    if s != [] && IsDigit(s[0]) then
      ScanDigits(s[1..], mantissa * 10 + (s[0] as int - '0' as int), if decimal then fractional + 1 else fractional,
                 decimal, true)
    else if s != [] && s[0] == '.' && !decimal then ScanDigits(s[1..], mantissa, fractional, true, any)
    else Digits(mantissa, fractional, any, s)
  }

  /** The exponent digits saturate at one thousand. */
  function ScanExponent(s: Text, exponent: nat, any: bool): (nat, bool, Text) {
    if s != [] && IsDigit(s[0]) then
      var next := exponent * 10 + (s[0] as int - '0' as int);
      ScanExponent(s[1..], if next < 1000 then next else 1000, true)
    else (exponent, any, s)
  }

  predicate Signed(s: Text) {
    s != [] && (s[0] == '+' || s[0] == '-')
  }

  function AfterSign(s: Text): Text {
    if Signed(s) then s[1..] else s
  }

  function Finish(negative: bool, digits: Digits, exponent: int, rest: Text): Option<Decimal> {
    if !digits.any || DropSpace(rest) != [] then None
    else if !(-45 <= exponent - digits.fractional <= 45) then None
    else Some(Decimal(negative, digits.mantissa, exponent - digits.fractional))
  }

  function ParseUnsigned(negative: bool, s: Text): Option<Decimal> {
    var digits := ScanDigits(s, 0, 0, false, false);
    if digits.rest != [] && (digits.rest[0] == 'e' || digits.rest[0] == 'E') then
      var tail := digits.rest[1..];
      var (exponent, any, rest) := ScanExponent(AfterSign(tail), 0, false);
      var e: int := exponent;
      if !any then None
      else Finish(negative, digits, if Signed(tail) && tail[0] == '-' then -e else e, rest)
    else Finish(negative, digits, 0, digits.rest)
  }

  function Parse(s: Text): Option<Decimal> {
    var t := DropSpace(s);
    ParseUnsigned(Signed(t) && t[0] == '-', AfterSign(t))
  }

  /** How decimals become floats: the nearest float, or none when that is not finite. */
  type Rounding = Decimal -> Option<real>

  /** The float of a field, if it is read as a decimal with a finite float. */
  function FieldValue(round: Rounding, s: Text): Option<real> {
    match Parse(s)
    case None => None
    case Some(decimal) => round(decimal)
  }

  method SkipSpace(s: Text) returns (cursor: Text)
    ensures cursor == DropSpace(s)
  {
    cursor := s;
    while cursor != [] && IsSpace(cursor[0])
      invariant DropSpace(cursor) == DropSpace(s)
      decreases |cursor|
    {
      cursor := cursor[1..];
    }
  }

  method ReadDigits(s: Text) returns (mantissa: nat, fractional: nat, any: bool, cursor: Text)
    ensures Digits(mantissa, fractional, any, cursor) == ScanDigits(s, 0, 0, false, false)
  {
    mantissa, fractional, any, cursor := 0, 0, false, s;
    var decimal := false;
    while cursor != []
      invariant ScanDigits(cursor, mantissa, fractional, decimal, any) == ScanDigits(s, 0, 0, false, false)
      decreases |cursor|
    {
      if IsDigit(cursor[0]) {
        any := true;
        mantissa := mantissa * 10 + (cursor[0] as int - '0' as int);
        if decimal { fractional := fractional + 1; }
      } else if cursor[0] == '.' && !decimal {
        decimal := true;
      } else {
        break;
      }
      cursor := cursor[1..];
    }
  }

  method ReadExponent(s: Text) returns (exponent: nat, digit: bool, cursor: Text)
    ensures (exponent, digit, cursor) == ScanExponent(s, 0, false)
  {
    exponent, digit, cursor := 0, false, s;
    while cursor != [] && IsDigit(cursor[0])
      invariant ScanExponent(cursor, exponent, digit) == ScanExponent(s, 0, false)
      decreases |cursor|
    {
      digit := true;
      exponent := exponent * 10 + (cursor[0] as int - '0' as int);
      if exponent > 1000 { exponent := 1000; }
      cursor := cursor[1..];
    }
  }

  /** The field parser, scanning a terminated string from left to right. */
  method ParseNumericField(round: Rounding, s: Text) returns (r: Option<real>)
    ensures r == FieldValue(round, s)
  {
    hide ScanDigits, ScanExponent, DropSpace;
    var cursor := SkipSpace(s);
    var negative := false;
    if cursor != [] && (cursor[0] == '+' || cursor[0] == '-') {
      negative := cursor[0] == '-';
      cursor := cursor[1..];
    }
    var mantissa, fractional, any;
    mantissa, fractional, any, cursor := ReadDigits(cursor);
    var exponent: int := 0;
    if cursor != [] && (cursor[0] == 'e' || cursor[0] == 'E') {
      cursor := cursor[1..];
      var exponentNegative := false;
      if cursor != [] && (cursor[0] == '+' || cursor[0] == '-') {
        exponentNegative := cursor[0] == '-';
        cursor := cursor[1..];
      }
      var magnitude, digit;
      magnitude, digit, cursor := ReadExponent(cursor);
      if !digit { return None; }
      exponent := magnitude;
      if exponentNegative { exponent := -exponent; }
    }
    cursor := SkipSpace(cursor);
    if !any || cursor != [] { return None; }
    exponent := exponent - fractional;
    if exponent < -45 || exponent > 45 { return None; }
    r := round(Decimal(negative, mantissa, exponent));
  }

  // ---------------------------------------------------------------- trimming does not matter

  lemma {:induction false} DropSpaceAppend(s: Text, spaces: Text)
    requires AllSpace(spaces)
    ensures DropSpace(s) == [] ==> DropSpace(s + spaces) == []
    ensures DropSpace(s) != [] ==> DropSpace(s + spaces) == DropSpace(s) + spaces
    decreases |s|, |spaces|
  {
    if s == [] {
      assert s + spaces == spaces;
      if spaces != [] { DropSpaceAppend([], spaces[1..]); assert [] + spaces[1..] == spaces[1..]; }
    } else if IsSpace(s[0]) {
      assert (s + spaces)[1..] == s[1..] + spaces;
      DropSpaceAppend(s[1..], spaces);
    }
  }

  lemma {:induction false} ScanDigitsAppend(s: Text, spaces: Text, mantissa: nat, fractional: nat,
                                           decimal: bool, any: bool)
    requires AllSpace(spaces)
    ensures var d := ScanDigits(s, mantissa, fractional, decimal, any);
      ScanDigits(s + spaces, mantissa, fractional, decimal, any) == d.(rest := d.rest + spaces)
    decreases |s|
  {
    if s != [] {
      assert (s + spaces)[1..] == s[1..] + spaces;
      if IsDigit(s[0]) {
        ScanDigitsAppend(s[1..], spaces, mantissa * 10 + (s[0] as int - '0' as int),
                         if decimal then fractional + 1 else fractional, decimal, true);
      } else if s[0] == '.' && !decimal {
        ScanDigitsAppend(s[1..], spaces, mantissa, fractional, true, any);
      }
    } else {
      assert s + spaces == spaces;
    }
  }

  lemma {:induction false} ScanExponentAppend(s: Text, spaces: Text, exponent: nat, any: bool)
    requires AllSpace(spaces)
    ensures var (e, a, rest) := ScanExponent(s, exponent, any);
      ScanExponent(s + spaces, exponent, any) == (e, a, rest + spaces)
    decreases |s|
  {
    if s != [] {
      assert (s + spaces)[1..] == s[1..] + spaces;
      if IsDigit(s[0]) {
        var next := exponent * 10 + (s[0] as int - '0' as int);
        ScanExponentAppend(s[1..], spaces, if next < 1000 then next else 1000, true);
      }
    } else {
      assert s + spaces == spaces;
    }
  }

  lemma AfterSignAppend(s: Text, spaces: Text)
    requires AllSpace(spaces)
    ensures Signed(s + spaces) == Signed(s) && AfterSign(s + spaces) == AfterSign(s) + spaces
    ensures Signed(s) ==> (s + spaces)[0] == s[0]
  {
    if s == [] { assert s + spaces == spaces; }
    else if Signed(s) { assert (s + spaces)[1..] == s[1..] + spaces; }
  }

  lemma ParseUnsignedAppend(negative: bool, s: Text, spaces: Text)
    requires AllSpace(spaces)
    ensures ParseUnsigned(negative, s + spaces) == ParseUnsigned(negative, s)
  {
    hide ScanDigits, ScanExponent, DropSpace, Signed, AfterSign;
    ScanDigitsAppend(s, spaces, 0, 0, false, false);
    var rest := ScanDigits(s, 0, 0, false, false).rest;
    if rest == [] {
      assert rest + spaces == spaces;
    } else if rest[0] == 'e' || rest[0] == 'E' {
      var tail := rest[1..];
      assert (rest + spaces)[1..] == tail + spaces;
      AfterSignAppend(tail, spaces);
      ScanExponentAppend(AfterSign(tail), spaces, 0, false);
      DropSpaceAppend(ScanExponent(AfterSign(tail), 0, false).2, spaces);
    }
    DropSpaceAppend(rest, spaces);
  }

  lemma ParseAppend(s: Text, spaces: Text)
    requires AllSpace(spaces)
    ensures Parse(s + spaces) == Parse(s)
  {
    DropSpaceAppend(s, spaces);
    var t := DropSpace(s);
    if t != [] {
      AfterSignAppend(t, spaces);
      ParseUnsignedAppend(Signed(t) && t[0] == '-', AfterSign(t), spaces);
    }
  }

  lemma {:induction false} DropSpaceTwice(s: Text)
    ensures DropSpace(DropSpace(s)) == DropSpace(s)
  {
    if s != [] && IsSpace(s[0]) { DropSpaceTwice(s[1..]); }
  }

  lemma {:induction false} DropTrailingSplits(s: Text)
    ensures |DropTrailing(s)| <= |s|
    ensures s == DropTrailing(s) + s[|DropTrailing(s)|..] && AllSpace(s[|DropTrailing(s)|..])
  {
    if s != [] && IsSpace(s[|s| - 1]) {
      var init := s[..|s| - 1];
      DropTrailingSplits(init);
      var k := |DropTrailing(s)|;
      assert s[k..] == init[k..] + [s[|s| - 1]];
    }
  }

  /** A field parses to the same number whether or not it was trimmed first. */
  lemma ParseTrimmed(s: Text)
    ensures Parse(Trim(s)) == Parse(s)
  {
    var t := DropSpace(s);
    DropSpaceTwice(s);
    DropTrailingSplits(t);
    ParseAppend(DropTrailing(t), t[|DropTrailing(t)|..]);
  }
}
