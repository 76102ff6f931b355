/** Rows of numeric CSV: the general splitter and the in-place tokenizer of the native stream. */
module CsvRow {
  import opened Options
  import opened NumericField

  // ---------------------------------------------------------------- the general splitter

  /** Fields of the rest of a line, given the field read so far; `None` when a quote stays open. */
  function SplitRest(s: Text, delimiter: char, field: Text, quoted: bool): Option<seq<Text>>
    decreases |s|
  {
    if s == [] then (if quoted then None else Some([Trim(field)]))
    else if s[0] == '"' then
      if quoted && |s| > 1 && s[1] == '"' then SplitRest(s[2..], delimiter, field + ['"'], quoted)
      else SplitRest(s[1..], delimiter, field, !quoted)
    else if s[0] == delimiter && !quoted then
      match SplitRest(s[1..], delimiter, [], quoted)
      case None => None
      case Some(rest) => Some([Trim(field)] + rest)
    else if s[0] != '\r' then SplitRest(s[1..], delimiter, field + [s[0]], quoted)
    else SplitRest(s[1..], delimiter, field, quoted)
  }

  /** The splitter's result; an open quote yields no fields at all. */
  function Fields(line: Text, delimiter: char): seq<Text> {
    match SplitRest(line, delimiter, [], false)
    case None => []
    case Some(fields) => fields
  }

  method SplitCsv(line: Text, delimiter: char) returns (fields: seq<Text>)
    ensures fields == Fields(line, delimiter)
  {
    fields := [];
    var field: Text := [];
    var quoted := false;
    var index := 0;
    ghost var whole := SplitRest(line, delimiter, [], false);
    assert line[0..] == line && forall rest: seq<Text> :: [] + rest == rest;
    while index < |line|
      invariant 0 <= index <= |line|
      invariant match SplitRest(line[index..], delimiter, field, quoted)
        case None => whole == None
        case Some(rest) => whole == Some(fields + rest)
      decreases |line| - index
    {
      var value := line[index];
      ghost var s := line[index..];
      assert s[1..] == line[index + 1..];
      if value == '"' {
        if quoted && index + 1 < |line| && line[index + 1] == '"' {
          assert s[2..] == line[index + 2..];
          field := field + ['"'];
          index := index + 1;
        } else {
          quoted := !quoted;
        }
      } else if value == delimiter && !quoted {
        ghost var before := fields;
        fields := fields + [Trim(field)];
        assert forall rest: seq<Text> :: before + ([Trim(field)] + rest) == fields + rest;
        field := [];
      } else if value != '\r' {
        field := field + [value];
      }
      index := index + 1;
    }
    assert line[index..] == [];
    if quoted { return []; }
    fields := fields + [Trim(field)];
  }

  // ---------------------------------------------------------------- plain pieces

  /** Position of the first delimiter, or the length. */
  function Find(s: Text, delimiter: char): (i: nat)
    ensures i <= |s| && (i < |s| ==> s[i] == delimiter) && forall j :: 0 <= j < i ==> s[j] != delimiter
  {
    if s == [] || s[0] == delimiter then 0 else 1 + Find(s[1..], delimiter)
  }

  /** The stretches between delimiters. */
  function Pieces(s: Text, delimiter: char): (p: seq<Text>)
    ensures |p| >= 1
    decreases |s|
  {
    var i := Find(s, delimiter);
    if i == |s| then [s] else [s[..i]] + Pieces(s[i + 1..], delimiter)
  }

  /** No NUL, and no carriage return but one ending. */
  predicate Clean(body: Text) {
    forall i :: 0 <= i < |body| ==> body[i] != '\r' && body[i] != '\0'
  }

  predicate Unquoted(body: Text) {
    forall i :: 0 <= i < |body| ==> body[i] != '"'
  }

  function Trimmed(pieces: seq<Text>): (t: seq<Text>)
    ensures |t| == |pieces| && forall i :: 0 <= i < |t| ==> t[i] == Trim(pieces[i])
  {
    seq(|pieces|, i requires 0 <= i < |pieces| => Trim(pieces[i]))
  }

  /** Without quotes the splitter cuts at every delimiter, and drops a carriage return at the end. */
  lemma {:induction false} SplitPlain(body: Text, ending: Text, delimiter: char, field: Text)
    requires Clean(body) && Unquoted(body) && ending in {[], ['\r']} && delimiter != '"' && delimiter != '\r'
    ensures var pieces := Pieces(body, delimiter);
      SplitRest(body + ending, delimiter, field, false) == Some([Trim(field + pieces[0])] + Trimmed(pieces[1..]))
    decreases |body|
  {
    hide Trim, Pieces, Find, Clean, Unquoted, SplitRest, Trimmed;
    CleanTail(body);
    PiecesCons(body, delimiter);
    if body == [] {
      assert body + ending == ending && field + [] == field;
      var none: seq<Text> := [[]];
      assert none[1..] == [] && [Trim(field)] + [] == [Trim(field)];
      EndOfRow(field, delimiter);
      ReturnAtEnd(field, delimiter);
    } else {
      assert body + ending == [body[0]] + (body[1..] + ending);
      var rest := Pieces(body[1..], delimiter);
      if body[0] == delimiter {
        NextField(body[1..] + ending, delimiter, field);
        SplitPlain(body[1..], ending, delimiter, []);
        assert field + [] == field && [] + rest[0] == rest[0];
        assert ([[]] + rest)[1..] == rest && ([[]] + rest)[0] == [];
        TrimmedFirst(rest);
      } else {
        PlainChar(body[0], body[1..] + ending, delimiter, field);
        SplitPlain(body[1..], ending, delimiter, field + [body[0]]);
        assert (field + [body[0]]) + rest[0] == field + ([body[0]] + rest[0]);
        assert ([[body[0]] + rest[0]] + rest[1..])[1..] == rest[1..];
      }
    }
  }

  lemma TrimmedFirst(pieces: seq<Text>)
    requires pieces != []
    ensures Trimmed(pieces) == [Trim(pieces[0])] + Trimmed(pieces[1..])
  {
    hide Trim;
  }

  lemma PlainChar(c: char, rest: Text, delimiter: char, field: Text)
    requires c != '"' && c != delimiter && c != '\r'
    ensures SplitRest([c] + rest, delimiter, field, false) == SplitRest(rest, delimiter, field + [c], false)
  {
    assert ([c] + rest)[1..] == rest;
  }

  lemma ReturnAtEnd(field: Text, delimiter: char)
    requires delimiter != '\r'
    ensures SplitRest(['\r'], delimiter, field, false) == Some([Trim(field)])
  {
    EndOfRow(field, delimiter);
    assert ['\r'][1..] == [];
  }

  lemma CleanTail(body: Text)
    requires Clean(body) && Unquoted(body)
    ensures body != [] ==> Clean(body[1..]) && Unquoted(body[1..]) && body[0] != '"' && body[0] != '\r'
  {
  }

  lemma PiecesCons(body: Text, delimiter: char)
    ensures body == [] ==> Pieces(body, delimiter) == [[]]
    ensures body != [] && body[0] == delimiter ==> Pieces(body, delimiter) == [[]] + Pieces(body[1..], delimiter)
    ensures body != [] && body[0] != delimiter ==>
      var rest := Pieces(body[1..], delimiter);
      Pieces(body, delimiter) == [[body[0]] + rest[0]] + rest[1..]
  {
    if body != [] && body[0] != delimiter {
      var i := Find(body[1..], delimiter);
      assert body == [body[0]] + body[1..];
      if i < |body[1..]| {
        assert body[..i + 1] == [body[0]] + body[1..][..i];
        assert body[i + 2..] == body[1..][i + 1..];
      }
    }
  }

  /** So its fields are the trimmed pieces. */
  lemma FieldsOfPlain(body: Text, ending: Text, delimiter: char)
    requires Clean(body) && Unquoted(body) && ending in {[], ['\r']} && delimiter != '"' && delimiter != '\r'
    ensures Fields(body + ending, delimiter) == Trimmed(Pieces(body, delimiter))
  {
    hide Trim, Pieces, SplitRest;
    SplitPlain(body, ending, delimiter, []);
    var pieces := Pieces(body, delimiter);
    assert [] + pieces[0] == pieces[0];
    assert Trimmed(pieces) == [Trim(pieces[0])] + Trimmed(pieces[1..]);
  }

  // ---------------------------------------------------------------- quoted rows

  /** A quoted field's contents: every quote is doubled. */
  function Doubled(field: Text): Text {
    if field == [] then []
    else (if field[0] == '"' then ['"', '"'] else [field[0]]) + Doubled(field[1..])
  }

  /** The row syntax of section 2 of RFC 4180, with every field quoted. */
  function QuotedRow(fields: seq<Text>, delimiter: char): Text
    requires fields != []
  {
    ['"'] + Doubled(fields[0]) + ['"'] + if |fields| == 1 then [] else [delimiter] + QuotedRow(fields[1..], delimiter)
  }

  lemma {:induction false} ReadQuoted(contents: Text, more: Text, delimiter: char, field: Text)
    requires '\r' !in contents && (more == [] || more[0] != '"')
    ensures SplitRest(Doubled(contents) + ['"'] + more, delimiter, field, true)
            == SplitRest(more, delimiter, field + contents, false)
    decreases |contents|
  {
    var s := Doubled(contents) + ['"'] + more;
    if contents == [] {
      assert s[1..] == more && field + contents == field;
    } else {
      var rest := Doubled(contents[1..]) + ['"'] + more;
      if contents[0] == '"' {
        assert s[2..] == rest;
      } else {
        assert s[1..] == rest;
      }
      ReadQuoted(contents[1..], more, delimiter, field + [contents[0]]);
      assert field + [contents[0]] + contents[1..] == field + contents;
    }
  }

  /** The splitter reads back the fields of any quoted row, delimiters and quotes inside them included; it
      only trims them. */
  lemma QuotedRoundTrip(fields: seq<Text>, delimiter: char)
    requires fields != [] && delimiter != '"' && delimiter != '\r'
    requires forall i :: 0 <= i < |fields| ==> '\r' !in fields[i]
    ensures Fields(QuotedRow(fields, delimiter), delimiter) == Trimmed(fields)
  {
    hide Trim, SplitRest, QuotedRow;
    QuotedRest(fields, delimiter);
  }

  lemma OpenQuote(rest: Text, delimiter: char)
    ensures SplitRest(['"'] + rest, delimiter, [], false) == SplitRest(rest, delimiter, [], true)
  {
    assert (['"'] + rest)[1..] == rest;
  }

  lemma NextField(rest: Text, delimiter: char, field: Text)
    requires delimiter != '"'
    ensures SplitRest([delimiter] + rest, delimiter, field, false) == match SplitRest(rest, delimiter, [], false)
      case None => None
      case Some(more) => Some([Trim(field)] + more)
  {
    assert ([delimiter] + rest)[1..] == rest;
  }

  lemma {:induction false} QuotedRest(fields: seq<Text>, delimiter: char)
    requires fields != [] && delimiter != '"' && delimiter != '\r'
    requires forall i :: 0 <= i < |fields| ==> '\r' !in fields[i]
    ensures SplitRest(QuotedRow(fields, delimiter), delimiter, [], false) == Some(Trimmed(fields))
    decreases |fields|
  {
    hide Trim, SplitRest, Doubled;
    var rest := if |fields| == 1 then [] else QuotedRow(fields[1..], delimiter);
    var more := if |fields| == 1 then [] else [delimiter] + rest;
    assert QuotedRow(fields, delimiter) == ['"'] + (Doubled(fields[0]) + ['"'] + more);
    OpenQuote(Doubled(fields[0]) + ['"'] + more, delimiter);
    ReadQuoted(fields[0], more, delimiter, []);
    assert [] + fields[0] == fields[0];
    if |fields| == 1 {
      EndOfRow(fields[0], delimiter);
      assert Trimmed(fields) == [Trim(fields[0])];
    } else {
      QuotedRest(fields[1..], delimiter);
      NextField(rest, delimiter, fields[0]);
      assert Trimmed(fields) == [Trim(fields[0])] + Trimmed(fields[1..]);
    }
  }

  lemma EndOfRow(field: Text, delimiter: char)
    ensures SplitRest([], delimiter, field, false) == Some([Trim(field)])
  {
  }

  // ---------------------------------------------------------------- the stream layout

  /** The column layout of a stream, and how a decimal rounds to a finite float. */
  datatype Layout = Layout(
    delimiter: char, columnToFeature: seq<int>, features: nat, target: nat,
    regression: bool, classes: seq<real>, round: Rounding)

  function Mapped(columns: seq<int>): nat {
    if columns == [] then 0 else Mapped(columns[..|columns| - 1]) + if columns[|columns| - 1] >= 0 then 1 else 0
  }

  /** What the stream's constructor establishes: every feature has its own column, the target has none. */
  predicate LegalLayout(l: Layout) {
    && l.target < |l.columnToFeature| && l.columnToFeature[l.target] < 0
    && Mapped(l.columnToFeature) == l.features
    && (forall c :: 0 <= c < |l.columnToFeature| ==> l.columnToFeature[c] < l.features)
    && (forall c, d :: 0 <= c < d < |l.columnToFeature| && l.columnToFeature[c] >= 0 ==>
          l.columnToFeature[c] != l.columnToFeature[d])
  }

  function Value(l: Layout, field: Text): Option<real> {
    FieldValue(l.round, field)
  }

  predicate Needed(l: Layout, c: nat)
    requires c < |l.columnToFeature|
  {
    l.columnToFeature[c] >= 0 || c == l.target
  }

  function IndexOf(classes: seq<real>, value: real): (i: nat)
    ensures i <= |classes| && (i < |classes| ==> classes[i] == value)
    ensures (forall j :: 0 <= j < i ==> classes[j] != value)
  {
    if classes == [] || classes[0] == value then 0 else 1 + IndexOf(classes[1..], value)
  }

  function TargetOf(l: Layout, value: real): Option<real> {
    if l.regression then Some(value)
    else if IndexOf(l.classes, value) == |l.classes| then None
    else Some(IndexOf(l.classes, value) as real)
  }

  predicate FieldFine(l: Layout, c: nat, field: Text)
    requires c < |l.columnToFeature|
  {
    Needed(l, c) ==> Value(l, field).Some? && (c == l.target ==> TargetOf(l, Value(l, field).value).Some?)
  }

  /** The reference: the row has the right width and every needed field is a number (of a known class). */
  predicate Accepts(l: Layout, fields: seq<Text>) {
    && |fields| == |l.columnToFeature|
    && forall c :: 0 <= c < |fields| ==> FieldFine(l, c, fields[c])
  }

  lemma FieldFineTrimmed(l: Layout, c: nat, field: Text)
    requires c < |l.columnToFeature|
    ensures FieldFine(l, c, Trim(field)) == FieldFine(l, c, field) && Value(l, Trim(field)) == Value(l, field)
  {
    ParseTrimmed(field);
  }

  // ---------------------------------------------------------------- the in-place tokenizer

  /** The terminated string at a position of the buffer. */
  function CString(buffer: seq<char>, start: nat): Text
    requires start <= |buffer|
    decreases |buffer| - start
  {
    if start == |buffer| || buffer[start] == '\0' then [] else [buffer[start]] + CString(buffer, start + 1)
  }

  lemma {:induction false} CStringIs(buffer: seq<char>, start: nat, end: nat)
    requires start <= end < |buffer| && buffer[end] == '\0'
    requires forall i :: start <= i < end ==> buffer[i] != '\0'
    ensures CString(buffer, start) == buffer[start..end]
    decreases end - start
  {
    if start < end {
      CStringIs(buffer, start + 1, end);
      assert buffer[start..end] == [buffer[start]] + buffer[start + 1..end];
    }
  }

  lemma {:induction false} FindIs(s: Text, delimiter: char, i: nat)
    requires i <= |s| && (forall j :: 0 <= j < i ==> s[j] != delimiter) && (i < |s| ==> s[i] == delimiter)
    ensures Find(s, delimiter) == i
  {
  }

  /** How far the tokenizer has come: `column` pieces are done and the rest starts at `cursor`. */
  ghost predicate At(body: Text, delimiter: char, column: nat, cursor: nat) {
    && cursor <= |body|
    && column < |Pieces(body, delimiter)|
    && Pieces(body, delimiter)[column..] == Pieces(body[cursor..], delimiter)
  }

  /** From one field to the next. */
  lemma NextPiece(body: Text, delimiter: char, column: nat, cursor: nat, stop: nat)
    requires At(body, delimiter, column, cursor)
    requires cursor <= stop <= |body| && (forall i :: cursor <= i < stop ==> body[i] != delimiter)
    requires stop < |body| ==> body[stop] == delimiter
    ensures Pieces(body, delimiter)[column] == body[cursor..stop]
    ensures stop < |body| ==> At(body, delimiter, column + 1, stop + 1)
    ensures stop == |body| ==> |Pieces(body, delimiter)| == column + 1
  {
    var rest := body[cursor..];
    FindIs(rest, delimiter, stop - cursor);
    var pieces := Pieces(body, delimiter);
    assert pieces[column..][0] == pieces[column];
    if stop < |body| {
      assert rest[stop - cursor + 1..] == body[stop + 1..];
      assert pieces[column..][1..] == pieces[column + 1..];
      assert rest[..stop - cursor] == body[cursor..stop];
    } else {
      assert rest == body[cursor..stop];
    }
  }

  /** The values of the columns read so far are in place. */
  ghost predicate Placed(l: Layout, pieces: seq<Text>, n: nat, x: array<real>)
    requires n <= |l.columnToFeature| && n <= |pieces| && x.Length == l.features && LegalLayout(l)
    reads x
  {
    forall c :: 0 <= c < n && l.columnToFeature[c] >= 0 ==>
      Value(l, pieces[c]).Some? && x[l.columnToFeature[c]] == Value(l, pieces[c]).value
  }

  /** The effect of one field: nothing for an unmapped column, otherwise the value at its feature, and the
      target's number. `None` refuses the row. */
  method ReadField(l: Layout, c: nat, field: Text, x: array<real>, y: Option<real>, ghost pieces: seq<Text>)
    returns (r: Option<Option<real>>)
    requires LegalLayout(l) && c < |l.columnToFeature| && x.Length == l.features
    requires c < |pieces| && field == pieces[c] && Placed(l, pieces, c, x)
    modifies x
    ensures r.Some? <==> FieldFine(l, c, field)
    ensures r.Some? ==> r.value == if c == l.target then TargetOf(l, Value(l, field).value) else y
    ensures forall f :: 0 <= f < x.Length && !(r.Some? && l.columnToFeature[c] == f) ==>
      x[f] == old(x[f]) || (r.None? && l.columnToFeature[c] == f)
    ensures r.Some? ==> Placed(l, pieces, c + 1, x)
  {
    hide Mapped, Parse;
    var feature := l.columnToFeature[c];
    if feature < 0 && c != l.target { return Some(y); }
    var value := ParseNumericField(l.round, field);
    if value.None? { return None; }
    if feature >= 0 { x[feature] := value.value; }
    if c != l.target { return Some(y); }
    if l.regression { return Some(value); }
    var found := IndexOf(l.classes, value.value);
    if found == |l.classes| { return None; }
    r := Some(Some(found as real));
  }

  /** Scan one field of the buffer, end it with a NUL in place of its delimiter, and read it back. */
  method TakeField(delimiter: char, line: array<char>, end: nat, cursor: nat, ghost body: Text)
    returns (quoted: bool, stop: nat, field: Text)
    requires end == |body| < line.Length && cursor <= end && line[end] == '\0'
    requires Clean(body) && forall j :: cursor <= j < end ==> line[j] == body[j]
    modifies line
    ensures quoted ==> !Unquoted(body)
    ensures !quoted ==>
      && cursor <= stop <= end && field == body[cursor..stop]
      && (forall i :: cursor <= i < stop ==> body[i] != delimiter && body[i] != '"')
      && (stop < end ==> body[stop] == delimiter)
      && (forall j :: stop < j < line.Length ==> line[j] == old(line[j])) && line[end] == '\0'
  {
    stop, field, quoted := cursor, [], false;
    while stop < end && line[stop] != delimiter
      invariant cursor <= stop <= end
      invariant forall i :: cursor <= i < stop ==> body[i] != delimiter && body[i] != '"'
    {
      if line[stop] == '"' { return true, stop, field; }
      stop := stop + 1;
    }
    if stop < end { line[stop] := '\0'; }
    CStringIs(line[..], cursor, stop);
    field := CString(line[..], cursor);
    assert line[..][cursor..stop] == body[cursor..stop];
  }

  /** The scan stands at the start of a field; what it passed had no quotes. */
  ghost predicate Scanning(delimiter: char, line: array<char>, end: nat, body: Text, column: nat, cursor: nat)
    reads line
  {
    && end == |body| < line.Length && line[end] == '\0' && cursor <= end
    && At(body, delimiter, column, cursor)
    && (forall j :: cursor <= j < end ==> line[j] == body[j])
    && (forall j :: 0 <= j < cursor ==> body[j] != '"')
  }

  /** The next field of the row, and where it stops. */
  method ScanField(delimiter: char, line: array<char>, end: nat, ghost body: Text, ghost column: nat, cursor: nat)
    returns (quoted: bool, stop: nat, field: Text)
    requires Clean(body) && delimiter != '"' && Scanning(delimiter, line, end, body, column, cursor)
    modifies line
    ensures column < |Pieces(body, delimiter)|
    ensures quoted ==> !Unquoted(body)
    ensures !quoted ==> cursor <= stop <= end && field == Pieces(body, delimiter)[column]
    ensures !quoted && stop < end ==> Scanning(delimiter, line, end, body, column + 1, stop + 1)
    ensures !quoted && stop == end ==> Unquoted(body) && |Pieces(body, delimiter)| == column + 1
  {
    hide Clean, CString, Pieces, Find;
    quoted, stop, field := TakeField(delimiter, line, end, cursor, body);
    if !quoted {
      NextPiece(body, delimiter, column, cursor, stop);
    }
  }

  /** What the columns read so far have come to. */
  ghost predicate Reading(l: Layout, pieces: seq<Text>, column: nat, encoded: nat, targetFound: bool,
                          target: Option<real>, x: array<real>)
    requires LegalLayout(l) && x.Length == l.features
    reads x
  {
    && column <= |pieces| && column <= |l.columnToFeature|
    && (forall c :: 0 <= c < column ==> FieldFine(l, c, pieces[c]))
    && Placed(l, pieces, column, x)
    && encoded == Mapped(l.columnToFeature[..column])
    && (targetFound <==> l.target < column)
    && (targetFound ==>
          Value(l, pieces[l.target]).Some? && target == TargetOf(l, Value(l, pieces[l.target]).value))
  }

  /** One more column; refused exactly when its field is not fine. */
  method ReadColumn(l: Layout, column: nat, field: Text, x: array<real>, encoded: nat, targetFound: bool,
                    target: Option<real>, ghost pieces: seq<Text>)
    returns (ok: bool, encoded': nat, targetFound': bool, target': Option<real>)
    requires LegalLayout(l) && x.Length == l.features && column < |pieces| && column < |l.columnToFeature|
    requires field == pieces[column] && Reading(l, pieces, column, encoded, targetFound, target, x)
    modifies x
    ensures ok <==> FieldFine(l, column, field)
    ensures ok ==> Reading(l, pieces, column + 1, encoded', targetFound', target', x)
  {
    hide Value, TargetOf, Mapped, FieldFine, Placed;
    encoded', targetFound', target' := encoded, targetFound, target;
    var read := ReadField(l, column, field, x, target, pieces);
    ok := read.Some?;
    if ok {
      target' := read.value;
      FineNeeded(l, column, field);
      MappedStep(l.columnToFeature, column);
      if l.columnToFeature[column] >= 0 { encoded' := encoded + 1; }
      if column == l.target { targetFound' := true; }
    }
  }

  /** The row's fields, one after the other. */
  method ScanRow(l: Layout, line: array<char>, end: nat, ghost body: Text, x: array<real>) returns (ok: bool, y: real)
    requires LegalLayout(l) && x.Length == l.features
    requires end == |body| < line.Length && line[end] == '\0' && forall j :: 0 <= j < end ==> line[j] == body[j]
    requires Clean(body) && l.delimiter != '"'
    modifies line, x
    ensures var pieces := Pieces(body, l.delimiter);
      && (ok <==> Unquoted(body) && Accepts(l, pieces))
      && (ok ==>
            && TargetOf(l, Value(l, pieces[l.target]).value) == Some(y)
            && forall c :: 0 <= c < |pieces| && l.columnToFeature[c] >= 0 ==>
                 x[l.columnToFeature[c]] == Value(l, pieces[c]).value)
  {
    hide Clean, Unquoted, Pieces, Value, TargetOf, Mapped, Accepts, FieldFine, Placed, Reading, Scanning, LegalLayout;
    ghost var pieces := Pieces(body, l.delimiter);
    y := 0.0;
    var column, encoded, cursor, targetFound, more := 0, 0, 0, false, true;
    var target: Option<real> := None;
    AtStart(l, body, line, end, x);
    while more
      invariant Reading(l, pieces, column, encoded, targetFound, target, x)
      invariant more ==> cursor <= end && Scanning(l.delimiter, line, end, body, column, cursor)
      invariant !more ==> column == |pieces| && Unquoted(body)
      decreases if more then 1 else 0, end - cursor
    {
      var quoted, stop, field := ScanField(l.delimiter, line, end, body, column, cursor);
      if quoted { return false, y; }
      more := stop < end;
      if column >= |l.columnToFeature| {
        TooWide(l, pieces);
        return false, y;
      }
      var fine;
      fine, encoded, targetFound, target := ReadColumn(l, column, field, x, encoded, targetFound, target, pieces);
      if !fine {
        NotFine(l, pieces, column);
        return false, y;
      }
      column := column + 1;
      cursor := stop + 1;
    }
    RowRead(l, pieces, encoded, targetFound, target, x);
    if column != |l.columnToFeature| || encoded != l.features || !targetFound {
      return false, y;
    }
    y := target.value;
    ok := true;
  }

  /** When every field was read, the row is accepted exactly when it has the width of the layout, and then all
      features and the target were found. */
  lemma RowRead(l: Layout, pieces: seq<Text>, encoded: nat, targetFound: bool, target: Option<real>, x: array<real>)
    requires LegalLayout(l) && x.Length == l.features
    requires Reading(l, pieces, |pieces|, encoded, targetFound, target, x)
    ensures Accepts(l, pieces) <==> |pieces| == |l.columnToFeature|
    ensures Accepts(l, pieces) ==>
      && encoded == l.features && targetFound && target.Some?
      && TargetOf(l, Value(l, pieces[l.target]).value) == target
      && forall c :: 0 <= c < |pieces| && l.columnToFeature[c] >= 0 ==>
           x[l.columnToFeature[c]] == Value(l, pieces[c]).value
  {
    hide Value, TargetOf, Mapped;
    if |pieces| == |l.columnToFeature| {
      assert l.columnToFeature[..|pieces|] == l.columnToFeature;
      AllFine(l, pieces);
    }
  }

  /** Acceptance spelled out: the width is right, every mapped column and the target hold numbers, and for a
      classification the target is a known class. */
  lemma AcceptsIff(l: Layout, fields: seq<Text>)
    requires LegalLayout(l)
    ensures Accepts(l, fields) <==>
      && |fields| == |l.columnToFeature|
      && (forall c :: 0 <= c < |fields| && l.columnToFeature[c] >= 0 ==> Value(l, fields[c]).Some?)
      && Value(l, fields[l.target]).Some?
      && (l.regression || Value(l, fields[l.target]).value in l.classes)
  {
    hide Value, Mapped;
    if |fields| == |l.columnToFeature| {
      if Value(l, fields[l.target]).Some? { TargetMeans(l, Value(l, fields[l.target]).value); }
      if Accepts(l, fields) {
        assert FieldFine(l, l.target, fields[l.target]);
        forall c | 0 <= c < |fields| && l.columnToFeature[c] >= 0 ensures Value(l, fields[c]).Some? {
          assert FieldFine(l, c, fields[c]);
        }
      }
    }
  }

  /** The target of a regression is its value; of a classification, the index of the first class that equals it. */
  lemma TargetMeans(l: Layout, value: real)
    ensures l.regression ==> TargetOf(l, value) == Some(value)
    ensures !l.regression ==> (TargetOf(l, value).Some? <==> value in l.classes)
    ensures !l.regression && TargetOf(l, value).Some? ==> FirstClass(l, value, TargetOf(l, value).value)
  {
    var i := IndexOf(l.classes, value);
    if value in l.classes {
      var k :| 0 <= k < |l.classes| && l.classes[k] == value;
      assert i < |l.classes|;
    }
  }

  ghost predicate FirstClass(l: Layout, value: real, y: real) {
    exists k :: 0 <= k < |l.classes| && y == k as real && l.classes[k] == value
                && forall j :: 0 <= j < k ==> l.classes[j] != value
  }

  /** In place, over the line's own buffer: on lines without NULs and inner carriage returns it accepts exactly
      the unquoted rows that the splitter and the field parser accept, with the same values at the same
      features. */
  method EncodeStreamRow(l: Layout, line: array<char>, length: nat, ghost body: Text, ghost ending: Text,
                         x: array<real>) returns (ok: bool, y: real)
    requires LegalLayout(l) && x.Length == l.features
    requires line.Length == length + 1 && line[..] == body + ending + ['\0']
    requires Clean(body) && ending in {[], ['\r']} && l.delimiter !in {'"', '\r', '\0'}
    modifies line, x
    ensures var fields := Fields(body + ending, l.delimiter);
      && (ok <==> Unquoted(body) && Accepts(l, fields))
      && (ok ==>
            && (if l.regression then y == Value(l, fields[l.target]).value
                else FirstClass(l, Value(l, fields[l.target]).value, y))
            && forall c :: 0 <= c < |fields| && l.columnToFeature[c] >= 0 ==>
                 x[l.columnToFeature[c]] == Value(l, fields[c]).value)
    ensures var fields := Fields(body + ending, l.delimiter);
      ok <==>
        && Unquoted(body) && |fields| == |l.columnToFeature|
        && (forall c :: 0 <= c < |fields| && l.columnToFeature[c] >= 0 ==> Value(l, fields[c]).Some?)
        && Value(l, fields[l.target]).Some?
        && (l.regression || Value(l, fields[l.target]).value in l.classes)
  {
    hide Pieces, Fields, Find, Value, TargetOf, Mapped, FieldFine, Trimmed, Unquoted, Accepts, FirstClass;
    AcceptsIff(l, Fields(body + ending, l.delimiter));
    forall v { TargetMeans(l, v); }
    if Unquoted(body) { FieldsOfPlain(body, ending, l.delimiter); }
    AcceptsTrimmed(l, Pieces(body, l.delimiter));
    var end := length;
    if end > 0 && line[end - 1] == '\r' {
      end := end - 1;
      line[end] := '\0';
    }
    ok, y := ScanRow(l, line, end, body, x);
  }

  lemma AtStart(l: Layout, body: Text, line: array<char>, end: nat, x: array<real>)
    requires LegalLayout(l) && x.Length == l.features
    requires end == |body| < line.Length && line[end] == '\0' && forall j :: 0 <= j < end ==> line[j] == body[j]
    ensures Scanning(l.delimiter, line, end, body, 0, 0)
    ensures Reading(l, Pieces(body, l.delimiter), 0, 0, false, None, x)
  {
    hide Find;
    assert body[0..] == body;
    assert Pieces(body, l.delimiter)[0..] == Pieces(body, l.delimiter);
  }

  lemma MappedStep(columns: seq<int>, n: nat)
    requires n < |columns|
    ensures Mapped(columns[..n + 1]) == Mapped(columns[..n]) + if columns[n] >= 0 then 1 else 0
  {
    assert columns[..n + 1][..n] == columns[..n];
  }

  lemma TooWide(l: Layout, pieces: seq<Text>)
    requires |pieces| > |l.columnToFeature|
    ensures !Accepts(l, pieces)
  {
  }

  lemma NotFine(l: Layout, pieces: seq<Text>, c: nat)
    requires c < |pieces| && c < |l.columnToFeature| && !FieldFine(l, c, pieces[c])
    ensures !Accepts(l, pieces)
  {
  }

  lemma FineNeeded(l: Layout, c: nat, field: Text)
    requires c < |l.columnToFeature| && FieldFine(l, c, field)
    ensures l.columnToFeature[c] >= 0 ==> Value(l, field).Some?
    ensures c == l.target ==> Value(l, field).Some? && TargetOf(l, Value(l, field).value).Some?
  {
  }

  lemma AllFine(l: Layout, pieces: seq<Text>)
    requires l.target < |pieces| == |l.columnToFeature|
    requires forall c :: 0 <= c < |pieces| ==> FieldFine(l, c, pieces[c])
    ensures Accepts(l, pieces)
    ensures Value(l, pieces[l.target]).Some? && TargetOf(l, Value(l, pieces[l.target]).value).Some?
  {
    assert FieldFine(l, l.target, pieces[l.target]);
  }

  /** Trimming the fields changes neither acceptance nor values. */
  lemma AcceptsTrimmed(l: Layout, pieces: seq<Text>)
    requires LegalLayout(l)
    ensures Accepts(l, Trimmed(pieces)) == Accepts(l, pieces)
    ensures forall c :: 0 <= c < |pieces| ==> Value(l, Trimmed(pieces)[c]) == Value(l, pieces[c])
  {
    hide Value, TargetOf, Needed;
    var t := Trimmed(pieces);
    forall c | 0 <= c < |pieces| ensures Value(l, t[c]) == Value(l, pieces[c]) {
      ValueTrimmed(l, pieces[c]);
    }
    forall c | 0 <= c < |pieces| && c < |l.columnToFeature|
      ensures FieldFine(l, c, t[c]) == FieldFine(l, c, pieces[c])
    {
      FieldFineTrimmed(l, c, pieces[c]);
    }
  }

  lemma ValueTrimmed(l: Layout, field: Text)
    ensures Value(l, Trim(field)) == Value(l, field)
  {
    ParseTrimmed(field);
  }
}
