/**
 * The record codec of `src/lib.rs`: the `TodoOperation` data model, the
 * operation tag, the twelve-field NUL-separated line encoding and its decoder,
 * the merge-conflict markers and the batch parser `parse_operations`.
 * Panics of the Rust code are `Err` values of `DecodeError`.
 */
module Codec {
  import opened Results
  import opened Decimal
  import opened Text

  /** The field delimiter of a record line. */
  const NUL: char := '\0'

  datatype Position = Position(line: i32, column: i32)

  datatype Range = Range(start: Position, end: Position)

  datatype TodoData = TodoData(
    engine: string,
    ruleId: string,
    filePath: string,
    range: Range,
    source: string,
    createdDate: i64,
    warnDate: i64,
    errorDate: i64)

  datatype OperationType = Add | Remove

  datatype TodoOperation = TodoOperation(operation: OperationType, todo: TodoData)

  /** The seven integer fields of a record line, with their position in the line and their width. */
  datatype IntField = StartLine | StartColumn | EndLine | EndColumn | CreatedDate | WarnDate | ErrorDate
  {
    function Index(): (i: nat)
      ensures 4 <= i < 12 && i != 8
    {
      match this
      case StartLine => 4
      case StartColumn => 5
      case EndLine => 6
      case EndColumn => 7
      case CreatedDate => 9
      case WarnDate => 10
      case ErrorDate => 11
    }

    /** The dates are `i64`, the range coordinates `i32`. */
    predicate IsDate() {
      CreatedDate? || WarnDate? || ErrorDate?
    }

    function Min(): int {
      if IsDate() then I64_MIN else I32_MIN
    }

    function Max(): int {
      if IsDate() then I64_MAX else I32_MAX
    }

    /** `from_str_radix(t, 10)` for this field's width succeeds. */
    predicate Accepts(t: string) {
      ParseInRange(t, Min(), Max()).Some?
    }
  }

  /** Why a line is not a record: the three ways `operation_from_string` panics. */
  datatype DecodeError = WrongFieldCount | UnknownOperation | InvalidInteger(field: IntField)

  // ---------------------------------------------------------------------------
  // Operation tag

  /** The tag the encoder writes for an operation. */
  function TagOf(t: OperationType): string {
    match t
    case Add => "add"
    case Remove => "remove"
  }

  predicate IsTag(s: string) {
    s == "add" || s == "remove"
  }

  /** `OperationType::from` (for `&str` and for `String`): the inverse of `TagOf`, failing on any other text. */
  function ParseTag(s: string): (r: Result<OperationType, DecodeError>)
    ensures r.Ok? <==> IsTag(s)
    ensures r.Ok? ==> TagOf(r.value) == s
    ensures r.Err? ==> r.error == UnknownOperation
  {
    match s
    case "add" => Ok(Add)
    case "remove" => Ok(Remove)
    case _ => Err(UnknownOperation)
  }

  /** The tag mapping is a bijection between the two operations and the two tags. */
  lemma TagRoundTrip(t: OperationType, u: OperationType)
    ensures ParseTag(TagOf(t)) == Ok(t)
    ensures TagOf(t) == TagOf(u) ==> t == u
  {
  }

  // ---------------------------------------------------------------------------
  // Encoding

  /** The twelve fields of a record line, in their fixed order. */
  function Fields(op: TodoOperation): seq<string> {
    var d := op.todo;
    [TagOf(op.operation), d.engine, d.ruleId, d.filePath,
     Show(d.range.start.line), Show(d.range.start.column),
     Show(d.range.end.line), Show(d.range.end.column),
     d.source, Show(d.createdDate), Show(d.warnDate), Show(d.errorDate)]
  }

  /** `to_operation_string`: the twelve fields, in order, with a NUL between neighbours. */
  function Encode(op: TodoOperation): string {
    Join(Fields(op), NUL)
  }

  /** The encoding written out as the concatenation of the fields and their delimiters. */
  lemma EncodeAsConcatenation(op: TodoOperation)
    ensures var d := op.todo; var z := [NUL];
      Encode(op) ==
        TagOf(op.operation) + z + (d.engine + z + (d.ruleId + z + (d.filePath + z + (
        Show(d.range.start.line) + z + (Show(d.range.start.column) + z + (
        Show(d.range.end.line) + z + (Show(d.range.end.column) + z + (
        d.source + z + (Show(d.createdDate) + z + (Show(d.warnDate) + z + Show(d.errorDate)))))))))))
  {
    var fs := Fields(op);
    var t11: seq<string> := [fs[11]];
    var t10 := [fs[10]] + t11;
    JoinCons(fs[10], t11, NUL);
    var t9 := [fs[9]] + t10;
    JoinCons(fs[9], t10, NUL);
    var t8 := [fs[8]] + t9;
    JoinCons(fs[8], t9, NUL);
    var t7 := [fs[7]] + t8;
    JoinCons(fs[7], t8, NUL);
    var t6 := [fs[6]] + t7;
    JoinCons(fs[6], t7, NUL);
    var t5 := [fs[5]] + t6;
    JoinCons(fs[5], t6, NUL);
    var t4 := [fs[4]] + t5;
    JoinCons(fs[4], t5, NUL);
    var t3 := [fs[3]] + t4;
    JoinCons(fs[3], t4, NUL);
    var t2 := [fs[2]] + t3;
    JoinCons(fs[2], t3, NUL);
    var t1 := [fs[1]] + t2;
    JoinCons(fs[1], t2, NUL);
    var t0 := [fs[0]] + t1;
    JoinCons(fs[0], t1, NUL);
    assert t0 == fs;
  }

  /** None of the free-form text fields contains the delimiter. */
  predicate NulFree(op: TodoOperation) {
    var d := op.todo;
    NUL !in d.engine && NUL !in d.ruleId && NUL !in d.filePath && NUL !in d.source
  }

  /** None of the free-form text fields contains a line feed. */
  predicate NewlineFree(op: TodoOperation) {
    var d := op.todo;
    '\n' !in d.engine && '\n' !in d.ruleId && '\n' !in d.filePath && '\n' !in d.source
  }

  lemma ShowFree(n: int, c: char)
    requires !IsDigit(c) && c != '-'
    ensures c !in Show(n)
  {
  }

  lemma FieldsFree(op: TodoOperation, c: char)
    requires !IsDigit(c) && c != '-' && c != 'a' && c != 'd' && c != 'r' && c != 'e' && c != 'm' && c != 'o' && c != 'v'
    requires var d := op.todo; c !in d.engine && c !in d.ruleId && c !in d.filePath && c !in d.source
    ensures Free(Fields(op), c)
  {
    var d := op.todo;
    ShowFree(d.range.start.line, c);
    ShowFree(d.range.start.column, c);
    ShowFree(d.range.end.line, c);
    ShowFree(d.range.end.column, c);
    ShowFree(d.createdDate, c);
    ShowFree(d.warnDate, c);
    ShowFree(d.errorDate, c);
  }

  /** An encoded record splits on NUL into exactly its twelve fields, tag first and error date last. */
  lemma EncodeFieldOrder(op: TodoOperation)
    requires NulFree(op)
    ensures var d := op.todo;
      Split(Encode(op), NUL) ==
        [TagOf(op.operation), d.engine, d.ruleId, d.filePath,
         Show(d.range.start.line), Show(d.range.start.column),
         Show(d.range.end.line), Show(d.range.end.column),
         d.source, Show(d.createdDate), Show(d.warnDate), Show(d.errorDate)]
  {
    FieldsFree(op, NUL);
    SplitJoin(Fields(op), NUL);
  }

  /** An encoded record is one non-empty line that does not end in a carriage return and is never a conflict marker. */
  lemma EncodeIsOneLine(op: TodoOperation)
    requires NewlineFree(op)
    ensures PlainLine(Encode(op))
    ensures !IsMarker(Encode(op))
  {
    var fs := Fields(op);
    FieldsFree(op, '\n');
    JoinFree(fs, NUL, '\n');
    JoinEnd(fs, NUL);
    JoinStart(fs, NUL);
    var e := Encode(op);
    var t := TagOf(op.operation);
    assert e[0] == t[0] by {
      assert e[..|t| + 1] == t + [NUL];
    }
    assert t[0] == 'a' || t[0] == 'r';
    if |e| >= 7 {
      var p := e[..7];
      assert p[0] == e[0];
      assert p != GIT_CONFLICT_START && p != GIT_CONFLICT_MIDDLE && p != GIT_CONFLICT_END by {
        assert GIT_CONFLICT_START[0] == '<' && GIT_CONFLICT_MIDDLE[0] == '=' && GIT_CONFLICT_END[0] == '>';
      }
    }
  }

  // ---------------------------------------------------------------------------
  // Decoding

  /** Text field `i`; a missing one is the Rust code's out-of-bounds `vec[i]`. */
  function TextAt(vec: seq<string>, i: nat): (r: Result<string, DecodeError>)
    ensures r.Ok? <==> i < |vec|
    ensures r.Ok? ==> r.value == vec[i]
    ensures r.Err? ==> r.error == WrongFieldCount
  {
    if i < |vec| then Ok(vec[i]) else Err(WrongFieldCount)
  }

  /** Integer field `f`: out of bounds if missing, else `from_str_radix(.., 10).expect(..)` for its width. */
  function IntegerAt(vec: seq<string>, f: IntField): (r: Result<int, DecodeError>)
    ensures r.Ok? <==> f.Index() < |vec| && f.Accepts(vec[f.Index()])
    ensures r.Ok? ==> f.Min() <= r.value <= f.Max() && ParseDecimal(vec[f.Index()]) == Some(r.value)
    ensures r.Err? ==> r.error == (if f.Index() < |vec| then InvalidInteger(f) else WrongFieldCount)
  {
    if f.Index() >= |vec| then Err(WrongFieldCount)
    else match ParseInRange(vec[f.Index()], f.Min(), f.Max())
      case Some(n) => Ok(n)
      case None => Err(InvalidInteger(f))
  }

  /**
   * `operation_from_string` on the pieces of a line, in the order the Rust code's
   * struct literal evaluates them: the tag, then each field from left to right.
   * Fields after the twelfth are not looked at.
   */
  function DecodeFields(vec: seq<string>): Result<TodoOperation, DecodeError>
    requires |vec| >= 1
  {
    var operation :- ParseTag(vec[0]);
    var engine :- TextAt(vec, 1);
    var ruleId :- TextAt(vec, 2);
    var filePath :- TextAt(vec, 3);
    var startLine :- IntegerAt(vec, StartLine);
    var startColumn :- IntegerAt(vec, StartColumn);
    var endLine :- IntegerAt(vec, EndLine);
    var endColumn :- IntegerAt(vec, EndColumn);
    var source :- TextAt(vec, 8);
    var createdDate :- IntegerAt(vec, CreatedDate);
    var warnDate :- IntegerAt(vec, WarnDate);
    var errorDate :- IntegerAt(vec, ErrorDate);
    Ok(TodoOperation(operation, TodoData(
      engine, ruleId, filePath,
      Range(Position(startLine, startColumn), Position(endLine, endColumn)),
      source, createdDate, warnDate, errorDate)))
  }

  /** `operation_from_string` exactly as written: a line with more than twelve fields is accepted. */
  function DecodeAsWritten(s: string): Result<TodoOperation, DecodeError> {
    DecodeFields(Split(s, NUL))
  }

  /** The decoder: `operation_from_string` with the intended check that there are exactly twelve fields. */
  function Decode(s: string): Result<TodoOperation, DecodeError> {
    var vec := Split(s, NUL);
    var op :- DecodeFields(vec);
    if |vec| == 12 then Ok(op) else Err(WrongFieldCount)
  }

  /** The pieces of a line that decode: twelve of them, a known tag and seven integers in range. */
  predicate WellFormed(fs: seq<string>) {
    |fs| == 12 && IsTag(fs[0]) && forall f: IntField :: f.Accepts(fs[f.Index()])
  }

  /** Every integer field that is present is accepted. */
  predicate PresentIntegersAccepted(fs: seq<string>) {
    forall f: IntField :: f.Index() < |fs| ==> f.Accepts(fs[f.Index()])
  }

  lemma AllIntFields(fs: seq<string>)
    requires PresentIntegersAccepted(fs)
    ensures StartLine.Index() < |fs| ==> StartLine.Accepts(fs[4])
    ensures StartColumn.Index() < |fs| ==> StartColumn.Accepts(fs[5])
    ensures EndLine.Index() < |fs| ==> EndLine.Accepts(fs[6])
    ensures EndColumn.Index() < |fs| ==> EndColumn.Accepts(fs[7])
    ensures CreatedDate.Index() < |fs| ==> CreatedDate.Accepts(fs[9])
    ensures WarnDate.Index() < |fs| ==> WarnDate.Accepts(fs[10])
    ensures ErrorDate.Index() < |fs| ==> ErrorDate.Accepts(fs[11])
  {
  }

  /** The lenient decoder fails exactly on a bad tag, a missing field or a bad integer among the first twelve. */
  lemma DecodeFieldsOk(vec: seq<string>)
    requires |vec| >= 1
    ensures DecodeFields(vec).Ok? <==> |vec| >= 12 && IsTag(vec[0]) && PresentIntegersAccepted(vec)
  {
    if |vec| >= 12 && IsTag(vec[0]) && PresentIntegersAccepted(vec) {
      AllIntFields(vec);
    }
    if DecodeFields(vec).Ok? {
      forall f: IntField | f.Index() < |vec|
        ensures f.Accepts(vec[f.Index()])
      {
        match f
        case StartLine => assert IntegerAt(vec, f).Ok?;
        case StartColumn => assert IntegerAt(vec, f).Ok?;
        case EndLine => assert IntegerAt(vec, f).Ok?;
        case EndColumn => assert IntegerAt(vec, f).Ok?;
        case CreatedDate => assert IntegerAt(vec, f).Ok?;
        case WarnDate => assert IntegerAt(vec, f).Ok?;
        case ErrorDate => assert IntegerAt(vec, f).Ok?;
      }
    }
  }

  /** Decoding succeeds exactly on well-formed lines. */
  lemma DecodeSucceedsIff(s: string)
    ensures Decode(s).Ok? <==> WellFormed(Split(s, NUL))
  {
    var fs := Split(s, NUL);
    DecodeFieldsOk(fs);
    if WellFormed(fs) {
      assert PresentIntegersAccepted(fs);
    }
  }

  /** A decoded record carries the line's text fields verbatim and the values of its integer fields. */
  lemma DecodeCopiesFields(s: string, op: TodoOperation)
    requires Decode(s) == Ok(op)
    ensures var fs := Split(s, NUL); var d := op.todo;
      |fs| == 12 &&
      TagOf(op.operation) == fs[0] &&
      d.engine == fs[1] && d.ruleId == fs[2] && d.filePath == fs[3] && d.source == fs[8] &&
      ParseDecimal(fs[4]) == Some(d.range.start.line as int) &&
      ParseDecimal(fs[5]) == Some(d.range.start.column as int) &&
      ParseDecimal(fs[6]) == Some(d.range.end.line as int) &&
      ParseDecimal(fs[7]) == Some(d.range.end.column as int) &&
      ParseDecimal(fs[9]) == Some(d.createdDate as int) &&
      ParseDecimal(fs[10]) == Some(d.warnDate as int) &&
      ParseDecimal(fs[11]) == Some(d.errorDate as int)
    ensures NulFree(op)
  {
    DecodedParts(Split(s, NUL), op);
  }

  /** The tag is checked first: decoding reports an unknown operation exactly when field 0 is not a tag. */
  lemma DecodeUnknownTag(s: string)
    ensures Decode(s) == Err(UnknownOperation) <==> !IsTag(Split(s, NUL)[0])
  {
  }

  /** A present integer field that does not parse for its width makes decoding fail on it or on an earlier integer field. */
  lemma DecodeBadInteger(s: string, f: IntField)
    requires var fs := Split(s, NUL); IsTag(fs[0]) && f.Index() < |fs| && !f.Accepts(fs[f.Index()])
    ensures Decode(s).Err? && Decode(s).error.InvalidInteger? && Decode(s).error.field.Index() <= f.Index()
  {
  }

  /** An invalid-integer failure names a field that is present and does not parse for its width. */
  lemma DecodeInvalidIntegerCause(s: string, f: IntField)
    requires Decode(s) == Err(InvalidInteger(f))
    ensures var fs := Split(s, NUL); IsTag(fs[0]) && f.Index() < |fs| && !f.Accepts(fs[f.Index()])
  {
  }

  /** Any count other than twelve fails, and it is reported as such when nothing earlier fails. */
  lemma DecodeFieldCount(s: string)
    ensures |Split(s, NUL)| != 12 ==> Decode(s).Err?
    ensures Decode(s) == Err(WrongFieldCount) ==> |Split(s, NUL)| != 12
    ensures var fs := Split(s, NUL);
      |fs| != 12 && IsTag(fs[0]) && PresentIntegersAccepted(fs) ==> Decode(s) == Err(WrongFieldCount)
  {
    var fs := Split(s, NUL);
    if |fs| != 12 && IsTag(fs[0]) && PresentIntegersAccepted(fs) {
      AllIntFields(fs);
    }
  }

  // ---------------------------------------------------------------------------
  // Round trips

  /** An integer field written by `Show` reads back as its value when that value fits the field's width. */
  lemma IntegerAtShow(fs: seq<string>, f: IntField, n: int)
    requires f.Index() < |fs| && fs[f.Index()] == Show(n) && f.Min() <= n <= f.Max()
    ensures IntegerAt(fs, f) == Ok(n)
  {
    ParseShow(n);
  }

  /** Pieces whose tag, text fields and integer fields each read as a record's decode to that record. */
  lemma DecodeFieldsOfParts(vec: seq<string>, op: TodoOperation)
    requires var d := op.todo;
      |vec| >= 12 && ParseTag(vec[0]) == Ok(op.operation) &&
      vec[1] == d.engine && vec[2] == d.ruleId && vec[3] == d.filePath && vec[8] == d.source &&
      IntegerAt(vec, StartLine) == Ok(d.range.start.line as int) &&
      IntegerAt(vec, StartColumn) == Ok(d.range.start.column as int) &&
      IntegerAt(vec, EndLine) == Ok(d.range.end.line as int) &&
      IntegerAt(vec, EndColumn) == Ok(d.range.end.column as int) &&
      IntegerAt(vec, CreatedDate) == Ok(d.createdDate as int) &&
      IntegerAt(vec, WarnDate) == Ok(d.warnDate as int) &&
      IntegerAt(vec, ErrorDate) == Ok(d.errorDate as int)
    ensures DecodeFields(vec) == Ok(op)
  {
  }

  lemma RangeOfShown(vec: seq<string>, r: Range)
    requires |vec| >= 12
    requires vec[4] == Show(r.start.line) && vec[5] == Show(r.start.column)
    requires vec[6] == Show(r.end.line) && vec[7] == Show(r.end.column)
    ensures IntegerAt(vec, StartLine) == Ok(r.start.line as int)
    ensures IntegerAt(vec, StartColumn) == Ok(r.start.column as int)
    ensures IntegerAt(vec, EndLine) == Ok(r.end.line as int)
    ensures IntegerAt(vec, EndColumn) == Ok(r.end.column as int)
  {
    IntegerAtShow(vec, StartLine, r.start.line as int);
    IntegerAtShow(vec, StartColumn, r.start.column as int);
    IntegerAtShow(vec, EndLine, r.end.line as int);
    IntegerAtShow(vec, EndColumn, r.end.column as int);
  }

  lemma DatesOfShown(vec: seq<string>, d: TodoData)
    requires |vec| >= 12
    requires vec[9] == Show(d.createdDate) && vec[10] == Show(d.warnDate) && vec[11] == Show(d.errorDate)
    ensures IntegerAt(vec, CreatedDate) == Ok(d.createdDate as int)
    ensures IntegerAt(vec, WarnDate) == Ok(d.warnDate as int)
    ensures IntegerAt(vec, ErrorDate) == Ok(d.errorDate as int)
  {
    IntegerAtShow(vec, CreatedDate, d.createdDate as int);
    IntegerAtShow(vec, WarnDate, d.warnDate as int);
    IntegerAtShow(vec, ErrorDate, d.errorDate as int);
  }

  /** Pieces that hold a record's fields, as the encoder writes them, decode to the record. */
  lemma DecodeFieldsOfShown(vec: seq<string>, op: TodoOperation)
    requires var d := op.todo;
      |vec| >= 12 && vec[0] == TagOf(op.operation) &&
      vec[1] == d.engine && vec[2] == d.ruleId && vec[3] == d.filePath && vec[8] == d.source &&
      vec[4] == Show(d.range.start.line) && vec[5] == Show(d.range.start.column) &&
      vec[6] == Show(d.range.end.line) && vec[7] == Show(d.range.end.column) &&
      vec[9] == Show(d.createdDate) && vec[10] == Show(d.warnDate) && vec[11] == Show(d.errorDate)
    ensures DecodeFields(vec) == Ok(op)
  {
    assert ParseTag(vec[0]) == Ok(op.operation);
    RangeOfShown(vec, op.todo.range);
    DatesOfShown(vec, op.todo);
    DecodeFieldsOfParts(vec, op);
  }

  /** The lenient decoder reads the twelve fields of a record back into the record. */
  lemma DecodeFieldsOfFields(op: TodoOperation)
    ensures DecodeFields(Fields(op)) == Ok(op)
  {
    DecodeFieldsOfShown(Fields(op), op);
  }

  /** Decoding an encoded record gives the record back. */
  lemma RoundTrip(op: TodoOperation)
    requires NulFree(op)
    ensures Decode(Encode(op)) == Ok(op)
  {
    FieldsFree(op, NUL);
    SplitJoin(Fields(op), NUL);
    assert Split(Encode(op), NUL) == Fields(op);
    DecodeFieldsOfFields(op);
  }

  /** Re-encoding a decoded encoding gives the same line. */
  lemma ReencodeIsStable(op: TodoOperation)
    requires NulFree(op)
    ensures Decode(Encode(op)).Ok? && Encode(Decode(Encode(op)).value) == Encode(op)
  {
    RoundTrip(op);
  }

  /** A decoded record encodes and decodes to itself. */
  lemma DecodeEncodeDecode(s: string)
    requires Decode(s).Ok?
    ensures Decode(Encode(Decode(s).value)) == Decode(s)
  {
    DecodeCopiesFields(s, Decode(s).value);
    RoundTrip(Decode(s).value);
  }

  /** The seven integer fields are written as `Show` writes them: no sign but `-`, no leading zero. */
  predicate CanonicalIntegers(fs: seq<string>) {
    |fs| == 12 &&
    IsCanonical(fs[4]) && IsCanonical(fs[5]) && IsCanonical(fs[6]) && IsCanonical(fs[7]) &&
    IsCanonical(fs[9]) && IsCanonical(fs[10]) && IsCanonical(fs[11])
  }

  /** What the lenient decoder returns: the text fields verbatim and the values of the integer fields. */
  lemma DecodedParts(fs: seq<string>, op: TodoOperation)
    requires |fs| >= 1 && DecodeFields(fs) == Ok(op)
    ensures var d := op.todo;
      |fs| >= 12 && TagOf(op.operation) == fs[0] &&
      d.engine == fs[1] && d.ruleId == fs[2] && d.filePath == fs[3] && d.source == fs[8] &&
      ParseDecimal(fs[4]) == Some(d.range.start.line as int) &&
      ParseDecimal(fs[5]) == Some(d.range.start.column as int) &&
      ParseDecimal(fs[6]) == Some(d.range.end.line as int) &&
      ParseDecimal(fs[7]) == Some(d.range.end.column as int) &&
      ParseDecimal(fs[9]) == Some(d.createdDate as int) &&
      ParseDecimal(fs[10]) == Some(d.warnDate as int) &&
      ParseDecimal(fs[11]) == Some(d.errorDate as int)
  {
  }

  /** A canonical integer field is what `Show` writes for its value. */
  lemma ShownField(t: string, n: int)
    requires IsCanonical(t) && ParseDecimal(t) == Some(n)
    ensures Show(n) == t
  {
    ShowParse(t);
  }

  lemma FieldsOfDecoded(fs: seq<string>, op: TodoOperation)
    requires |fs| >= 1 && DecodeFields(fs) == Ok(op) && CanonicalIntegers(fs)
    ensures Fields(op) == fs
  {
    var d := op.todo;
    DecodedParts(fs, op);
    ShownField(fs[4], d.range.start.line as int);
    ShownField(fs[5], d.range.start.column as int);
    ShownField(fs[6], d.range.end.line as int);
    ShownField(fs[7], d.range.end.column as int);
    ShownField(fs[9], d.createdDate as int);
    ShownField(fs[10], d.warnDate as int);
    ShownField(fs[11], d.errorDate as int);
  }

  /** The lenient decoder never looks past the twelfth piece. */
  lemma DecodeFieldsIgnoresExtra(vec: seq<string>, extra: seq<string>)
    requires |vec| == 12
    ensures DecodeFields(vec + extra) == DecodeFields(vec)
  {
    var v := vec + extra;
    assert v[0] == vec[0];
    assert TextAt(v, 1) == TextAt(vec, 1);
    assert TextAt(v, 2) == TextAt(vec, 2);
    assert TextAt(v, 3) == TextAt(vec, 3);
    assert TextAt(v, 8) == TextAt(vec, 8);
    assert IntegerAt(v, StartLine) == IntegerAt(vec, StartLine);
    assert IntegerAt(v, StartColumn) == IntegerAt(vec, StartColumn);
    assert IntegerAt(v, EndLine) == IntegerAt(vec, EndLine);
    assert IntegerAt(v, EndColumn) == IntegerAt(vec, EndColumn);
    assert IntegerAt(v, CreatedDate) == IntegerAt(vec, CreatedDate);
    assert IntegerAt(v, WarnDate) == IntegerAt(vec, WarnDate);
    assert IntegerAt(v, ErrorDate) == IntegerAt(vec, ErrorDate);
  }

  /**
   * A record's line with a thirteenth field appended: the decoder as written
   * accepts it and returns the record, dropping the extra text; the intended
   * decoder rejects it for its field count.
   */
  lemma ExtraFieldAcceptedAsWritten(op: TodoOperation, extra: string)
    requires NulFree(op) && NUL !in extra
    ensures DecodeAsWritten(Encode(op) + [NUL] + extra) == Ok(op)
    ensures Decode(Encode(op) + [NUL] + extra) == Err(WrongFieldCount)
  {
    var s := Encode(op) + [NUL] + extra;
    JoinSnoc(Fields(op), NUL, extra);
    FieldsFree(op, NUL);
    SplitJoin(Fields(op) + [extra], NUL);
    assert Split(s, NUL) == Fields(op) + [extra];
    DecodeFieldsIgnoresExtra(Fields(op), [extra]);
    DecodeFieldsOfFields(op);
  }

  /** A line whose integer fields are written canonically is exactly the encoding of its decoding. */
  lemma EncodeOfDecode(s: string, op: TodoOperation)
    requires Decode(s) == Ok(op)
    requires CanonicalIntegers(Split(s, NUL))
    ensures Encode(op) == s
  {
    var fs := Split(s, NUL);
    assert DecodeFields(fs) == Ok(op);
    FieldsOfDecoded(fs, op);
    JoinSplit(s, NUL);
  }

  // ---------------------------------------------------------------------------
  // Merge-conflict markers

  const GIT_CONFLICT_START: string := "<<<<<<<"
  const GIT_CONFLICT_MIDDLE: string := "======="
  const GIT_CONFLICT_END: string := ">>>>>>>"

  /** A line whose first seven characters are a merge-conflict marker; a shorter line never is one. */
  predicate IsMarker(line: string) {
    |line| >= 7 &&
    (line[..7] == GIT_CONFLICT_START || line[..7] == GIT_CONFLICT_MIDDLE || line[..7] == GIT_CONFLICT_END)
  }

  /** The marker test as written, `match &line[0..7]`: None where the slice panics on a short line. */
  function MarkerTestAsWritten(line: string): Option<bool> {
    if |line| < 7 then None
    else Some(line[..7] == GIT_CONFLICT_START || line[..7] == GIT_CONFLICT_MIDDLE || line[..7] == GIT_CONFLICT_END)
  }

  // ---------------------------------------------------------------------------
  // Batch parsing

  /**
   * The lines decoded from first to last, marker lines skipped; the first
   * line that fails to decode fails the whole parse.
   */
  function ParseLines(lines: seq<string>): Result<seq<TodoOperation>, DecodeError>
    decreases |lines|
  {
    if |lines| == 0 then Ok([])
    else
      var last := lines[|lines| - 1];
      var before :- ParseLines(lines[..|lines| - 1]);
      if IsMarker(last) then Ok(before)
      else
        var op :- Decode(last);
        Ok(before + [op])
  }

  /** What `parse_operations` computes for a whole document. */
  function ParseDocument(s: string): Result<seq<TodoOperation>, DecodeError> {
    ParseLines(Lines(s))
  }

  /** Once a prefix of the lines fails, more lines do not change the outcome. */
  lemma {:induction false} ParseErrorPersists(lines: seq<string>, more: seq<string>)
    requires ParseLines(lines).Err?
    ensures ParseLines(lines + more) == ParseLines(lines)
    decreases |more|
  {
    if |more| == 0 {
      assert lines + more == lines;
    } else {
      var init := more[..|more| - 1];
      ParseErrorPersists(lines, init);
      assert (lines + more)[..|lines + more| - 1] == lines + init;
    }
  }

  /** The parse of the lines with one more at the end, in terms of the parse of the lines. */
  lemma ParseLinesSnoc(lines: seq<string>, line: string)
    ensures ParseLines(lines + [line]) ==
      match ParseLines(lines)
      case Err(e) => Err(e)
      case Ok(before) =>
        if IsMarker(line) then Ok(before)
        else match Decode(line)
          case Err(e) => Err(e)
          case Ok(op) => Ok(before + [op])
  {
    assert (lines + [line])[..|lines|] == lines;
  }

  /** The parse of one more line of a prefix, in terms of the parse of the prefix. */
  lemma ParsePrefixStep(lines: seq<string>, i: nat)
    requires i < |lines|
    ensures ParseLines(lines[..i + 1]) ==
      match ParseLines(lines[..i])
      case Err(e) => Err(e)
      case Ok(before) =>
        if IsMarker(lines[i]) then Ok(before)
        else match Decode(lines[i])
          case Err(e) => Err(e)
          case Ok(op) => Ok(before + [op])
  {
    assert lines[..i + 1] == lines[..i] + [lines[i]];
    ParseLinesSnoc(lines[..i], lines[i]);
  }

  /** `parse_operations` of `src/lib.rs`: a loop over the lines that pushes every decoded non-marker line. */
  method ParseOperations(s: string) returns (r: Result<seq<TodoOperation>, DecodeError>)
    ensures r == ParseDocument(s)
  {
    var lines := Lines(s);
    var operations: seq<TodoOperation> := [];
    for i := 0 to |lines|
      invariant ParseLines(lines[..i]) == Ok(operations)
    {
      var line := lines[i];
      ParsePrefixStep(lines, i);
      if IsMarker(line) {
        continue;
      }
      var operation := Decode(line);
      if operation.Err? {
        ParseErrorPersists(lines[..i + 1], lines[i + 1..]);
        assert lines[..i + 1] + lines[i + 1..] == lines;
        return Err(operation.error);
      }
      operations := operations + [operation.value];
    }
    assert lines[..|lines|] == lines;
    return Ok(operations);
  }
}
