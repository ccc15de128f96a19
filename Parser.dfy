/**
 * The batch parser of `src/parser.rs`: every line of a document that is not a
 * merge-conflict marker is decoded, in order, into the result; the first line
 * that does not decode fails the whole parse.
 */
module Parser {
  import opened Results
  import opened Text
  import opened Codec

  /** `parse_operations` of `src/parser.rs`: the same loop, converting each kept line with `into()`. */
  method ParseOperations(s: string) returns (r: Result<seq<TodoOperation>, DecodeError>)
    ensures r == ParseDocument(s)
  {
    var lines := Lines(s);
    var operations: seq<TodoOperation> := [];
    var i := 0;
    while i < |lines|
      invariant 0 <= i <= |lines|
      invariant ParseLines(lines[..i]) == Ok(operations)
    {
      var line := lines[i];
      ParsePrefixStep(lines, i);
      i := i + 1;
      if IsMarker(line) {
        continue;
      }
      if Decode(line).Err? {
        ParseErrorPersists(lines[..i], lines[i..]);
        assert lines[..i] + lines[i..] == lines;
      }
      var operation :- Decode(line);
      operations := operations + [operation];
    }
    assert lines[..|lines|] == lines;
    return Ok(operations);
  }

  // ---------------------------------------------------------------------------
  // Marker lines

  /** A line is a marker exactly when its first seven characters are all `<`, all `=` or all `>`. */
  lemma MarkerCharacterisation(line: string)
    ensures IsMarker(line) <==>
      |line| >= 7 &&
      ((forall i :: 0 <= i < 7 ==> line[i] == '<') ||
       (forall i :: 0 <= i < 7 ==> line[i] == '=') ||
       (forall i :: 0 <= i < 7 ==> line[i] == '>'))
  {
    if |line| >= 7 {
      var p := line[..7];
      assert forall i :: 0 <= i < 7 ==> p[i] == line[i];
      if forall i :: 0 <= i < 7 ==> line[i] == '<' {
        assert p == GIT_CONFLICT_START;
      }
      if forall i :: 0 <= i < 7 ==> line[i] == '=' {
        assert p == GIT_CONFLICT_MIDDLE;
      }
      if forall i :: 0 <= i < 7 ==> line[i] == '>' {
        assert p == GIT_CONFLICT_END;
      }
    }
  }

  /** Only the first seven characters count: whatever follows a marker, such as a branch name, is ignored. */
  lemma MarkerIgnoresTrailingText(line: string, rest: string)
    requires |line| >= 7
    ensures IsMarker(line + rest) == IsMarker(line)
  {
    assert (line + rest)[..7] == line[..7];
  }

  /** A line shorter than seven characters is never a marker, where the Rust code's `&line[0..7]` would panic. */
  lemma ShortLineIsNotMarker(line: string)
    requires |line| < 7
    ensures !IsMarker(line) && MarkerTestAsWritten(line) == None
  {
  }

  /** On lines of at least seven characters the bounds-safe test agrees with the Rust code's slice. */
  lemma MarkerTestAgrees(line: string)
    requires |line| >= 7
    ensures MarkerTestAsWritten(line) == Some(IsMarker(line))
  {
  }

  // ---------------------------------------------------------------------------
  // The lines that survive

  /** The lines that are not markers, in their original order. */
  function NonMarkers(lines: seq<string>): (r: seq<string>)
    ensures |r| <= |lines|
    ensures forall i :: 0 <= i < |r| ==> !IsMarker(r[i]) && r[i] in lines
    decreases |lines|
  {
    if |lines| == 0 then []
    else
      var last := lines[|lines| - 1];
      NonMarkers(lines[..|lines| - 1]) + (if IsMarker(last) then [] else [last])
  }

  function MarkerCount(lines: seq<string>): nat
    decreases |lines|
  {
    if |lines| == 0 then 0
    else MarkerCount(lines[..|lines| - 1]) + (if IsMarker(lines[|lines| - 1]) then 1 else 0)
  }

  /** As many lines survive as there are lines that are not markers. */
  lemma {:induction false} NonMarkersLength(lines: seq<string>)
    ensures MarkerCount(lines) <= |lines|
    ensures |NonMarkers(lines)| == |lines| - MarkerCount(lines)
    decreases |lines|
  {
    if |lines| > 0 {
      NonMarkersLength(lines[..|lines| - 1]);
    }
  }

  /** Filtering respects concatenation, so the surviving lines keep their relative order. */
  lemma {:induction false} NonMarkersAppend(a: seq<string>, b: seq<string>)
    ensures NonMarkers(a + b) == NonMarkers(a) + NonMarkers(b)
    decreases |b|
  {
    if |b| == 0 {
      assert a + b == a;
    } else {
      var init := b[..|b| - 1];
      NonMarkersAppend(a, init);
      assert (a + b)[..|a + b| - 1] == a + init;
    }
  }

  // ---------------------------------------------------------------------------
  // What the parse gives

  /** The parse sees only the surviving lines: markers are transparent. */
  lemma {:induction false} ParseLinesOfNonMarkers(lines: seq<string>)
    ensures ParseLines(lines) == ParseLines(NonMarkers(lines))
    decreases |lines|
  {
    if |lines| > 0 {
      var init := lines[..|lines| - 1];
      var last := lines[|lines| - 1];
      ParseLinesOfNonMarkers(init);
      assert lines == init + [last];
      ParseLinesSnoc(init, last);
      if IsMarker(last) {
        assert NonMarkers(lines) == NonMarkers(init) + [];
        assert NonMarkers(init) + [] == NonMarkers(init);
      } else {
        assert NonMarkers(lines) == NonMarkers(init) + [last];
        ParseLinesSnoc(NonMarkers(init), last);
      }
    }
  }

  /** Removing a marker line from anywhere in a document does not change its parse. */
  lemma MarkerLineIsTransparent(a: seq<string>, marker: string, b: seq<string>)
    requires IsMarker(marker)
    ensures ParseLines(a + [marker] + b) == ParseLines(a + b)
  {
    assert NonMarkers([marker]) == [] by {
      assert [marker][..0] == [];
    }
    assert NonMarkers(a + [marker] + b) == NonMarkers(a + b) by {
      NonMarkersAppend(a + [marker], b);
      NonMarkersAppend(a, [marker]);
      NonMarkersAppend(a, b);
      assert NonMarkers(a) + [] == NonMarkers(a);
    }
    ParseLinesOfNonMarkers(a + [marker] + b);
    ParseLinesOfNonMarkers(a + b);
  }

  predicate NoMarkers(lines: seq<string>) {
    forall k :: 0 <= k < |lines| ==> !IsMarker(lines[k])
  }

  /** On lines without markers, a successful parse holds the decoding of each line, in order. */
  lemma {:induction false} PlainParseOk(lines: seq<string>)
    requires NoMarkers(lines) && ParseLines(lines).Ok?
    ensures |ParseLines(lines).value| == |lines|
    ensures forall k :: 0 <= k < |lines| ==> Decode(lines[k]) == Ok(ParseLines(lines).value[k])
    decreases |lines|
  {
    if |lines| > 0 {
      var init := lines[..|lines| - 1];
      var last := lines[|lines| - 1];
      assert lines == init + [last];
      ParseLinesSnoc(init, last);
      assert ParseLines(init).Ok?;
      PlainParseOk(init);
      var ops := ParseLines(lines).value;
      var ops0 := ParseLines(init).value;
      assert ops == ops0 + [Decode(last).value];
      forall k | 0 <= k < |lines|
        ensures Decode(lines[k]) == Ok(ops[k])
      {
        if k < |init| {
          assert lines[k] == init[k] && ops[k] == ops0[k];
        }
      }
    }
  }

  /** On lines without markers, the parse succeeds when every line decodes. */
  lemma {:induction false} PlainParseAllOk(lines: seq<string>)
    requires NoMarkers(lines)
    requires forall k :: 0 <= k < |lines| ==> Decode(lines[k]).Ok?
    ensures ParseLines(lines).Ok?
    decreases |lines|
  {
    if |lines| > 0 {
      var init := lines[..|lines| - 1];
      var last := lines[|lines| - 1];
      assert lines == init + [last];
      assert forall k :: 0 <= k < |init| ==> init[k] == lines[k];
      PlainParseAllOk(init);
      ParseLinesSnoc(init, last);
    }
  }

  /** On lines without markers, a failed parse reports the error of the first line that does not decode. */
  lemma {:induction false} PlainParseFirstError(lines: seq<string>)
    requires NoMarkers(lines) && ParseLines(lines).Err?
    ensures exists k :: (0 <= k < |lines| && Decode(lines[k]) == Err(ParseLines(lines).error) &&
      (forall j :: 0 <= j < k ==> Decode(lines[j]).Ok?))
    decreases |lines|
  {
    var init := lines[..|lines| - 1];
    var last := lines[|lines| - 1];
    assert lines == init + [last];
    assert forall k :: 0 <= k < |init| ==> init[k] == lines[k];
    ParseLinesSnoc(init, last);
    if ParseLines(init).Err? {
      PlainParseFirstError(init);
      var k :| 0 <= k < |init| && Decode(init[k]) == Err(ParseLines(init).error) &&
        forall j :: 0 <= j < k ==> Decode(init[j]).Ok?;
      assert lines[k] == init[k];
    } else {
      PlainParseOk(init);
      assert Decode(lines[|init|]) == Err(ParseLines(lines).error);
    }
  }

  /** The parse succeeds exactly when every surviving line decodes, and then holds their decodings in order. */
  lemma ParseLinesDecodesEach(lines: seq<string>)
    ensures var kept := NonMarkers(lines);
      ParseLines(lines).Ok? <==> forall k :: 0 <= k < |kept| ==> Decode(kept[k]).Ok?
    ensures var kept := NonMarkers(lines);
      ParseLines(lines).Ok? ==>
        |ParseLines(lines).value| == |kept| &&
        forall k :: 0 <= k < |kept| ==> Decode(kept[k]) == Ok(ParseLines(lines).value[k])
  {
    var kept := NonMarkers(lines);
    ParseLinesOfNonMarkers(lines);
    if ParseLines(kept).Ok? {
      PlainParseOk(kept);
    } else {
      PlainParseFirstError(kept);
    }
  }

  /** A failed parse reports the error of the first surviving line that does not decode. */
  lemma ParseLinesFirstError(lines: seq<string>)
    requires ParseLines(lines).Err?
    ensures var kept := NonMarkers(lines);
      exists k :: 0 <= k < |kept| && Decode(kept[k]) == Err(ParseLines(lines).error) &&
        (forall j :: 0 <= j < k ==> Decode(kept[j]).Ok?)
  {
    ParseLinesOfNonMarkers(lines);
    PlainParseFirstError(NonMarkers(lines));
  }

  /** A line that is not a marker and does not decode fails the prefix that ends with it. */
  lemma BadLineFailsPrefix(lines: seq<string>, i: nat)
    requires i < |lines| && !IsMarker(lines[i]) && Decode(lines[i]).Err?
    ensures ParseLines(lines[..i + 1]).Err?
  {
    assert lines[..i + 1] == lines[..i] + [lines[i]];
    ParseLinesSnoc(lines[..i], lines[i]);
  }

  /** A line that is not a marker and does not decode fails the whole parse: nothing is skipped. */
  lemma ParseFailsOnBadLine(lines: seq<string>, i: nat)
    requires i < |lines| && !IsMarker(lines[i]) && Decode(lines[i]).Err?
    ensures ParseLines(lines).Err?
  {
    BadLineFailsPrefix(lines, i);
    ParseErrorPersists(lines[..i + 1], lines[i + 1..]);
    assert lines[..i + 1] + lines[i + 1..] == lines;
  }

  // ---------------------------------------------------------------------------
  // Documents of encoded records

  function EncodeAll(ops: seq<TodoOperation>): (r: seq<string>)
    ensures |r| == |ops|
  {
    seq(|ops|, i requires 0 <= i < |ops| => Encode(ops[i]))
  }

  predicate Storable(op: TodoOperation) {
    NulFree(op) && NewlineFree(op)
  }

  /** One more encoded record appends its record to the parse. */
  lemma ParseEncodedSnoc(lines: seq<string>, op: TodoOperation)
    requires Storable(op)
    ensures ParseLines(lines + [Encode(op)]) ==
      match ParseLines(lines)
      case Err(e) => Err(e)
      case Ok(before) => Ok(before + [op])
  {
    EncodeIsOneLine(op);
    RoundTrip(op);
    ParseLinesSnoc(lines, Encode(op));
  }

  lemma EncodeAllSnoc(init: seq<TodoOperation>, last: TodoOperation)
    ensures EncodeAll(init + [last]) == EncodeAll(init) + [Encode(last)]
  {
  }

  lemma ParseEncodedSnocStep(init: seq<TodoOperation>, last: TodoOperation)
    requires Storable(last) && ParseLines(EncodeAll(init)) == Ok(init)
    ensures ParseLines(EncodeAll(init + [last])) == Ok(init + [last])
  {
    EncodeAllSnoc(init, last);
    ParseEncodedSnoc(EncodeAll(init), last);
  }

  /** A non-empty sequence is its front followed by its last element. */
  lemma FrontAndLast<T>(s: seq<T>)
    requires |s| > 0
    ensures s[..|s| - 1] + [s[|s| - 1]] == s
  {
  }

  lemma ParseEncodedStep(ops: seq<TodoOperation>)
    requires |ops| > 0 && Storable(ops[|ops| - 1])
    requires ParseLines(EncodeAll(ops[..|ops| - 1])) == Ok(ops[..|ops| - 1])
    ensures ParseLines(EncodeAll(ops)) == Ok(ops)
  {
    FrontAndLast(ops);
    ParseEncodedSnocStep(ops[..|ops| - 1], ops[|ops| - 1]);
  }

  /** The encodings of records, as lines, parse back to the records. */
  lemma {:induction false} ParseEncodedLines(ops: seq<TodoOperation>)
    requires forall i :: 0 <= i < |ops| ==> Storable(ops[i])
    ensures ParseLines(EncodeAll(ops)) == Ok(ops)
    decreases |ops|
  {
    if |ops| > 0 {
      var init := ops[..|ops| - 1];
      assert forall i :: 0 <= i < |init| ==> init[i] == ops[i];
      ParseEncodedLines(init);
      ParseEncodedStep(ops);
    }
  }

  /** A document of encoded records, one per line, parses back to the records. */
  lemma ParseEncodedDocument(ops: seq<TodoOperation>)
    requires forall i :: 0 <= i < |ops| ==> Storable(ops[i])
    ensures ParseDocument(Join(EncodeAll(ops), '\n')) == Ok(ops)
  {
    if ops == [] {
      assert Join(EncodeAll(ops), '\n') == "";
    } else {
      forall i | 0 <= i < |ops|
        ensures PlainLine(EncodeAll(ops)[i])
      {
        EncodeIsOneLine(ops[i]);
      }
      LinesOfJoin(EncodeAll(ops));
      ParseEncodedLines(ops);
    }
  }

  /** Three lines separated by marker lines, as a merge conflict leaves them, parse as the three lines alone. */
  lemma MarkersBetween(la: string, start: string, lb: string, middle: string, lc: string, end: string)
    requires IsMarker(start) && IsMarker(middle) && IsMarker(end)
    ensures ParseLines([la, start, lb, middle, lc, end]) == ParseLines([la, lb, lc])
  {
    MarkerLineIsTransparent([la], start, [lb, middle, lc, end]);
    assert [la] + [start] + [lb, middle, lc, end] == [la, start, lb, middle, lc, end];
    assert [la] + [lb, middle, lc, end] == [la, lb, middle, lc, end];
    MarkerLineIsTransparent([la, lb], middle, [lc, end]);
    assert [la, lb] + [middle] + [lc, end] == [la, lb, middle, lc, end];
    assert [la, lb] + [lc, end] == [la, lb, lc, end];
    MarkerLineIsTransparent([la, lb, lc], end, []);
    assert [la, lb, lc] + [end] + [] == [la, lb, lc, end];
    assert [la, lb, lc] + [] == [la, lb, lc];
  }

  /**
   * A document holding the encodings of three records with marker lines after
   * the first, second and third, as a merge conflict leaves it, parses to the
   * three records.
   */
  lemma ConflictedDocument(a: TodoOperation, b: TodoOperation, c: TodoOperation,
                           start: string, middle: string, end: string)
    requires Storable(a) && Storable(b) && Storable(c)
    requires IsMarker(start) && IsMarker(middle) && IsMarker(end)
    requires PlainLine(start) && PlainLine(middle) && PlainLine(end)
    ensures ParseDocument(Join([Encode(a), start, Encode(b), middle, Encode(c), end], '\n')) == Ok([a, b, c])
  {
    var la, lb, lc := Encode(a), Encode(b), Encode(c);
    EncodeIsOneLine(a);
    EncodeIsOneLine(b);
    EncodeIsOneLine(c);
    ThreeEncoded(a, b, c);
    SixLines(la, start, lb, middle, lc, end);
    MarkersBetween(la, start, lb, middle, lc, end);
  }

  lemma SixLines(la: string, start: string, lb: string, middle: string, lc: string, end: string)
    requires PlainLine(la) && PlainLine(start) && PlainLine(lb)
    requires PlainLine(middle) && PlainLine(lc) && PlainLine(end)
    ensures Lines(Join([la, start, lb, middle, lc, end], '\n')) == [la, start, lb, middle, lc, end]
  {
    LinesOfJoin([la, start, lb, middle, lc, end]);
  }

  lemma EncodeThree(a: TodoOperation, b: TodoOperation, c: TodoOperation)
    ensures EncodeAll([a, b, c]) == [Encode(a), Encode(b), Encode(c)]
  {
  }

  lemma ThreeEncoded(a: TodoOperation, b: TodoOperation, c: TodoOperation)
    requires Storable(a) && Storable(b) && Storable(c)
    ensures ParseLines([Encode(a), Encode(b), Encode(c)]) == Ok([a, b, c])
  {
    var ops := [a, b, c];
    assert forall i :: 0 <= i < |ops| ==> Storable(ops[i]);
    ParseEncodedLines(ops);
    EncodeThree(a, b, c);
  }

  /** The output has one record per line that is not a marker. */
  lemma ParseLength(s: string)
    requires ParseDocument(s).Ok?
    ensures |ParseDocument(s).value| == |Lines(s)| - MarkerCount(Lines(s))
  {
    ParseLinesDecodesEach(Lines(s));
    NonMarkersLength(Lines(s));
  }
}
