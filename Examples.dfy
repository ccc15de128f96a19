/**
 * The unit tests of `src/lib.rs` and `src/parser.rs` that use the example
 * record, stated as lemmas about the model: its encoding, its decoding and the
 * two example documents. The tag test and the round-trip test hold for every
 * record and are `Codec.TagRoundTrip` and `Codec.RoundTrip`.
 */
module Examples {
  import opened Results
  import opened Decimal
  import opened Text
  import opened Codec
  import opened Parser

  function Example(): TodoOperation {
    TodoOperation(Add, TodoData(
      "ember-template-lint", "bare-strings", "some/path/here",
      Range(Position(0, 0), Position(0, 5)),
      "hello", 1000, 0, 0))
  }

  // The next six lemmas only cut the example's string literals into pieces,
  // so that the lemmas about the example record need not compare long literals.

  lemma ExampleHeadSplit()
    ensures "add\0ember-template-lint\0bare-strings\0some/path/here\0" == "add\0ember-template-lint\0" + "bare-strings\0some/path/here\0"
  {
  }

  lemma ExampleHeadParts()
    ensures "add" + "\0" + ("ember-template-lint" + "\0") == "add\0ember-template-lint\0"
    ensures "bare-strings" + "\0" + ("some/path/here" + "\0") == "bare-strings\0some/path/here\0"
  {
  }

  lemma ExampleLineHead()
    ensures "add" + "\0" + ("ember-template-lint" + "\0" + ("bare-strings" + "\0" + ("some/path/here" + "\0"))) == "add\0ember-template-lint\0bare-strings\0some/path/here\0"
  {
    ExampleHeadSplit();
    ExampleHeadParts();
    var a := "add" + "\0";
    var b := "ember-template-lint" + "\0";
    var c := "bare-strings" + "\0" + ("some/path/here" + "\0");
    assert a + (b + c) == (a + b) + c;
  }

  lemma ExampleLineTail()
    ensures "0" + "\0" + ("0" + "\0" + ("0" + "\0" + ("5" + "\0" + (
       "hello" + "\0" + ("1000" + "\0" + ("0" + "\0" + "0")))))) == "0\00\00\05\0hello\01000\00\00"
  {
  }

  lemma ExampleLineSplit()
    ensures "add\0ember-template-lint\0bare-strings\0some/path/here\00\00\00\05\0hello\01000\00\00" == "add\0ember-template-lint\0bare-strings\0some/path/here\0" + "0\00\00\05\0hello\01000\00\00"
  {
  }

  lemma ExampleLineChunks()
    ensures var z := [NUL];
      "add\0ember-template-lint\0bare-strings\0some/path/here\00\00\00\05\0hello\01000\00\00" ==
      "add" + z + ("ember-template-lint" + z + ("bare-strings" + z + ("some/path/here" + z + (
      "0" + z + ("0" + z + ("0" + z + ("5" + z + ("hello" + z + ("1000" + z + ("0" + z + "0"))))))))))
  {
    ExampleLineSplit();
    ExampleLineHead();
    ExampleLineTail();
    var z := [NUL];
    assert z == "\0";
    var tail := "0" + z + ("0" + z + ("0" + z + ("5" + z + (
      "hello" + z + ("1000" + z + ("0" + z + "0"))))));
    assert "add" + z + ("ember-template-lint" + z + ("bare-strings" + z + ("some/path/here" + z))) + tail
        == "add" + z + ("ember-template-lint" + z + ("bare-strings" + z + ("some/path/here" + z + tail)));
  }

  lemma ExampleShows()
    ensures Show(0) == "0" && Show(5) == "5" && Show(1000) == "1000"
  {
    assert ShowNat(10) == "1" + "0";
    assert ShowNat(100) == "10" + "0";
  }

  lemma ExampleFields()
    ensures var z := [NUL];
      Encode(Example()) ==
      "add" + z + ("ember-template-lint" + z + ("bare-strings" + z + ("some/path/here" + z + (
      "0" + z + ("0" + z + ("0" + z + ("5" + z + ("hello" + z + ("1000" + z + ("0" + z + "0"))))))))))
  {
    ExampleShows();
    EncodeAsConcatenation(Example());
  }

  /** The example record encodes to the exact line the test at src/lib.rs:188-195 expects. */
  lemma ExampleEncoding()
    ensures Encode(Example()) == "add\0ember-template-lint\0bare-strings\0some/path/here\00\00\00\05\0hello\01000\00\00"
  {
    ExampleLineChunks();
    ExampleFields();
  }

  /** The example line decodes to the example record. */
  lemma ExampleDecoding()
    ensures Decode("add\0ember-template-lint\0bare-strings\0some/path/here\00\00\00\05\0hello\01000\00\00") == Ok(Example())
  {
    ExampleEncoding();
    ExampleNulFree();
    DecodeEncoded(Example(), "add\0ember-template-lint\0bare-strings\0some/path/here\00\00\00\05\0hello\01000\00\00");
  }

  lemma ExampleNulFree()
    ensures NulFree(Example())
  {
  }

  lemma DecodeEncoded(op: TodoOperation, line: string)
    requires NulFree(op) && line == Encode(op)
    ensures Decode(line) == Ok(op)
  {
    RoundTrip(op);
  }

  lemma ExampleNewlineFree()
    ensures NewlineFree(Example())
  {
  }

  lemma ExampleStorable()
    ensures Storable(Example())
  {
    ExampleNulFree();
    ExampleNewlineFree();
  }

  lemma FourCopies(op: TodoOperation)
    requires Storable(op)
    ensures var line := Encode(op);
      ParseDocument(Join([line, line, line, line], '\n')) == Ok([op, op, op, op])
  {
    assert EncodeAll([op, op, op, op]) == [Encode(op), Encode(op), Encode(op), Encode(op)];
    ParseEncodedDocument([op, op, op, op]);
  }

  /** Four copies of the example line, joined with line feeds, parse to four example records. */
  lemma ExampleFourCopies()
    ensures var line := Encode(Example());
      ParseDocument(Join([line, line, line, line], '\n')) == Ok([Example(), Example(), Example(), Example()])
  {
    ExampleStorable();
    FourCopies(Example());
  }

  /** Six lines with a line feed between neighbours are the six lines joined. */
  lemma SixJoined(l0: string, l1: string, l2: string, l3: string, l4: string, l5: string)
    ensures l0 + "\n" + l1 + "\n" + l2 + "\n" + l3 + "\n" + l4 + "\n" + l5 == Join([l0, l1, l2, l3, l4, l5], '\n')
  {
    var nl := "\n";
    assert nl == ['\n'];
    JoinCons(l4, [l5], '\n');
    assert [l4] + [l5] == [l4, l5];
    JoinCons(l3, [l4, l5], '\n');
    assert [l3] + [l4, l5] == [l3, l4, l5];
    JoinCons(l2, [l3, l4, l5], '\n');
    assert [l2] + [l3, l4, l5] == [l2, l3, l4, l5];
    JoinCons(l1, [l2, l3, l4, l5], '\n');
    assert [l1] + [l2, l3, l4, l5] == [l1, l2, l3, l4, l5];
    JoinCons(l0, [l1, l2, l3, l4, l5], '\n');
    assert [l0] + [l1, l2, l3, l4, l5] == [l0, l1, l2, l3, l4, l5];
  }

  lemma ConflictMarkers()
    ensures IsMarker("<<<<<<< HEAD") && IsMarker("=======") && IsMarker(">>>>>>> whatever")
    ensures PlainLine("<<<<<<< HEAD") && PlainLine("=======") && PlainLine(">>>>>>> whatever")
  {
    assert "<<<<<<< HEAD"[..7] == GIT_CONFLICT_START;
    assert ">>>>>>> whatever"[..7] == GIT_CONFLICT_END;
    assert "======="[..7] == GIT_CONFLICT_MIDDLE;
  }

  lemma ConflictedCopies(op: TodoOperation)
    requires Storable(op)
    ensures var line := Encode(op);
      ParseDocument(line + "\n" + "<<<<<<< HEAD" + "\n" + line + "\n" + "=======" + "\n" + line + "\n" + ">>>>>>> whatever")
        == Ok([op, op, op])
  {
    var line := Encode(op);
    SixJoined(line, "<<<<<<< HEAD", line, "=======", line, ">>>>>>> whatever");
    ConflictMarkers();
    ConflictedDocument(op, op, op, "<<<<<<< HEAD", "=======", ">>>>>>> whatever");
  }

  /**
   * The example line three times, after the first copy the start of a merge
   * conflict, after the second its middle and after the third its end, parses
   * to three example records.
   */
  lemma ExampleConflicted()
    ensures var line := Encode(Example());
      ParseDocument(line + "\n" + "<<<<<<< HEAD" + "\n" + line + "\n" + "=======" + "\n" + line + "\n" + ">>>>>>> whatever")
        == Ok([Example(), Example(), Example()])
  {
    ExampleStorable();
    ConflictedCopies(Example());
  }
}
