# todo-operation-parser in Dafny

A model of the core of `todo-operation-parser`, the Rust crate that stores
ember-template-lint "todo" operations as text. A `TodoOperation` is an
operation type (`Add` or `Remove`) and a `TodoData` record: engine, rule id,
file path, a source range of two `i32` positions, the offending source text
and three `i64` dates. The crate has two parts.

- The record codec. `to_operation_string` writes an operation as one line of
  twelve NUL-separated fields. `operation_from_string` reads such a line back.
- The batch parser. `parse_operations` splits a document into lines. It skips
  git merge-conflict marker lines (`<<<<<<<`, `=======`, `>>>>>>>` as the
  first seven characters) and decodes every other line, in order. It exists
  twice, in `src/lib.rs` and in `src/parser.rs`, with the same loop.

Where the Rust code panics (unknown tag, missing field, bad integer), the model
returns an `Err` of `Codec.DecodeError`. A batch parse fails as a whole on its
first bad line.

Files:

- `Results.dfy` holds `Option` and `Result`.
- `Decimal.dfy` holds the `i32`/`i64` ranges. It also holds `Show`, the
  `Display` rendering of an integer, and `ParseDecimal`/`ParseInRange`, which
  are `from_str_radix(.., 10)`: an optional `+` or `-`, at least one ASCII
  digit, leading zeros allowed, and a range check for the target width.
- `Text.dfy` holds `str::split(char)` as `Split`, joining with a separator as
  `Join`, and `str::lines()` as `Lines`.
- `Codec.dfy` is `src/lib.rs`: the data model, the tag, `Encode`, `Decode`, the
  markers, the specification `ParseDocument` and the loop
  `ParseOperations`.
- `Parser.dfy` is `src/parser.rs`: its `ParseOperations` loop and the lemmas
  about what a parse returns.
- `Examples.dfy` holds the unit tests of both files that use the example
  record, stated as lemmas. The tag test (src/lib.rs:179-185) is
  `Codec.TagRoundTrip` and the round-trip test of src/parser.rs:32-38 is
  `Codec.RoundTrip`; both are in `Codec.dfy` and hold for every record.

`Decode` reads the fields in the order in which the struct literal of `operation_from_string`
evaluates them: tag, engine, rule id, file path, the four coordinates, source,
then the three dates. The first failure is the one reported. A field the line
does not have is the Rust code's out-of-bounds `vec[i]`, so it is
`WrongFieldCount`. After the twelve fields, `Decode` also requires that there
is nothing more. `operation_from_string` does not check this (see Findings).
`DecodeAsWritten` is the decoder without that check.

## Model

| member | source | states |
|---|---|---|
| Decimal.ShowNat | src/lib.rs:73-80 | the rendering of a natural number is canonical digits, and starts with `0` only for zero |
| Decimal.Show | src/lib.rs:73-80 | the `Display` rendering is canonical: digits with an optional leading `-`, present exactly for negative numbers |
| Decimal.ParseInRangeShow | src/lib.rs:100-111 | for a width whose range holds a value, `from_str_radix(.., 10)` accepts the rendering of that value and reads it back |
| Decimal.ParseShow | src/lib.rs:100-111 | parsing the rendering of any integer gives the integer back |
| Decimal.ShowParse | src/lib.rs:73-80 | rendering the value of a canonical text gives the text back |
| Text.Split | src/lib.rs:86 | splitting gives at least one piece, and no piece contains the separator |
| Text.SplitJoin | src/lib.rs:86 | splitting the join of separator-free pieces gives the pieces back |
| Text.JoinSplit | src/lib.rs:86 | joining the pieces of a split gives the text back |
| Text.JoinSnoc | src/lib.rs:64-65 | joining one more piece appends a separator and the piece |
| Text.Lines | src/lib.rs:140 | no line contains a line feed |
| Text.LinesOfJoin | src/lib.rs:140 | non-empty lines without line feeds or a trailing carriage return, joined with line feeds, split back into the same lines |
| Codec.ParseTag | src/lib.rs:33-50 | a tag is accepted exactly when it is `add` or `remove`, it is read as the operation it names, and anything else is `UnknownOperation` |
| Codec.TagRoundTrip | src/lib.rs:179-185 | reading the tag of an operation gives the operation back, and different operations have different tags |
| Codec.EncodeAsConcatenation | src/lib.rs:64-81 | the encoding is the twelve fields in order, with one NUL between each neighbouring pair |
| Codec.EncodeFieldOrder | src/lib.rs:63-81 | an encoding with NUL-free text fields splits into exactly its twelve fields, in order |
| Codec.EncodeIsOneLine | src/lib.rs:63-81 | an encoding with newline-free text fields is one non-empty line, does not end in a carriage return and is never a marker |
| Codec.IntegerAtShow | src/lib.rs:100-111 | an integer field that is present, holds the rendering of a value and whose width admits it decodes to that value |
| Codec.DecodeFieldsOk | src/lib.rs:85-114 | the Rust decoder succeeds exactly when there are at least twelve pieces, the tag is known and every integer field parses |
| Codec.DecodeSucceedsIff | src/lib.rs:85-114 | decoding succeeds exactly when the line has twelve fields, a known tag and seven integers that fit their widths |
| Codec.DecodeCopiesFields | src/lib.rs:94-111 | a decoded record has the line's tag, its four text fields verbatim and the values of its seven integer fields |
| Codec.DecodeUnknownTag | src/lib.rs:89-93 | decoding reports an unknown operation exactly when field 0 is neither `add` nor `remove` |
| Codec.DecodeBadInteger | src/lib.rs:98-111 | with a known tag, a present integer field that does not parse makes decoding fail with an invalid integer at that field or an earlier one |
| Codec.DecodeInvalidIntegerCause | src/lib.rs:98-111 | an invalid-integer failure names a present field that does not parse for its width |
| Codec.DecodeFieldCount | src/lib.rs:86-111 | a line with any number of fields but twelve fails, and the failure is the field count when nothing earlier is wrong |
| Codec.DecodeFieldsOfFields | src/lib.rs:85-114 | the Rust decoder reads the twelve fields of a record back into the record |
| Codec.RoundTrip | src/lib.rs:197-203 | decoding the encoding of a record whose text fields are NUL-free gives the record back |
| Codec.ReencodeIsStable | src/lib.rs:197-203 | encoding the decoding of an encoding gives the same line |
| Codec.DecodeEncodeDecode | src/lib.rs:85-114 | a decoded record encodes to a line that decodes to it again |
| Codec.EncodeOfDecode | src/lib.rs:63-111 | a line that decodes, with canonically written integers, is exactly the encoding of its record |
| Codec.DecodeFieldsIgnoresExtra | src/lib.rs:86-111 | the Rust decoder never looks past the twelfth piece |
| Codec.ExtraFieldAcceptedAsWritten | src/lib.rs:86-111 | a record line with a thirteenth field is accepted by the Rust decoder, which returns the record, and rejected by `Decode` for its field count |
| Codec.ParseErrorPersists | src/lib.rs:146 | once some lines fail to parse, any further lines leave the result unchanged |
| Codec.ParseOperations | src/lib.rs:137-153 | the loop computes `ParseDocument` of the text |
| Parser.ParseOperations | src/parser.rs:7-22 | the loop computes `ParseDocument` of the text |
| Parser.MarkerCharacterisation | src/parser.rs:11-14 | a line is a marker exactly when it has at least seven characters and they are all `<`, all `=` or all `>` |
| Parser.MarkerIgnoresTrailingText | src/parser.rs:11-14 | text after the first seven characters, such as `HEAD` or a branch name, does not change whether a line is a marker |
| Parser.ShortLineIsNotMarker | src/parser.rs:11 | a line shorter than seven characters is not a marker, and it is where the Rust code's slice panics |
| Parser.MarkerTestAgrees | src/parser.rs:11-14 | on lines of seven characters or more, the bounds-safe test agrees with the Rust code's slice |
| Parser.NonMarkers | src/parser.rs:10-19 | the kept lines are at most as many as the lines, are not markers and come from the document |
| Parser.NonMarkersLength | src/parser.rs:7-21 | the number of kept lines is the number of lines minus the number of marker lines |
| Parser.NonMarkersAppend | src/parser.rs:10-19 | filtering a concatenation is the concatenation of the filtered parts, so relative order is kept |
| Parser.ParseLinesOfNonMarkers | src/parser.rs:10-19 | a parse sees only the kept lines |
| Parser.MarkerLineIsTransparent | src/parser.rs:11-14 | removing a marker line from anywhere in a document does not change its parse |
| Parser.PlainParseOk | src/parser.rs:15-17 | on lines without markers, a successful parse holds the decoding of each line, in order |
| Parser.PlainParseAllOk | src/parser.rs:15-17 | on lines without markers, the parse succeeds when every line decodes |
| Parser.PlainParseFirstError | src/parser.rs:15-17 | on lines without markers, a failed parse reports the error of the first line that does not decode |
| Parser.ParseLinesDecodesEach | src/parser.rs:10-19 | a parse succeeds exactly when every kept line decodes, and then holds one record per kept line, each the decoding of that line, in order |
| Parser.ParseLinesFirstError | src/parser.rs:15-17 | a failed parse reports the error of the first kept line that does not decode, and every kept line before it decodes |
| Parser.ParseFailsOnBadLine | src/parser.rs:15-17 | a non-marker line that does not decode fails the whole parse, wherever it stands |
| Parser.ParseEncodedLines | src/parser.rs:10-19 | the encodings of storable records, as lines, parse back to the records |
| Parser.ParseEncodedDocument | src/parser.rs:40-55 | a document of encoded storable records, one per line, parses back to the records |
| Parser.MarkersBetween | src/parser.rs:57-77 | three lines with marker lines after each parse as the three lines alone |
| Parser.ConflictedDocument | src/parser.rs:57-77 | three encoded records, each followed by a marker line, parse to the three records |
| Parser.ParseLength | src/parser.rs:7-21 | a successful parse has one record per line that is not a marker |
| Examples.ExampleEncoding | src/lib.rs:187-195 | the example record encodes to exactly the line the test expects |
| Examples.ExampleDecoding | src/lib.rs:197-203 | that line decodes to the example record |
| Examples.FourCopies | src/lib.rs:205-220 | four copies of any storable record's line, joined with line feeds, parse to four copies of the record |
| Examples.ExampleFourCopies | src/parser.rs:40-55 | four copies of the example line, joined with line feeds, parse to four example records |
| Examples.ConflictedCopies | src/lib.rs:222-242 | a record's line three times, with the conflict start, middle and end lines after the copies, parses to three copies of the record |
| Examples.ExampleConflicted | src/parser.rs:57-77 | the conflicted document built from the example line parses to three example records |

## Left out

- The `nom` fragment (src/lib.rs:120-135) is not modelled. It is unfinished, does not compile and has no meaning to model.
- Panic message texts and `Debug` output are not modelled. An error names only its kind, and for an integer, the field.
- `Display` and `From<&str>` for `TodoOperation`, used by src/parser.rs:16 and src/parser.rs:35, are not defined in src/lib.rs or src/parser.rs. The model uses `Encode` and `Decode` for them.
- Strings are sequences of characters. The Rust code slices `&line[0..7]` by bytes, and that also panics when byte 7 falls inside a multi-byte character. The model takes seven characters and has no such panic.
- `Lines` strips one trailing carriage return from every line, including a last line that has no line feed after it. Recent Rust versions strip it only before a line feed.
- Owned versus borrowed strings (`String`, `&str`, `to_string`) and `Vec` growth are not modelled, since they do not change any value.
- The two `parse_operations` return `Err` where the Rust code panics. The Rust code returns no partial vector either.
- Reading or writing todo files, and applying operations, are not modelled. The crate does neither.

## Findings

| source | as written | input that shows it | evidently intended | confidence | as-written member | corrected member |
|---|---|---|---|---|---|---|
| src/lib.rs:86-111 | the decoder reads pieces 0 to 11 of the split line and never checks how many pieces there are | the encoding of a record followed by `\0extra` is a thirteen-field line, and it decodes to the record | a record line has exactly twelve fields, so the thirteen-field line is rejected | not executed | Codec.ExtraFieldAcceptedAsWritten | Codec.DecodeFieldCount |
| src/lib.rs:141 | `&line[0..7]` is taken before the comparison, so a line shorter than seven characters panics before it is decoded (src/parser.rs:11 does the same) | an empty line between two records, as in `L\n\nL`; `MarkerTestAsWritten` gives `None` on it | a short line is not a marker and goes on to decoding | not executed | Parser.ShortLineIsNotMarker | Parser.MarkerCharacterisation |
