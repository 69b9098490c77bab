# http-header-parser in Dafny

A model of the core of `camoo/http-header-parser`, a PHP library that reads the
head of an HTTP message: a start-line followed by `Name: value` field lines.
The model covers three parts:

- `AbstractHttpParser` splits the raw text on line feeds and skips
  whitespace-only lines. A field line goes to `addField`, which cuts it with
  `splitRawLine`. Any other line goes to `addHeader`, which checks its first
  three space-separated tokens and stores a header built from them.
  `get(name)` renders the stored entry: a list is trimmed value by value and
  joined with line feeds, and a single field is returned as stored.
- `HttpFieldCollection` is a name-keyed table. Each name holds one field, or an
  ordered list once the name has been added twice: the first duplicate promotes
  the stored field to a two-element list, and later ones append. `get` and
  `delete` fail on an absent name. The constructor keeps only the last field of
  each name.
- `HttpResponseHeader` is a mutable record of protocol, status code and reason
  message, with getters and fluent setters.

Layout, one module per file:

- `results.dfy` (`Results`): `Option`, `Result`, and `Outcome` (pass or fail with an error), standing in for exceptions.
- `text.dfy` (`Text`): PHP's `explode`, `implode` and `trim`, with the facts the parser relies on.
- `fields.dfy` (`Fields`):
  - `Field`, `Entry = Single | Many`, and the pure table operations `Added`, `AddAll` and `LastWins`;
  - the `FieldCollection` class, whose methods update a `map` field.
- `headers.dfy` (`Headers`): the `Header` datatype (request or response start-line) and the `HttpResponseHeader` class.
- `parser.dfy` (`Parser`):
  - one loop iteration (`Step`) and the loop as a fold over the lines (`ExtractLines`);
  - the `HttpParser` class. Its `Extract` method is the imperative loop, proved equal to `ExtractLines`.
- `parser_properties.dfy` (`ParserProperties`): what a pass does.
  - Blank lines are skipped.
  - Lines are processed in order.
  - The first rejected start-line stops the pass.
  - Fields accumulate.
  - The last start-line decides the header.
- `line_shapes.dfy` (`LineShapes`): how one line is cut, stated for lines built from known pieces.
- `parse_outcomes.dfy` (`ParseOutcomes`): a pass keeps every stored value on a single line if all of them were before, so a rendered list then splits back into its trimmed values.
- `scenarios.dfy` (`Scenarios`): concrete messages and what the model makes of them.

Things the validation code decides are parameters of the model. They sit in a
`Config` value that each parser carries:

- `isField` decides whether a line is a field line. The model assumes only that
  every line it accepts contains a colon; its type says so.
- `checkHeader` checks the three start-line tokens. When it answers false, the
  pass fails with `BadFormat`.
- `kind` says which `Header` variant the concrete parser's `setHttpHeader` builds.

A sample start-line rule, "all three tokens non-empty", is available as
`Parser.ThreeNonEmpty`.

Three behaviours of the code are easy to miss:

- **Constructor.** The `HttpFieldCollection` constructor keeps the last field
  of each name; it does not promote duplicates as `add` does.
  `Fields.LastWinsIsNotRepeatedAdd` shows that the two differ.
- **Field value.** `splitRawLine` cuts a line at every separator, and
  `addField` keeps only the first two pieces. A value that itself contains the
  separator is therefore cut short. `LineShapes.FieldOfDropsLaterPieces` and
  `Scenarios.HostPortLosesPort` show this.
- **Line endings.** The code splits on `\n` only, so a `\r` stays on the line.
  `Scenarios.CarriageReturnStays` shows this.

## Model

| member | source | states |
|---|---|---|
| Text.Trim | src/AbstractHttpParser.php:75 | PHP `trim` with its default character set; its properties are `Text.TrimShape` and `Text.TrimUnchanged` |
| Text.Explode | src/AbstractHttpParser.php:73 | PHP `explode`: always at least one piece; its properties are `Text.JoinExplode`, `Text.ExplodeSplits` and `Text.ExplodePiecesFree` |
| Text.Join | src/AbstractHttpParser.php:48 | PHP `implode`; its round trip with `explode` is `Text.ExplodeJoin` |
| Text.TrimShape | src/AbstractHttpParser.php:75 | `trim` keeps one contiguous slice of the line, dropping only PHP's default trim characters on either side; the result is empty exactly when every character is one of them, and it contains no character the line lacks |
| Text.TrimLeftShape | src/AbstractHttpParser.php:75 | the leading-run part of `trim` leaves a suffix, drops only trim characters and stops at the first other one |
| Text.TrimRightShape | src/AbstractHttpParser.php:75 | the trailing-run part of `trim` leaves a prefix, drops only trim characters and stops at the last other one |
| Text.JoinExplode | src/AbstractHttpParser.php:73 | `explode` loses nothing: joining its pieces with the separator gives back the string |
| Text.ExplodeSplits | src/AbstractHttpParser.php:106-110 | `explode` gives more than one piece exactly when `strpos` finds the separator |
| Text.ExplodeWithout | src/AbstractHttpParser.php:107 | a string without the separator explodes to itself alone |
| Text.ExplodeAfterPiece | src/AbstractHttpParser.php:107 | the first piece ends at the leftmost occurrence of the separator, and the rest is the explode of what follows |
| Text.ExplodeJoin | src/AbstractHttpParser.php:73 | exploding on a one-character separator inverts `implode` of pieces that lack that character |
| Text.ExplodePiecesFree | src/AbstractHttpParser.php:107 | `explode` cuts at every occurrence: no piece contains the separator |
| Text.PieceChars | src/AbstractHttpParser.php:107 | every character of a piece is a character of the exploded string |
| Text.FirstPieceIsPrefix | src/AbstractHttpParser.php:97 | the first piece, the field name, is a prefix of the line |
| Text.JoinKeepsChars | src/AbstractHttpParser.php:48 | `implode` keeps every character of every piece |
| Text.JoinChars | src/AbstractHttpParser.php:48 | every character of an `implode` comes from a piece or from the separator |
| Text.MissingCharNoSep | src/AbstractHttpParser.php:106 | a string lacking one character of the separator does not contain it |
| Text.TrimUnchanged | src/AbstractHttpParser.php:46 | a string that neither starts nor ends with a trim character is its own trim |
| Fields.Added | src/Entity/HttpFieldCollection.php:28-41 | `add` adds the field's name to the keys, appends the field to the fields stored under it, leaves every other name's entry unchanged, and keeps the collection invariant |
| Fields.AddedEntry | src/Entity/HttpFieldCollection.php:30-40 | a new name stores a single field; the first duplicate turns it into the list `[old, new]`; a list gets the new field appended; the entry is single exactly when the name was absent |
| Fields.AddAll | src/Entity/HttpFieldCollection.php:28-41 | `add` applied to each field in turn; its properties are `Fields.AddAllValues`, `Fields.AddAllAppend` and `Fields.AddAllWellFormed` |
| Fields.AddAllValues | src/Entity/HttpFieldCollection.php:28-41 | repeated `add` never drops a value: the fields under a name are the earlier ones followed by the added ones with that name, in order |
| Fields.AddAllAppend | src/Entity/HttpFieldCollection.php:28-41 | adding two runs of fields in turn is adding their concatenation |
| Fields.AddAllWellFormed | src/Entity/HttpFieldCollection.php:30-40 | repeated `add` keeps the invariant: every field stored under a name has that name, and every list holds at least two fields |
| Fields.LastWins | src/Entity/HttpFieldCollection.php:20-26 | the table the constructor builds; its properties are `Fields.LastWinsKeys`, `Fields.LastWinsLast` and `Fields.LastWinsWellFormed` |
| Fields.LastWinsKeys | src/Entity/HttpFieldCollection.php:20-26 | the constructor stores exactly the names of the given fields |
| Fields.LastWinsFromInput | src/Entity/HttpFieldCollection.php:23-25 | each name stores a single field taken from the input |
| Fields.LastWinsLast | src/Entity/HttpFieldCollection.php:23-25 | the field stored under a name is the last input field with that name |
| Fields.LastWinsWellFormed | src/Entity/HttpFieldCollection.php:20-26 | the constructor's table satisfies the collection invariant |
| Fields.LastWinsIsNotRepeatedAdd | src/Entity/HttpFieldCollection.php:20-41 | for two fields with one name the constructor keeps only the second, `add` keeps both as a list, so the two differ |
| Fields.FieldCollection.constructor | src/Entity/HttpFieldCollection.php:20-26 | the loop builds the last-wins table, which is well formed |
| Fields.FieldCollection.FromFieldArray | src/Entity/HttpFieldCollection.php:62-65 | a fresh collection built as the constructor builds it |
| Fields.FieldCollection.Add | src/Entity/HttpFieldCollection.php:28-41 | the table becomes `Added` of the old table, and the invariant is kept |
| Fields.FieldCollection.Delete | src/Entity/HttpFieldCollection.php:46-50 | fails with not-found, changing nothing, exactly when the key is absent; otherwise removes exactly that key |
| Fields.FieldCollection.Get | src/Entity/HttpFieldCollection.php:55-60 | the stored entry, or not-found for an absent key; the table is not modified |
| Fields.FieldCollection.CheckKeyExists | src/Entity/HttpFieldCollection.php:70-75 | passes exactly when the key is present, and otherwise fails with not-found carrying the key |
| Headers.MakeHeader | src/AbstractHttpParser.php:101 | the header variant is chosen by the parser kind, and the three tokens are stored in the order passed |
| Headers.HttpResponseHeader.constructor | src/Entity/HttpResponseHeader.php:25-30 | protocol, code and message are stored exactly as given |
| Headers.HttpResponseHeader.GetProtocol | src/Entity/HttpResponseHeader.php:32-35 | returns the stored protocol |
| Headers.HttpResponseHeader.SetProtocol | src/Entity/HttpResponseHeader.php:37-42 | changes only the protocol, and returns the same object |
| Headers.HttpResponseHeader.GetCode | src/Entity/HttpResponseHeader.php:44-47 | returns the stored code, which stays text |
| Headers.HttpResponseHeader.SetCode | src/Entity/HttpResponseHeader.php:49-54 | changes only the code, and returns the same object |
| Headers.HttpResponseHeader.GetMessage | src/Entity/HttpResponseHeader.php:56-59 | returns the stored message |
| Headers.HttpResponseHeader.SetMessage | src/Entity/HttpResponseHeader.php:61-66 | changes only the message, and returns the same object |
| Headers.SettersThenGetters | src/Entity/HttpResponseHeader.php:25-66 | after the constructor and then `setCode`, `setProtocol` and `setMessage` in turn, the getters read back after each setter return the value most recently stored for that field: each setter changes its own field and leaves the other two alone |
| Parser.Lines | src/AbstractHttpParser.php:73 | the raw text split on line feed; see `LineShapes.LinesOfJoin` and `LineShapes.LinesHaveNoLineFeed` |
| Parser.IsBlank | src/AbstractHttpParser.php:75 | a line whose trim is empty; by `Text.TrimShape`, one made only of trim characters |
| Text.Contains | src/AbstractHttpParser.php:106 | `strpos($line, $sep) !== false`: some index starts an occurrence of the separator; `Text.ExplodeSplits` ties it to `explode` giving more than one piece |
| Parser.SplitRawLine | src/AbstractHttpParser.php:103-115 | `splitRawLine`; its shape is `Parser.SplitRawLineShape` |
| Parser.FieldOf | src/AbstractHttpParser.php:97 | the first two pieces of `splitRawLine` as name and value; see `LineShapes.FieldOfColonSpace`, `LineShapes.FieldOfColonOnly` and `LineShapes.FieldOfDropsLaterPieces` |
| Parser.HeaderOf | src/AbstractHttpParser.php:87-93 | `addHeader` on one line; its outcome for a line of tokens is `LineShapes.HeaderOfTokens` |
| Parser.Step | src/AbstractHttpParser.php:74-83 | one iteration of the loop; see `ParserProperties.AcceptedSteps`, `ParserProperties.StepFields` and `ParserProperties.SkipBlank` |
| Parser.ExtractLines | src/AbstractHttpParser.php:71-84 | the pass over the lines; `Parser.HttpParser.Extract` is proved equal to it, and its properties are in `ParserProperties` |
| Parser.FieldText | src/AbstractHttpParser.php:45-51 | how `get` renders an entry; see `LineShapes.ListTextRoundTrip` |
| Parser.Lookup | src/AbstractHttpParser.php:42-52 | `get` on the table: the rendered entry or not-found; `Parser.HttpParser.Get` returns it |
| Parser.SplitRawLineShape | src/AbstractHttpParser.php:103-115 | no pieces exactly when the line has no colon, otherwise at least two that join back into the line with the separator chosen (": " when it occurs, else ":"); with ":" no piece has a colon |
| Parser.StartTokens | src/AbstractHttpParser.php:89-90 | padding and cutting leave exactly three start-line tokens |
| Parser.HttpParser.constructor | src/AbstractHttpParser.php:31-34 | the given collection is shared; without one, a fresh empty collection is used; no header yet |
| Parser.HttpParser.Parse | src/AbstractHttpParser.php:36-39 | stores the text; the state reached is the pass over its lines from the earlier state, completed or stopped with the error |
| Parser.HttpParser.Process | src/AbstractHttpParser.php:60-64 | as `Parse`: stores the raw text, then runs the pass |
| Parser.HttpParser.SetHttpRaw | src/AbstractHttpParser.php:117-122 | stores the raw text, and returns the same parser |
| Parser.HttpParser.Extract | src/AbstractHttpParser.php:71-84 | the loop ends in the state of the pass over the lines of the raw text; it fails exactly when the pass stops at a rejected start-line |
| Parser.HttpParser.AddHeader | src/AbstractHttpParser.php:87-93 | stores the header built from the first three tokens when they pass the check; otherwise fails with bad-format, leaving the header alone |
| Parser.HttpParser.AddField | src/AbstractHttpParser.php:95-99 | adds the field cut from the line to the collection, keeping its invariant |
| Parser.HttpParser.SetHttpHeader | src/AbstractHttpParser.php:101 | replaces the header with the one of the parser's kind built from the three tokens |
| Parser.HttpParser.Get | src/AbstractHttpParser.php:42-52 | the rendered entry: a list trimmed and joined with line feeds, a single field as stored; not-found for an absent name |
| Parser.HttpParser.GetHeader | src/AbstractHttpParser.php:54-57 | the stored header, absent before a start-line was accepted |
| ParserProperties.FirstWhereIsFirst | src/AbstractHttpParser.php:74-82 | no line before the first match satisfies the test, and the line at it does |
| ParserProperties.AcceptedSteps | src/AbstractHttpParser.php:78-82 | only a start-line that fails the check makes an iteration fail |
| ParserProperties.ExtractSkipsBlankLines | src/AbstractHttpParser.php:75-77 | whitespace-only lines change neither the header nor the collection: the pass over all lines equals the pass over the non-blank ones |
| ParserProperties.SkipBlank | src/AbstractHttpParser.php:75-77 | a blank first line is skipped |
| ParserProperties.ExtractAppend | src/AbstractHttpParser.php:73-83 | lines are processed once each in input order: the pass over `a + b` is the pass over `a`, then, when it completes, the pass over `b` from where it ended |
| ParserProperties.FoldStopsAtFirst | src/AbstractHttpParser.php:74-83 | a loop whose body fails exactly on matching lines runs the lines before the first match and stops there with the error |
| ParserProperties.ExtractStopsAtRejected | src/AbstractHttpParser.php:78-92 | the pass is the completed pass over the lines before the first rejected start-line, aborted with bad-format exactly when such a line exists |
| ParserProperties.FoldAddsInOrder | src/AbstractHttpParser.php:74-83 | a loop whose iterations add fields adds those of the lines before the first failing one, in order |
| ParserProperties.ExtractAddsFieldsInOrder | src/AbstractHttpParser.php:73-83 | the field lines before the first rejected start-line reach the collection once each, in order, and remain after an abort |
| ParserProperties.StepFields | src/AbstractHttpParser.php:75-82 | an iteration adds the field of a field line and nothing for any other line |
| ParserProperties.FieldLineAdds | src/AbstractHttpParser.php:78-79 | a field line adds the field cut from it and leaves the header alone |
| ParserProperties.OtherLineKeepsFields | src/AbstractHttpParser.php:75-82 | a blank line or a start-line leaves the collection alone |
| ParserProperties.ExtractHeaderFromLastStartLine | src/AbstractHttpParser.php:78-92 | when the pass completes, the header is built from the last start-line, or is the earlier header when there is none |
| ParserProperties.ExtractKeepsEarlierValues | src/AbstractHttpParser.php:60-64 | a second `parse` adds on top of the collection: earlier values stay first under each name, then the new ones in order |
| ParserProperties.LastStartLine | src/AbstractHttpParser.php:78-82 | the last start-line among the lines: the line it picks is one of the lines and is a start-line |
| ParserProperties.LastStartLineIsLast | src/AbstractHttpParser.php:78-82 | there is no pick exactly when no line is a start-line; otherwise the pick is a start-line at some index after which no line is a start-line |
| LineShapes.LinesOfJoin | src/AbstractHttpParser.php:73 | lines are split on line feed only: lines without line feeds come back unchanged, carriage returns included |
| LineShapes.LinesHaveNoLineFeed | src/AbstractHttpParser.php:73 | no line of the raw text contains a line feed |
| LineShapes.StartTokensOf | src/AbstractHttpParser.php:89-90 | the tokens are the first three space-separated words, padded with empty strings; later words are dropped |
| LineShapes.HeaderOfTokens | src/AbstractHttpParser.php:89-92 | the header is built from those three tokens when they pass the check, otherwise bad-format |
| LineShapes.FieldOfColonSpace | src/AbstractHttpParser.php:103-107 | `Name: value` stores exactly that name and that value, untrimmed |
| LineShapes.NameHasNoSeparator | src/AbstractHttpParser.php:106-107 | no ": " starts inside a colon-free name |
| LineShapes.PieceHasNoSeparator | src/AbstractHttpParser.php:106-107 | no ": " starts inside a piece that contains none, even one ending in a colon |
| LineShapes.FieldOfDropsLaterPieces | src/AbstractHttpParser.php:97-107 | for a colon-free name and any value without ": " (colons allowed), only the piece between the first and the second ": " is stored; what follows is dropped |
| LineShapes.FieldOfColonOnly | src/AbstractHttpParser.php:109-111 | without ": " the line is cut at every colon, and the first two pieces are the name and the value |
| LineShapes.ListTextRoundTrip | src/AbstractHttpParser.php:45-48 | splitting a rendered list on line feeds gives back its trimmed values, in insertion order |
| ParseOutcomes.FieldOfChars | src/AbstractHttpParser.php:97-111 | a stored value is made of characters of its line |
| ParseOutcomes.FieldsInFromLines | src/AbstractHttpParser.php:75-79 | each field added is the field cut from one of the lines that is non-blank and accepted by `isField` |
| ParseOutcomes.FieldsOfSingleLines | src/AbstractHttpParser.php:73-79 | fields cut from lines without line feeds have none in their values |
| ParseOutcomes.AddAllKeepsSingleLine | src/Entity/HttpFieldCollection.php:28-41 | adding single-line fields keeps every stored value on one line |
| ParseOutcomes.ParseKeepsSingleLine | src/AbstractHttpParser.php:73-83 | a pass keeps every stored value on one line if all of them were before |
| ParseOutcomes.ParsedListRendersLines | src/AbstractHttpParser.php:42-52 | after a pass over a collection whose values were single lines, `get` on a list entry renders one line per stored field: it splits back into the trimmed values |
| Scenarios.ReasonPhraseTruncated | src/AbstractHttpParser.php:89-92 | `HTTP/1.1 404 Not Found` yields the message `Not` |
| Scenarios.ShortStartLineRejected | src/AbstractHttpParser.php:89-91 | `GET /` is padded to `GET`, `/`, the empty token, which the sample rule `Parser.ThreeNonEmpty` rejects |
| Scenarios.HostPortLosesPort | src/AbstractHttpParser.php:109-111 | `Host:localhost:8080` stores the value `localhost` |
| Scenarios.CarriageReturnStays | src/AbstractHttpParser.php:73 | with CR LF endings each line keeps its `\r`, and a single field returns it in its value |
| Scenarios.SingleRawListTrimmed | src/AbstractHttpParser.php:45-51 | a single ` 1 ` comes back untrimmed; after a second value the list comes back as `1\n2` |
| Scenarios.RepeatedFieldAfterRequestLine | src/AbstractHttpParser.php:71-99 | `GET / HTTP/1.1\nX: 1\nX: 2\n` yields the request header and `get("X") == "1\n2"` |
| Scenarios.RequestWithOneField | src/AbstractHttpParser.php:71-99 | `METHOD PATH PROTOCOL\nName: value\n` yields the request header with those tokens, and `get(Name)` returns `value` |

## Left out

- `HttpDataValidation::isField` and `checkHeaderOrRaiseError` are not part of this model. They are the `isField` and `checkHeader` parameters of `Config`. The only thing assumed of `isField` is that a line it accepts contains a colon.
- A line that `isField` accepts without a colon is excluded by that assumption. The source would destructure an empty array there, giving two nulls; `HttpField` is outside this model, so what `fromKeyAndValue` does with two nulls is left open (with `string` parameters PHP raises a `TypeError`).
- `HttpField`, `HttpHeaderInterface` and the concrete parser subclasses are not part of this model:
  - a field is the `Field(name, value)` datatype;
  - `setHttpHeader` is the `kind` parameter choosing the `Header` variant;
  - the parser keeps the header as a `Header` value, not as an `HttpResponseHeader` object.
- Parser.HttpParser.GetHeader: before a start-line has been accepted, `$httpHeader` (src/AbstractHttpParser.php:21, untyped) still holds null, and returning it as `HttpHeaderInterface` (src/AbstractHttpParser.php:54) raises a `TypeError`. The model returns `None` instead.
- PHP's conversion of numeric-string array keys to integers is not modelled; names are plain strings.
- `preg_split('/ /')` is modelled as `explode` on a single space, which splits the same way.
- PHP arrays keep key insertion order and a `map` does not; PHP strings are bytes and the model's are characters. Neither is observable in this core: nothing iterates the table, and every separator and trim character is ASCII.
- There is no I/O, concurrency or floating point in this core.
