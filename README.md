# rust-json validator, modelled in Dafny

This project models the JSON validator of the `rust-json` repository: the
grapheme-indexed document reader `UTF8Reader` (src/utils.rs) and the
recursive-descent validator (src/validator.rs) that checks a document
against the JSON grammar, one production per kind of value.

The document is a UTF-8 byte string. The reader splits it into extended
grapheme clusters ("units") and keeps a table of their byte offsets. Every
production of the validator reads the document one unit at a time with a
width-1 look-ahead, except the literal matchers, which compare a single
4- or 5-unit look-ahead with `true`, `false` or `null`. Every production
returns a pair: an outcome and the number of units it consumed, on failure
too. `validate` adds up those steps and reports the first failure at one
past the summed position.

How the model is organised:

- `utf8_reader.dfy` (module `Utf8Reader`): the reader as an immutable value
  with its validity invariant, `new` as a method with its loop, `len`,
  `look_ahead` and `UTF8ReaderResult::unwrap`. `Units(r)` is the sequence of
  units the offset table describes; every production is specified over it.
- `tokens.dfy` (module `Tokens`): the token constants, the error reasons
  (one constructor per error message of the source), the production result,
  `is_insignificant_whitespace` and `get_next_json_value_type`.
- `literals.dfy`, `numbers.dfy`, `strings.dfy`: `validate_true`,
  `validate_false`, `validate_null`, `validate_number` and
  `validate_string`. The two loops are state machines: a transition
  function per unit (`NumberStep`, `StringStep`) drives a recursive
  specification (`NumberRun`, `StringRun`), and the method with the source's
  loop is proved to return exactly what the specification says.
- `validator.dfy` (module `Validator`): `validate_object`, `validate_array`,
  the dispatch `validate_json_value` and the top-level loop `validate`,
  with the same split: transition tables `ObjectStep` and `ArrayStep`,
  mutually recursive specification functions, and the source's mutually
  recursive methods proved against them.
- `validator_properties.dfy` (module `ValidatorProperties`): what the
  structural productions promise, and whole documents on which they depart
  from RFC 8259.
- `json_grammar.dfy` (module `JsonGrammar`): the grammar of RFC 8259 laid
  out over the units, as a `Json` value recording every production's width
  and the whitespace between tokens; `IsValue` says a value of the grammar
  starts at a position, `IsJsonText` that the whole document is
  `ws value ws`.
- `grammar_properties.dfy` (module `GrammarProperties`): by mutual
  induction over values, members and elements, every value of the grammar
  closed by a terminator or by the end of the document is consumed whole
  by `validate_json_value`, and every JSON text whose token characters
  and escape letters are units of their own is accepted by `validate`.

The validator accepts every JSON text of RFC 8259 whose structural
characters, quotes, reverse solidi, whitespace and escape letters after a
reverse solidus each form a grapheme cluster of their own
(`GrammarProperties.JsonTextAccepted`), but departs from the RFC in
several ways, and the model keeps every one of them, each exhibited by a
lemma:

- an empty document is accepted (`EmptyDocumentAccepted`), and so are
  several values one after the other (`SeveralValuesAccepted` for `[][]`,
  `TwoNumbersAccepted` for `1 2`), because `validate` simply dispatches
  values until the document ends;
- a closer is accepted wherever a key or an element may start, so a comma
  before `}` or `]` is accepted (`ArrayTrailingCommaAccepted` for `[1,]`);
- reaching the end of the document inside an object, an array or a string
  counts as success when the LAST unit of the document is the closer, even
  if that closer belongs to something else (`UnclosedOuterArrayAccepted`
  for `[[]`, `Strings.AcceptsLoneQuote` for a lone `"`);
- reaching the end of the document inside a number is success in every
  state (`Numbers.AcceptsDanglingDecimalPointAtEnd` for `1.`,
  `Numbers.AcceptsLoneMinusAtEnd` for `-`), and `1e+` followed by a
  terminator is accepted (`Numbers.AcceptsExponentSignWithoutDigits`);
- strings may contain control characters (`Strings.AcceptsControlCharacter`);
- there is no nesting limit (`GrammarProperties.NestingAccepted`: `n`
  brackets `[` followed by `n` brackets `]` are accepted for every `n`);
- the failure at the end of the document inside a container or a string
  is reported with step `len - 1`, an absolute offset that every caller
  adds to its own start as if it were relative, so the reported column can
  lie past the end of the document (`UnclosedReportedPastEnd`: `1 [` is
  rejected at column 5);
- the reader splits the document into extended grapheme clusters before
  any token is compared, so a combining mark after `"` merges with it into
  one unit that matches no token (`GraphemeMergeRejected`: `"` U+0301 `"`,
  a string under RFC 8259, is rejected as an unknown character), and a
  combining mark after an escape letter makes the escape invalid
  (`EscapeMergeRejected`: `"\n` U+0301 `"` is rejected at column 3);
- for the same reason a CR LF line break, which is one grapheme cluster,
  is one two-byte unit and not whitespace (`CrLfRejected`: `{}` followed
  by CR LF is rejected at column 4 as an unknown character), and a Unicode
  Prepend character joins the character after it (`PrependMergeRejected`:
  in `"` U+0600 `"` the closing quote is swallowed and the string is
  rejected at column 2 as not closed).

## Model

| member | source | states |
|---|---|---|
| Utf8Reader.Units | src/utils.rs:63-65 | the reader has one unit per offset-table entry but the last (`len` units), and every unit is non-empty |
| Utf8Reader.UnitAt | src/utils.rs:57-60 | unit `k` is the document between offsets `k` and `k + 1`, which increase strictly |
| Utf8Reader.Len | src/utils.rs:63-65 | `len` is at most the document's byte length, and zero exactly for the empty document |
| Utf8Reader.LookAhead | src/utils.rs:49-61 | `look_ahead(index, width)` is `OutOfBoundError` exactly when `index + width > len`, carrying `len - index`; otherwise its slice is the concatenation of units `index` to `index + width` |
| Utf8Reader.SingleUnit | src/utils.rs:49-61 | a width-1 look-ahead inside the document yields exactly one unit |
| Utf8Reader.LookAheadWhole | src/utils.rs:49-61 | `look_ahead(0, len)` yields the whole document |
| Utf8Reader.SliceIsConcat | src/utils.rs:57-60 | the bytes between table entries `i` and `j` are units `i` to `j` concatenated |
| Utf8Reader.Unwrap | src/utils.rs:34-41 | `unwrap` returns the slice an `Ok` carries; it is not defined on `OutOfBoundError`, where the source panics |
| Utf8Reader.New | src/utils.rs:67-85 | `new` keeps the document, builds the table of running byte sums of the graphemes followed by the total, and yields a valid reader whose units are the graphemes |
| Utf8Reader.OffsetTable | src/utils.rs:70-79 | a table of running sums ending with the total is a valid offset table whose units are the graphemes |
| Utf8Reader.Tail | src/validator.rs:198-200 | the tail the validator compares with a closer is the document's last unit |
| Tokens.Char | src/validator.rs:124 | the width-1 read at an in-bounds index is the unit there |
| Tokens.WhitespaceIsFourBytes | src/validator.rs:530-535 | `is_insignificant_whitespace` holds exactly for the one-byte units tab, line feed, carriage return and space |
| Tokens.IsInsignificantWhitespace | src/validator.rs:530-535 | a whitespace unit is a single byte and starts no value |
| Tokens.ValueTypeOf | src/validator.rs:91-102 | `{` gives Object, `[` Array, a digit or `-` Number, `"` String, `t` True, `f` False, `n` Null, each in both directions |
| Tokens.UnknownIsTheRest | src/validator.rs:91-102 | a unit is Unknown exactly when it is not one of the seventeen one-byte units that start a value |
| Tokens.NextValueType | src/validator.rs:91-102 | `get_next_json_value_type` classifies the unit at the index |
| Literals.MatchLiteral | src/validator.rs:477-520 | a literal matcher always consumes the literal's width, and succeeds exactly when the next units are the literal's bytes, one byte per unit; a mismatch quotes the look-ahead |
| Literals.ValidateTrue | src/validator.rs:477-490 | `validate_true` is the literal match of `true` (width 4) |
| Literals.ValidateFalse | src/validator.rs:492-505 | `validate_false` is the literal match of `false` (width 5) |
| Literals.ValidateNull | src/validator.rs:507-520 | `validate_null` is the literal match of `null` (width 4) |
| Literals.SegmentIsLookAhead | src/utils.rs:49-61 | the segment the literal matchers compare is exactly `look_ahead` on the reader, shortfall included |
| Literals.SpelledBy | src/validator.rs:478-479 | a look-ahead equals a literal exactly when the units spell it one byte per unit, so a shortfall is a mismatch |
| Numbers.Classify | src/validator.rs:283-298 | each unit falls in exactly the class the source's tests give it: sign, decimal point, exponent mark, `0`, a digit by `is_valid_demical_number`, a terminator by `is_end_of_number` |
| Numbers.IsValidDecimalNumber | src/validator.rs:283-290 | on a one-byte unit, `is_valid_demical_number` holds exactly for a digit, and for `0` only when a zero is allowed; a unit it accepts never ends a number |
| Numbers.IsEndOfNumber | src/validator.rs:292-298 | `is_end_of_number` holds exactly for the one-byte units `,`, `}`, `]` and the four whitespace bytes, none of which starts a value |
| Numbers.NumberStep | src/validator.rs:312-395 | only terminators end a number and only in a terminal state; only sign, digit, decimal point and exponent units are consumed; after a decimal point only a digit moves on |
| Numbers.NumberRun | src/validator.rs:300-400 | the number consumes at least one unit on success and stops inside the document on failure |
| Numbers.ValidateNumber | src/validator.rs:271-400 | `validate_number` returns exactly the specified run from the Begin state |
| Numbers.StepTo | src/validator.rs:312-397 | a consumed unit moves the machine to the next state |
| Numbers.StopAt | src/validator.rs:312-395 | a unit that stops the machine is not consumed, succeeds only as a terminator, and otherwise reports the state's error with the unit |
| Numbers.NumberRunStops | src/validator.rs:292-298 | a number succeeds only at the end of the document or before a terminator; a failure names the unit where it stopped |
| Numbers.NumberRunConsumes | src/validator.rs:313-394 | only digits, signs, decimal points and exponent marks are consumed |
| Numbers.FractionHasDigit | src/validator.rs:355-363 | a consumed decimal point is followed by a digit whenever anything after it was consumed |
| Numbers.NumberLeadingRejected | src/validator.rs:313-318 | a number that starts with neither `-` nor a digit fails at its first unit |
| Numbers.LeadingZerosRejected | src/validator.rs:329-334 | a digit after a leading `0` (or `-0`) fails with the leading-zeros error at that digit |
| Numbers.AcceptsRfcNumber | src/validator.rs:271-400 | every number of the grammar in section 6 of RFC 8259, followed by a terminator or the end of the document, is accepted whole |
| Numbers.AcceptsDanglingDecimalPointAtEnd | src/validator.rs:305-399 | `1.` at the end of the document is accepted |
| Numbers.AcceptsLoneMinusAtEnd | src/validator.rs:305-399 | a lone `-` at the end of the document is accepted |
| Numbers.AcceptsExponentSignWithoutDigits | src/validator.rs:375-387 | `1e+` before a comma is accepted |
| Strings.Classify | src/validator.rs:431-452 | each unit falls in exactly the class the source's tests give it: quote, reverse solidus, escapable character, `u` |
| Strings.IsValidHexDigits | src/validator.rs:522-528 | `is_valid_hex_digits` holds exactly when the unit's first byte is `0`-`9`, `A`-`F` or `a`-`f`; such a unit is neither a quote, a reverse solidus nor whitespace |
| Strings.StringStep | src/validator.rs:423-464 | only a quote in plain text closes the string, only a non-quote at the start fails as not quoted, and nothing moves back to the Begin state |
| Strings.EndOfString | src/validator.rs:469-474 | at the end of the document a string succeeds exactly when the last unit is a quote |
| Strings.StringRun | src/validator.rs:416-474 | a successful string run consumes at least one unit and ends on a quote |
| Strings.ValidateString | src/validator.rs:402-475 | `validate_string` returns exactly the specified run from the Begin state |
| Strings.OpenRun | src/validator.rs:424-430 | a string starts with `"` or fails at offset 0 |
| Strings.EscapeRun | src/validator.rs:439-447 | a reverse solidus and an escapable character are consumed back to plain text |
| Strings.BadEscapeRun | src/validator.rs:451 | any other escaped unit fails at the unit after the reverse solidus |
| Strings.HexQuadRun | src/validator.rs:453-462 | four hex digits after `\u` lead back to plain text |
| Strings.AcceptsString | src/validator.rs:402-475 | every complete string (quote, body of plain units and escapes, quote) is accepted with its closing quote consumed |
| Strings.AcceptedIsString | src/validator.rs:402-475 | a string accepted before the end of the document is a complete string; at the end the last unit is a quote |
| Strings.InvalidEscapeAt | src/validator.rs:439-451 | a bad escape inside a string fails at the escaped unit |
| Strings.InvalidUnicodeAt | src/validator.rs:453-456 | the first non-hex unit of a `\u` escape fails where it stands |
| Strings.NotClosedAtEnd | src/validator.rs:469-472 | a string running to the end without a final quote fails at the document's last offset |
| Strings.AcceptsLoneQuote | src/validator.rs:469-474 | a lone `"` as the last unit is accepted |
| Strings.AcceptsEscapedQuoteAtEnd | src/validator.rs:439-474 | `"a\"` ending the document is accepted |
| Strings.AcceptsControlCharacter | src/validator.rs:431-437 | a tab inside a string is accepted |
| Validator.ValueOfType | src/validator.rs:71-88 | every arm of the dispatch that succeeds consumes at least one unit and no more than remain |
| Validator.ValueRun | src/validator.rs:70-89 | a value that succeeds consumes at least one unit and no more than remain, so `validate` always advances |
| Validator.EndOfContainer | src/validator.rs:198-203 | at the end of the document a container succeeds exactly when the last unit is its closer, and otherwise fails with step `len - 1` |
| Validator.ObjectStep | src/validator.rs:125-193 | `}` closes an object exactly in key position or after a value; a key starts exactly at `"` in key position and a value at any non-whitespace in value position |
| Validator.ArrayStep | src/validator.rs:225-257 | `]` closes an array exactly past its opener; an element starts exactly at a non-whitespace unit other than `]` in element position |
| Validator.ObjectRun | src/validator.rs:104-204 | an object that succeeds consumes at least one unit and no more than remain |
| Validator.ArrayRun | src/validator.rs:206-269 | an array that succeeds consumes at least one unit and no more than remain |
| Validator.ObjectSkipTo | src/validator.rs:125-195 | a unit the object machine moves past is consumed and changes only the state |
| Validator.ObjectStopAt | src/validator.rs:132-193 | a closing `}` ends the object with the brace consumed; a refused unit fails where it stands |
| Validator.ObjectKeyAt | src/validator.rs:145-154 | a key's failure is the object's, with the key's step added; after a key the object waits for the colon |
| Validator.ObjectValueAt | src/validator.rs:171-180 | a member value's failure is the object's, with the value's step added; after a value the object waits for `,` or `}` |
| Validator.ObjectEnd | src/validator.rs:198-203 | the end of the document inside an object is decided by the last unit |
| Validator.ArraySkipTo | src/validator.rs:225-260 | a unit the array machine moves past is consumed and changes only the state |
| Validator.ArrayStopAt | src/validator.rs:232-256 | a closing `]` ends the array with the bracket consumed; a refused unit fails where it stands |
| Validator.ArrayNestAt | src/validator.rs:242-250 | an element's failure is the array's, with the element's step added |
| Validator.ArrayEnd | src/validator.rs:263-268 | the end of the document inside an array is decided by the last unit |
| Validator.DocumentRun | src/validator.rs:53-67 | `validate` rejects only while a unit remains to be read, at a position past the one the run started from; `DocumentRejected` gives the exact position |
| Validator.DocumentStep | src/validator.rs:54-64 | `validate` either stops at a failed value with position one past the summed step, or moves past a value that succeeded |
| Validator.Validate | src/validator.rs:50-68 | `validate` returns exactly the verdict of the document run from position 0 |
| Validator.ValidateJsonValue | src/validator.rs:70-89 | `validate_json_value` returns exactly the dispatch on the value's type |
| Validator.ValidateObject | src/validator.rs:104-204 | `validate_object` returns exactly the object run from its opening state |
| Validator.ValidateMember | src/validator.rs:145-180 | the nesting arm of the object loop hands a key to `validate_string` and a value to `validate_json_value`, and continues or fails as the object run does |
| Validator.ValidateArray | src/validator.rs:206-269 | `validate_array` returns exactly the array run from its opening state |
| Validator.ValidateElement | src/validator.rs:242-250 | the nesting arm of the array loop hands the element to `validate_json_value`, and continues or fails as the array run does |
| ValidatorProperties.ObjectEndsOnBrace | src/validator.rs:104-204 | an object that succeeds has consumed up to a `}` |
| ValidatorProperties.ArrayEndsOnBracket | src/validator.rs:206-269 | an array that succeeds has consumed up to a `]` |
| ValidatorProperties.ObjectSkipsWhitespace | src/validator.rs:132-195 | past `{`, whitespace leaves the object's state unchanged |
| ValidatorProperties.ArraySkipsWhitespace | src/validator.rs:232-260 | past `[`, whitespace leaves the array's state unchanged |
| ValidatorProperties.KeyPosition | src/validator.rs:132-144 | after whitespace in key position, `}` closes the object and anything but `"` fails with the key error |
| ValidatorProperties.AfterKey | src/validator.rs:156-164 | after a key and whitespace only `:` moves on; any other unit fails quoting that unit |
| ValidatorProperties.AfterMemberValue | src/validator.rs:182-191 | after a member value and whitespace, `}` closes, `,` returns to key position, anything else fails quoting the unit |
| ValidatorProperties.ElementPosition | src/validator.rs:232-244 | after whitespace in element position, `]` closes the array and anything else starts an element |
| ValidatorProperties.AfterElement | src/validator.rs:252-256 | after an element and whitespace, `]` closes, `,` returns to element position, anything else fails quoting the unit |
| ValidatorProperties.EmptyObject | src/validator.rs:126-134 | `{` and `}` with only whitespace between are a complete object |
| ValidatorProperties.EmptyArray | src/validator.rs:226-234 | `[` and `]` with only whitespace between are a complete array |
| ValidatorProperties.ObjectTrailingComma | src/validator.rs:182-184 | a comma after a member value followed by `}` closes the object |
| ValidatorProperties.ArrayTrailingComma | src/validator.rs:252-254 | a comma after an element followed by `]` closes the array |
| ValidatorProperties.DocumentAccepted | src/validator.rs:50-68 | `validate` accepts exactly the documents that split into values that each succeed |
| ValidatorProperties.AcceptedIsTiled | src/validator.rs:50-68 | an accepted document splits into values that each succeed |
| ValidatorProperties.TiledIsAccepted | src/validator.rs:50-68 | a document that splits into values that each succeed is accepted |
| ValidatorProperties.DocumentRejected | src/validator.rs:50-68 | `validate` rejects with a position and reason exactly when values succeed up to one that fails with that reason, and the position is one past that value's start plus its step |
| ValidatorProperties.RejectedIsTiled | src/validator.rs:50-68 | a rejection comes from the first value that fails, after values that succeed |
| ValidatorProperties.TiledIsRejected | src/validator.rs:50-68 | values that succeed up to one that fails make `validate` reject at that value's position |
| ValidatorProperties.StrayUnit | src/validator.rs:78-87 | a unit that starts no value is consumed alone: whitespace succeeds, anything else is an unknown character |
| ValidatorProperties.UnclosedOuterArrayAccepted | src/validator.rs:263-268 | `[[]` is accepted because the document's last unit is a `]` |
| ValidatorProperties.SeveralValuesAccepted | src/validator.rs:53-65 | `[][]` is accepted: several top-level values |
| ValidatorProperties.ArrayTrailingCommaAccepted | src/validator.rs:252-254 | `[1,]` is accepted |
| ValidatorProperties.UnclosedReportedPastEnd | src/validator.rs:263-266 | `1 [` is rejected at column 5, past the end of its three units |
| ValidatorProperties.EmptyDocumentAccepted | src/validator.rs:50-67 | a reader over the empty document has length 0 and `validate` accepts it |
| ValidatorProperties.EscapeMergeRejected | src/validator.rs:439-451 | an escape letter and a combining mark form one unit that is no escape character, so `"\n` U+0301 `"` is rejected at column 3 as an invalid escape |
| ValidatorProperties.PrependMergeRejected | src/validator.rs:469-472 | a Prepend character and the closing quote form one unit, so `"` U+0600 `"` runs to the end without a final quote and is rejected at column 2 as not closed |
| ValidatorProperties.CrLfRejected | src/validator.rs:78-87 | CR LF is one unit that is not whitespace, so `{}` followed by CR LF is rejected at column 4 as an unknown character |
| ValidatorProperties.TwoNumbersAccepted | src/validator.rs:53-65 | `1 2` is accepted: two top-level numbers |
| ValidatorProperties.GraphemeMergeRejected | src/validator.rs:78-87 | `"` followed by U+0301 is one unit that starts no value, so `"` U+0301 `"` is rejected at column 2 as an unknown character |
| GrammarProperties.FirstUnit | src/validator.rs:91-102 | a value of the grammar starts inside the document with a unit of a known type, never whitespace |
| GrammarProperties.ValueAccepted | src/validator.rs:70-89 | a value of the grammar closed by a terminator or the end of the document is accepted by `validate_json_value` with exactly its width consumed |
| GrammarProperties.ObjectAccepted | src/validator.rs:104-204 | an object of the grammar is accepted whole |
| GrammarProperties.ArrayAccepted | src/validator.rs:206-269 | an array of the grammar is accepted whole |
| GrammarProperties.MembersAccepted | src/validator.rs:125-195 | from key position, the members of the grammar and the `}` after them close the object, consuming the members and the brace |
| GrammarProperties.MemberAccepted | src/validator.rs:132-193 | one member (whitespace, key, `:`, value, whitespace) is consumed, then `}` closes the object or `,` returns to key position |
| GrammarProperties.ElementsAccepted | src/validator.rs:225-260 | from element position, the elements of the grammar and the `]` after them close the array, consuming the elements and the bracket |
| GrammarProperties.ElementAccepted | src/validator.rs:232-256 | one element (whitespace, value, whitespace) is consumed, then `]` closes the array or `,` returns to element position |
| GrammarProperties.JsonTextAccepted | src/validator.rs:50-68 | every JSON text `ws value ws` of RFC 8259 whose structural characters, quotes, reverse solidi, whitespace and escape letters after a reverse solidus are each a unit of their own is accepted by `validate` |
| GrammarProperties.NestingAccepted | src/validator.rs:206-269 | `n` opening brackets followed by `n` closing brackets are accepted for every `n`: nesting has no limit |

## Left out

- `read_file_as_utf8` (src/utils.rs), `main` and the test-suite runner are file and console I/O; the model takes the document as a byte sequence.
- Grapheme segmentation comes from an external library; `New` takes the segmentation as an input (non-empty graphemes whose concatenation is the document).
- `get_tail` is not defined in src/utils.rs; `Tail` assumes it returns the document's last unit.
- The comparisons of a `UTF8ReaderResult` with a string, and its formatting in error messages, are not defined in src/utils.rs; the model compares the slice of an in-bounds read, and a literal matcher's shortfall counts as a mismatch.
- Error messages are modelled as `Reason` constructors carrying the unit or look-ahead they quote, not as formatted text.
- Machine-width arithmetic is not modelled: positions and steps are unbounded naturals, and `len - index` is only taken where `index <= len`.
- The `unicode_ptr` counter of `validate_string` is folded into its Unicode state as the number of digits read.
- ValidateMember and ValidateElement are the nesting arms of the object and array loops written as methods of their own; they run the same calls in the same order as the loops of the source.
