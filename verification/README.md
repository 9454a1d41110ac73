# Lakesql client: a verified model

Lakesql is a database client written in Rust. This project models five parts of it in
Dafny and proves properties of them over all inputs and all runs:

1. the **text codec of values** (numbers, decimals, strings, binaries, arrays, maps, tuples):
   what the writer prints and the cursor-driven reader takes back;
2. the **interval text**: a printer into a fixed buffer and a hand-written scanner;
3. the **type descriptor parser** and the printer of data types;
4. the **result stream** (`Pages`, `RestAPIRows`), the **heartbeat manager** and the **request
   loop** with its retries and its token refresh;
5. the **SQL text handling**: the block-comment scanner, the statement splitter, literal
   quoting, and the binding of parameters into a statement.

## How it is built

Code that changes state step by step is modelled by methods and classes over the same
fields (`Cursor`, `ByteBuffer`, `ValueDecoder`, `IntervalBuffer`, `PageStream`,
`RestApiRows`, `Manager`, `ApiClient`, `SqlParser`, `PlaceholderVisitor`). Each is proved
equal to a specification function, and the properties are lemmas about those functions.

* `Results`: an error that the source returns is `Err(Rejected)`; an operation that would
  panic, an arithmetic overflow included, is `Err(Panicked)`.
* A text is a `string` whose characters stand for bytes.
* The network is a parameter: for the stream, a chain of replies in which each reply says
  how many polls it stays pending; for the request loop, a function from the number of a
  request to what becomes of it. The tokenizer and the syntax tree are parameters too.

| part | modules |
|---|---|
| values | `Digits`, `Decimals`, `Hex`, `Cursors`, `NumberSpans`, `Values`, `NestedText`, `ValueText`, `QuotedStrings`, `NestedRoundTrip`, `NestedSpacing`, `ValueRoundTrip`, `ValueCodec` |
| intervals | `Intervals`, `IntervalRoundTrip`, `IntervalMeaning`, `IntervalCodec`, `IntervalScanner` |
| types | `Schema`, `TypeText`, `TypeRoundTrip` |
| stream and protocols | `Pages`, `PageProofs`, `RowStream`, `StreamProofs`, `ClientManager`, `Retry` |
| SQL text | `CommentScanner`, `Statements`, `SqlLiterals`, `Sorting`, `TextEdits`, `Placeholders` |

## Where the code does less than it seems to promise

Where a property fails in the code, the exact condition is proved.

* A quoted string is not always read back: the writer turns `"` into `\"` and leaves
  backslashes alone, while the reader keeps the backslash of `\"` and takes `\\` for one.
  `QuoteSafe` is the exact set of strings that survive (`QuotedStrings.StringRoundTrip`,
  `QuotedStrings.QuoteComesBackEscaped`).
* An array of exactly one empty binary prints as `[]` (`ValueRoundTrip.ArrayFaithfulIff`,
  `ValueRoundTrip.EmptyBinaryLost`).
* `read_empty_map` gives an `EmptyArray`, so an empty-map value is never read back
  (`ValueRoundTrip.EmptyMapLost`).
* The reader of decimals ignores the declared scale: `1.5` at scale 2 is read as 0.15
  (`Decimals.DecimalExact`, `Decimals.ScaleIsIgnored`).
* A decimal of precision at most 19 with a magnitude beyond `i64` is refused
  (`Decimals.DecimalRoundTrip`).
* A decimal comes back in the width that its precision selects: a row decoded from Arrow with
  a 128-bit decimal of precision at most 19 keeps its number, but not its width
  (`ValueRoundTrip.RowKept`, `ValueRoundTrip.NarrowDecimalKept`).
* A null of type `Nullable(String)` comes back from its column as the text `NULL`, and a
  nullable column that holds that text without quotes comes back as null
  (`ValueRoundTrip.ColumnRoundTrip`, `ValueRoundTrip.NullTextIff`, `ValueRoundTrip.NullTextsConfused`).
* Printing an interval of `i64::MIN` microseconds overflows (`IntervalRoundTrip.IntervalRoundTrip`).
* The fraction of an interval amount with a unit is read and thrown away: `1.5 hours` is one
  hour (`IntervalRoundTrip.UnitMeaning`).
* An interval amount with an unknown unit, or with more units than its field can hold, is
  accepted and ignored: `5 parsecs` is the zero interval (`IntervalRoundTrip.AmountIgnoredIff`,
  `IntervalRoundTrip.UnknownUnitIgnored`).
* `ago` behind an amount without a unit is taken for one: `01:00:00 ago` is the zero interval
  (`IntervalMeaning.AgoNeedsUnit`).
* White space before the closing parenthesis of a tuple is refused, while it is skipped before
  a closing bracket or brace (`NestedSpacing.GapBehindLastField`, `NestedSpacing.SpacedRoundTrip`).
* `EmptyArray` and `EmptyMap` have printed names that the type parser refuses
  (`TypeRoundTrip.TypeRoundTripText`); it reads the names of the server (`TypeRoundTrip.ServerRoundTrip`).
* The comment at `core/src/schema.rs:233` says that a NULL within `Nullable` is ignored; the code
  makes the type nullable twice (`TypeRoundTrip.NullableTwice`).
* A descriptor of `Decimal` or `Vector` without arguments is a panic (`TypeRoundTrip.WrongArity`).
* A page whose schema cannot be read loses its rows, and one with a batch that cannot be decoded
  loses that batch and all behind it; later polls go on with the next page
  (`StreamProofs.DrainedYields`).
* Without progress pages, a page that has record batches but no text rows is skipped
  (`PageProofs.GatheredBatches`).
* After a token refresh the request is sent again without any authorization: the 401 branch
  removes the header and the refresh branch does not restore it. It stays so for every later try
  that no reload of the token file precedes (`Retry.SendsOf`, `Retry.BareAfterRefresh`).
* A token that ends in `\G` ends a statement in every mode, although the comment in the source
  speaks of the interactive one (`Statements.SlashGAlwaysEnds`).
* A statement that mixes `?` and `$N` can be bound wrongly, because the second pass uses the
  offsets of the original text (`Placeholders.BoundIff`, `Placeholders.MixedFamiliesMisplaced`).

## Model

| member | source | states |
|---|---|---|
| Decimals.ParseDecimalText | sql/src/value/string_decoder.rs:515-582 | The digit-collecting loop, with its stripping of zeros, its exponent and its cut at 76 digits, computes the specification `ParseDecimal` for every text |
| Decimals.BuildDigitsMeaning | sql/src/value/string_decoder.rs:538-560 | The digits built from whole part, fraction and exponent are the number that those parts denote, divided by the power of ten that the 76-digit cut drops; they are exact when nothing is dropped |
| Decimals.DecimalMeaning | sql/src/value/string_decoder.rs:515-582 | Any numeral, with leading zeros, a fraction and an exponent of either letter, gives the signed integer of its digits, moved by the exponent and without the point, whatever scale is declared, in the variant of its precision; or the error of its exponent, of too many digits, or of an integer that does not fit |
| Decimals.DecimalExact | sql/src/value/string_decoder.rs:549-582 | A numeral that is accepted with no digit dropped is read as the number it denotes, its value over ten to the scale, if and only if the digits left behind its point are as many as the scale, or all its digits are zeros |
| Decimals.ScaleIsIgnored | sql/src/value/string_decoder.rs:549-555 | The text `1.5` at precision 10 and scale 2 is read as 15 hundredths |
| Decimals.SignedExponent | sql/src/value/string_decoder.rs:538-541 | An exponent with a plus sign, a minus sign or leading zeros is the integer that it denotes |
| Decimals.DecimalRoundTrip | sql/src/value/format/display.rs:214-270 | For every value within its declared precision, the printed decimal parses back to it if and only if the precision exceeds 19 or the magnitude fits an `i64`; otherwise it is refused |
| Decimals.MagnitudeFits | sql/src/value/format/display.rs:214-270 | Above precision 19 the precision keeps the magnitude within `i128` or `i256`, and the power of ten that the printer computes fits its integer type |
| Decimals.WidthSelected | sql/src/value/string_decoder.rs:562-582 | Up to precision 19 a decimal has 64 bits and less than 2^63 in magnitude, up to 38 it has 128 bits and 2^127, above 256 bits and 2^255 |
| Decimals.PointBehindExponent | sql/src/value/string_decoder.rs:522-541 | A point behind the letter of the exponent is a panic |
| Digits.ParseIntText | sql/src/cursor_ext/cursor_read_number_ext.rs:114-126 | Every integer within the bounds of its type is parsed back from its decimal text |
| Digits.ParseIntegerIs | sql/src/cursor_ext/cursor_read_number_ext.rs:114-126 | An integer text is a sign or none and digits with any leading zeros; a minus where there are no negative numbers is refused, and so is what is out of bounds |
| Digits.OnlyIntegersParse | sql/src/cursor_ext/cursor_read_number_ext.rs:114-126 | Any other text is refused |
| Cursors.CollectNumber | sql/src/cursor_ext/cursor_read_number_ext.rs:45-100 | The loops over signs, digits, point and exponent find exactly the span of a number, and the shorter span when the fraction is all zeros |
| NumberSpans.SpanIs | sql/src/cursor_ext/cursor_read_number_ext.rs:45-100 | Signs, digits, a fraction and an exponent with either letter and either sign reach as far as they are written; what is parsed leaves out a fraction of zeros if there is no exponent |
| NumberSpans.IntegerRead | sql/src/cursor_ext/cursor_read_number_ext.rs:132-145 | An integer with a sign or none, and perhaps a fraction of zeros, which is passed over, is read off the front of a text; any other fraction is refused, and so is what is out of bounds |
| Cursors.CollectBinaryNumber | sql/src/cursor_ext/cursor_read_number_ext.rs:28-43 | The loop finds exactly the longest prefix of hexadecimal digits |
| Cursors.Cursor.IgnoreByte | sql/src/cursor_ext/cursor_read_bytes_ext.rs:103-105 | Consumes the byte if it is next and tells so; otherwise the position is kept |
| Cursors.Cursor.IgnoreBytes | sql/src/cursor_ext/cursor_read_bytes_ext.rs:107-122 | Consumes the bytes if the unread text starts with all of them; on a mismatch the position is kept |
| Cursors.Cursor.MustIgnoreByte | sql/src/cursor_ext/cursor_read_bytes_ext.rs:124-137 | As `IgnoreByte`, with an error instead of false |
| Cursors.Cursor.KeepRead | sql/src/cursor_ext/cursor_read_bytes_ext.rs:155-171 | Appends the longest prefix that satisfies the predicate, stops in front of the first character that does not, and gives the length of the prefix |
| Cursors.Cursor.IgnoreWhiteSpaces | sql/src/cursor_ext/cursor_read_bytes_ext.rs:139-141 | Skips exactly the leading white space and tells whether there was any |
| Cursors.Cursor.ReadQuotedText | sql/src/cursor_ext/cursor_read_string_ext.rs:30-77 | Decodes doubled quotes and backslash escapes up to the closing quote as `QuotedText` says, and on failure leaves the cursor in front of a missing opening quote or at the end |
| Cursors.Cursor.ReadIntText | sql/src/cursor_ext/cursor_read_number_ext.rs:132-145 | Reads an integer within bounds off the front; on failure the position is kept |
| Hex.DecodeEncode | sql/src/value/format/result_encode.rs:47-155 | The uppercase hexadecimal text of every binary decodes to it |
| Hex.DecodeIff | sql/src/value/string_decoder.rs:302-308 | Exactly the texts of pairs of hexadecimal digits, in either case, are decoded, each pair to its byte |
| QuotedStrings.BodyRoundTrip | sql/src/value/format/result_encode.rs:203-220 | What the escape loop writes is read back as the same string and stops at the right place exactly for quote-safe strings; for every other string the reader never gives the string back |
| QuotedStrings.StringRoundTrip | sql/src/cursor_ext/cursor_read_string_ext.rs:30-77 | The same for the whole quoted text, whatever follows but a quote |
| QuotedStrings.PlainIsSafe | sql/src/value/format/result_encode.rs:157-165 | A string with neither a double quote nor a backslash is quote-safe |
| QuotedStrings.QuoteComesBackEscaped | sql/src/value/format/result_encode.rs:203-220 | A string of one double quote comes back as a backslash and the quote, whatever follows but a quote |
| QuotedStrings.FullyEscapedRead | sql/src/cursor_ext/cursor_read_string_ext.rs:30-77 | Between double or single quotes, with the quote doubled and newline, tab, carriage return, zero, single quote and backslash escaped, every string is read back, whatever follows but that quote |
| QuotedStrings.UnknownEscapeKept | sql/src/cursor_ext/cursor_read_string_ext.rs:60-64 | A backslash before any other character stays in the text with it |
| NestedRoundTrip.FieldRoundTrip | sql/src/value/string_decoder.rs:158-197 | For any lawful leaves, a well-typed value of any nesting, printed and followed by a separator, is read back with the cursor at the separator if it is faithful, and is never read back as itself if it is not |
| NestedRoundTrip.ArrayRoundTrip | sql/src/value/string_decoder.rs:408-424 | The array case: all items faithful, and not a single item without text |
| NestedRoundTrip.MapRoundTrip | sql/src/value/string_decoder.rs:446-473 | The map case: every key and every value faithful |
| NestedRoundTrip.TupleRoundTrip | sql/src/value/string_decoder.rs:475-493 | The tuple case: every field faithful |
| NestedRoundTrip.NullableRoundTrip | sql/src/value/string_decoder.rs:385-394 | The nullable case: NULL is told apart from every value that is not null |
| NestedSpacing.SpacedRoundTrip | sql/src/value/string_decoder.rs:408-493 | For any lawful leaves, a faithful value of any nesting is read from its text with any white space around the items of its arrays and the keys and values of its maps, and around the fields of its tuples but behind the last |
| NestedSpacing.SpacedValueRoundTrip | sql/src/value/string_decoder.rs:408-493 | The same for the values that the driver reads |
| NestedSpacing.GapBehindLastField | sql/src/value/string_decoder.rs:475-493 | `(1 )` is refused as a tuple of one boolean |
| ValueRoundTrip.LeafRoundTrip | sql/src/value/string_decoder.rs:209-308 | Each value without parts, decimals of any width that holds them included, is read back behind its text, up to a separator, exactly when it survives |
| ValueRoundTrip.HttpIsLawful | sql/src/value/format/result_encode.rs:47-155 | The leaves that the driver prints keep the law that the nested codec needs |
| ValueRoundTrip.NullTextIff | sql/src/value/format/result_encode.rs:47-155 | A value prints as `NULL` in a column if and only if it is null or holds that very text without quotes |
| ValueRoundTrip.EmptyTextIff | sql/src/value/format/result_encode.rs:47-155 | Inside another value, only the empty binary prints as nothing |
| ValueRoundTrip.ArrayFaithfulIff | sql/src/value/string_decoder.rs:408-424 | An array is faithful, and so read back as itself, if and only if all its items are and it is not the array of exactly one empty binary |
| ValueRoundTrip.NestedValueRoundTrip | sql/src/value/string_decoder.rs:158-197 | For every type built from null, boolean, integers, decimal, string, binary, nullable, array, map and tuple, with decimals in any width: reading back what was printed gives the very value and stops at what follows if and only if the value is faithful |
| ValueRoundTrip.ColumnRoundTrip | sql/src/value/string_decoder.rs:57-151 | A whole column, where strings stand without quotes and decimals may have any width, is read back from its text if and only if `ColumnFaithful` |
| ValueRoundTrip.RowRoundTrip | sql/src/raw_rows.rs:88-96 | The row made by `RawRow::from(Row)` is read back as the very row if and only if each of its columns is faithful |
| ValueRoundTrip.RowDecodes | sql/src/value/string_decoder.rs:38-54 | A row of a response is read column by column, as far as there are both types and texts: an absent text is null for the types Null and Nullable and refuses the row for any other, and a text gives what it is read as; one bad column refuses the row |
| ValueRoundTrip.NullRefused | sql/src/value/string_decoder.rs:46-53 | An absent text is an error, not a panic, for a type without null |
| ValueRoundTrip.RowWithNulls | sql/src/value/string_decoder.rs:38-54 | A row with some columns absent and in the others the texts of typed values is read as those values if and only if the absent ones are null and the others faithful |
| ValueRoundTrip.NestedValueKept | sql/src/value/string_decoder.rs:158-197 | A nested value is read back with every number kept and its decimals in the widths that their precisions select, if and only if that form of it is faithful |
| ValueRoundTrip.RowKept | driver/src/rest_api.rs:463-480 | The same for a whole row: a row decoded from Arrow, made into raw texts and read again keeps every number, whatever the widths of its decimals |
| ValueRoundTrip.NarrowDecimalKept | sql/src/value/arrow_decoder.rs:328-340 | A 128-bit decimal of precision at most 19 comes back as the same number in 64 bits, or is refused beyond `i64`; it never comes back as itself |
| ValueRoundTrip.EmptyBinaryLost | sql/src/value/string_decoder.rs:408-424 | The array of one empty binary is read back as the empty array |
| ValueRoundTrip.NullTextsConfused | sql/src/value/string_decoder.rs:57-151 | A null of type `Nullable(String)` is read back as the text `NULL`, and a nullable bitmap of that text as null |
| ValueRoundTrip.EmptyMapLost | sql/src/value/string_decoder.rs:402-406 | An empty-map value is read back as an empty array, whatever follows |
| ValueRoundTrip.IntegerColumn | sql/src/value/string_decoder.rs:67-90 | A column of an integer type takes a sign or none and digits, for exactly the integers that its 8, 16, 32 or 64 bits hold, and refuses all others |
| ValueRoundTrip.OnlyDecimalsPanic | sql/src/value/string_decoder.rs:209-308 | Of all the readers of values without parts only that of decimals can panic |
| ValueRoundTrip.MapNeedsPair | sql/src/value/string_decoder.rs:446-473 | A map type without a pair of types is a panic |
| ValueCodec.ByteBuffer.WriteQuotedStringMinEscape | sql/src/value/format/result_encode.rs:203-220 | The loop that copies the runs between quotes writes every character, each quote behind a backslash |
| ValueCodec.ByteBuffer.WriteString | sql/src/value/format/result_encode.rs:157-165 | Appends the string, raw or quoted |
| ValueCodec.ByteBuffer.WriteWithOption | sql/src/value/format/result_encode.rs:47-155 | Appends the text of any nested value to the bytes there, and leaves those as they are |
| ValueCodec.ToStringWithOptions | sql/src/value/format/result_encode.rs:40-45 | The text of a value from a fresh buffer |
| ValueCodec.ValueDecoder.MatchBytes | sql/src/value/string_decoder.rs:199-207 | Consumes a word or rolls back to the checkpoint |
| ValueCodec.ValueDecoder.ReadNull | sql/src/value/string_decoder.rs:209-216 | Reads NULL or keeps the position |
| ValueCodec.ValueDecoder.ReadBool | sql/src/value/string_decoder.rs:218-227 | Reads 1 or 0 |
| ValueCodec.ValueDecoder.ReadInt | sql/src/value/string_decoder.rs:229-267 | Reads an integer of the given width |
| ValueCodec.ValueDecoder.ReadDecimalField | sql/src/value/string_decoder.rs:279-292 | Reads a decimal and consumes its span only when it parses |
| ValueCodec.ValueDecoder.ReadStringField | sql/src/value/string_decoder.rs:294-300 | Reads a text in double quotes or, failing that, in single quotes |
| ValueCodec.ValueDecoder.ReadBinaryField | sql/src/value/string_decoder.rs:302-308 | Reads the hexadecimal digits at the front |
| ValueCodec.ValueDecoder.ReadEmpty | sql/src/value/string_decoder.rs:396-406 | Reads an empty array or an empty map, and gives an empty array for both |
| ValueCodec.ValueDecoder.ReadField | sql/src/value/string_decoder.rs:158-197 | The recursive descent over the cursor gives the value and the position that the specification `ReadField` gives, for every type and every text, malformed ones included |
| ValueCodec.ValueDecoder.ReadArray | sql/src/value/string_decoder.rs:408-424 | The loop of the array reader, errors included |
| ValueCodec.ValueDecoder.ReadMap | sql/src/value/string_decoder.rs:446-473 | The loop of the map reader, with the panic when the inner type is not a pair |
| ValueCodec.ValueDecoder.ReadTuple | sql/src/value/string_decoder.rs:475-493 | The loop of the tuple reader |
| IntervalRoundTrip.IntervalRoundTrip | sql/src/value/interval.rs:83-227 | Every interval can be printed if and only if its microseconds are not `i64::MIN`, and its text is read back as that interval, `i32::MIN` months and days included |
| IntervalRoundTrip.AcceptedReprints | sql/src/value/interval.rs:83-227 | Every text that the scanner accepts gives fields within `i32`, `i32` and `i64`, and printing them and reading that text gives the same interval, unless its microseconds are `i64::MIN` |
| IntervalRoundTrip.TimeRoundTrip | sql/src/value/interval.rs:288-327 | Every positive time of day, with its fraction trimmed, is read back as the same microseconds |
| IntervalRoundTrip.UnitMeaning | sql/src/value/interval.rs:137-227 | An amount with any sign, fraction and unit is read as its whole part applied to the zero interval, and with `ago` behind it as its negation |
| IntervalMeaning.TextMeaning | sql/src/value/interval.rs:137-227 | A text of any number of amounts with blanks between them, each with a sign, a fraction or a time of day and perhaps a word, with or without an at sign in front, is the amounts added up in order, and with `ago` behind its last word the negation |
| IntervalMeaning.FigureRead | sql/src/value/interval.rs:229-345 | A number is its digits and the first six of its fraction; `h:m` and `h:m:s`, with a fraction, are their microseconds, however many digits each part has |
| IntervalMeaning.NoUnit | sql/src/value/interval.rs:402-412 | Without a unit the number counts as microseconds and the fraction as one of a second, each as far as there is room |
| IntervalMeaning.AgoIff | sql/src/value/interval.rs:189-217 | A text from an `a` on is `ago` in any case with blanks behind it, which negates or overflows at the least value of a field, or is refused |
| IntervalMeaning.AgoNeedsUnit | sql/src/value/interval.rs:168-173 | Behind an amount without a unit `ago` is taken for one, and the amount ignored |
| IntervalMeaning.NoAmountRefused | sql/src/value/interval.rs:143-156 | Empty and blank texts and those that start with `P` or `p` are refused |
| IntervalMeaning.DigitsOverflow | sql/src/value/interval.rs:234-240 | The first digit too many is an error where the product overflows and a panic where only the sum does |
| IntervalRoundTrip.UnitValues | sql/src/value/interval.rs:364-393 | One unit, by each of its 35 names and in any case, is that many months, days or microseconds |
| IntervalRoundTrip.NoOtherUnit | sql/src/value/interval.rs:364-383 | There is no other name of a unit |
| IntervalRoundTrip.AmountIgnoredIff | sql/src/value/interval.rs:396-556 | An amount with any word behind it is accepted, and an amount other than zero is lost if and only if the word is no unit or the field cannot hold that many units |
| IntervalRoundTrip.UnknownUnitIgnored | sql/src/value/interval.rs:364-383 | `5 parsecs` is read as the zero interval |
| IntervalCodec.TextLength | sql/src/value/interval.rs:26-32 | Every printable interval takes at most 69 of the 70 bytes |
| IntervalCodec.DroppedToNothing | sql/src/value/interval.rs:69-81 | Trimming zeros removes all digits only from zero, so it never crosses the point |
| IntervalCodec.IntervalBuffer.CopyFromSlice | sql/src/value/interval.rs:37-49 | Copies into the buffer behind what was written, with every slice in range |
| IntervalCodec.IntervalBuffer.FormatIntervalValue | sql/src/value/interval.rs:51-67 | Appends a field with its separator and plural, or nothing for zero |
| IntervalCodec.IntervalBuffer.FormatMicros | sql/src/value/interval.rs:69-81 | Writes six digits and takes the trailing zeros back, in range |
| IntervalCodec.IntervalBuffer.Format | sql/src/value/interval.rs:83-129 | Fills the buffer with the text of the interval and gives its length, below 70, or panics exactly for `i64::MIN` |
| IntervalCodec.SplitClock | sql/src/value/interval.rs:104-118 | Successive subtraction gives hours, minutes, seconds and microseconds |
| IntervalScanner.ParseDigits | sql/src/value/interval.rs:288-299 | The accumulating loop gives the number, the error of the checked product or the panic of the unchecked sum, as the first to occur |
| IntervalScanner.ParseFraction | sql/src/value/interval.rs:301-327 | The loop over the fraction gives its first six digits in microseconds |
| IntervalScanner.ParseNumber | sql/src/value/interval.rs:229-286 | Reads a plain amount or a time of day off the front, with its length in bytes |
| IntervalScanner.ParseIdentifier | sql/src/value/interval.rs:329-345 | Skips blanks and takes the word behind them |
| IntervalScanner.FromCstring | sql/src/value/interval.rs:137-227 | The scanner with its position computes `FromText` for every text, malformed ones included |
| IntervalScanner.WordLayout | sql/src/value/arrow_decoder.rs:60-75 | The low 64 bits of the word are microseconds, the 32 above them days and the 32 above those months, each signed |
| IntervalScanner.PackedUnpacked | sql/src/value/arrow_decoder.rs:60-75 | Unpacking a 128-bit Arrow interval loses no bit |
| IntervalScanner.UnpackedPacked | sql/src/value/arrow_decoder.rs:60-75 | Every interval is the unpacking of a 128-bit word |
| IntervalScanner.ArrowRoundTrip | sql/src/value/arrow_decoder.rs:60-75 | A 128-bit interval unpacked, printed, reparsed and packed is the same word, unless its lower half is `i64::MIN` |
| TypeText.ParseTypeDesc | core/src/schema.rs:449-509 | The loop over depth and start computes `Parse` for every text, balanced or not, with every slice in range and every recursive call on a shorter text |
| TypeRoundTrip.ParseDescText | core/src/schema.rs:449-509 | The parser gives back every descriptor with proper names from its text, also behind a space |
| TypeRoundTrip.NeutralParens | core/src/schema.rs:449-509 | A balanced text in parentheses joins the token of the enclosing level unchanged |
| TypeRoundTrip.PrintIsDescText | core/src/schema.rs:108-160 | The printed type is the text of its descriptor |
| TypeRoundTrip.FromDescOf | core/src/schema.rs:183-286 | The descriptor of a type converts to that type with canonical decimal widths, or is refused if an empty collection type is in it |
| TypeRoundTrip.TypeRoundTripText | core/src/schema.rs:108-509 | Every printed type is parsed back as itself up to the decimal width that the precision selects, and refused exactly when an empty collection type is in it |
| TypeRoundTrip.NullableRoundTrip | core/src/schema.rs:449-509 | With NULL behind it, a printed type is parsed as the nullable one |
| TypeRoundTrip.ServerRoundTrip | core/src/schema.rs:183-286 | Every type, empty collections included, is read from the text that the server has for it, with `Array(Nothing)` and `Map(Nothing)` for those, and at any depth either `Nullable(T)` or `T NULL` |
| TypeRoundTrip.NullableTwice | core/src/schema.rs:226-237 | `Nullable(T NULL)` is read as nullable twice |
| TypeRoundTrip.WrongArity | core/src/schema.rs:208-280 | A descriptor with the wrong number of arguments is refused, or is a panic where the arguments are indexed |
| TypeRoundTrip.UnbalancedRefused | core/src/schema.rs:449-509 | A text whose parentheses do not balance is refused, and no text makes the parser panic |
| TypeRoundTrip.TrailingWord | core/src/schema.rs:493-505 | A word behind a type is refused unless it is NULL, which makes the descriptor nullable |
| Pages.PageStream.PollNext | core/src/pages.rs:155-197 | The self-recursive poll over first page, pending future and next URI ends and does what `PollPages` says |
| Pages.PageStream.WaitForSchema | core/src/pages.rs:114-152 | Discards pages that say nothing, puts back the page that told the schema, and gives that schema |
| Pages.PageStream.AddBack | core/src/pages.rs:110-112 | The page becomes the first page, and nothing else changes |
| Pages.PageStream.QueryAll | core/src/client.rs:826-841 | The gathering loop gives what `Gathered` says, or the error of the chain |
| Pages.PollCounts | core/src/pages.rs:155-197 | Every poll that does not report the end uses up some of a finite count, so the stream ends; the end is reported only when nothing is left |
| PageProofs.PollWaits | core/src/pages.rs:155-197 | Over every chain of replies, each pending poll uses up one poll of delay and no other poll any; the stream ends or fails only when none is left |
| PageProofs.PollKeepsPages | core/src/pages.rs:155-197 | Over every chain of replies and every pattern of pending polls, a poll keeps the pages to come but for the one it gives |
| PageProofs.GatheredPages | core/src/pages.rs:52-68 | Gathering succeeds if and only if the chain does not fail, and then holds the rows and batches of every page delivered, in order, and the schema, progress and statistics of the last |
| PageProofs.GatheredData | core/src/pages.rs:162-192 | With or without progress pages, a whole query gathers the text rows of all pages |
| PageProofs.GatheredBatches | core/src/pages.rs:162-192 | It gathers the record batches of all pages if and only if no skipped page had any |
| RowStream.RestApiRows.PollNext | driver/src/rest_api.rs:381-433 | One poll of the row stream changes the two buffers, the schema and the statistics as `PollRows` says |
| RowStream.RestApiRows.AddPage | driver/src/rest_api.rs:400-418 | A page fixes a schema that is not known yet and joins its rows to a buffer |
| StreamProofs.PollRowsWork | driver/src/rest_api.rs:381-433 | Every poll but the one that reports the end uses up some of a finite amount of work, so every run ends |
| StreamProofs.PollRowsKeeps | driver/src/rest_api.rs:381-433 | From any state, what one poll gives, a row, statistics, an error or a pending poll, is exactly what is then no longer to be given; the end is reported only when nothing is |
| StreamProofs.DrainedYields | driver/src/rest_api.rs:378-434 | A whole run from any state gives exactly what is buffered and what the pages to come give, kind by kind and in order, with one error for each page that cannot be decoded and one if the chain fails, and one pending poll for each poll of delay |
| StreamProofs.DrainedRows | driver/src/rest_api.rs:378-434 | If all pages can be decoded, a whole run gives the buffered rows and statistics and those of all pages to come, in order, none lost or repeated, and an error once if the chain fails and else never |
| StreamProofs.AwaitingKeeps | core/src/pages.rs:114-152 | Waiting for the schema loses no row, though it discards pages and puts one back |
| StreamProofs.StreamStarts | driver/src/rest_api.rs:363-375 | The stream starts if and only if the first page that says anything has a schema that can be read, or the chain ends without such a page and without a failure |
| StreamProofs.StreamYields | driver/src/rest_api.rs:362-434 | Once started, the stream gives exactly what the pages give from the first that says anything, decodable or not, and one more error if the chain fails |
| StreamProofs.StreamRows | driver/src/rest_api.rs:362-434 | From the first response on, with any delays, the stream gives the text rows and the batch rows of all pages, each in order, the statistics of all pages from the first that says anything, and one error if the chain fails and else none, provided that all pages can be decoded |
| StreamProofs.SingleFormat | driver/src/rest_api.rs:409-417 | When all pages are text, or all are batches, the rows of the stream are of that one kind |
| StreamProofs.DrainedDecodes | driver/src/rest_api.rs:388-391 | A known schema stays for the whole run, and every text row is decoded with it |
| StreamProofs.AwaitedSchema | core/src/pages.rs:114-152 | The wait succeeds exactly as `StreamStarts` says; it gives the schema of the first page that says anything, puts that page back and takes no other away |
| StreamProofs.FromTellingIs | core/src/pages.rs:120-124 | The pages thrown away have no schema, no rows, no batches and, where it is wanted, no progress; the first kept has one of them |
| StreamProofs.StreamDecodes | driver/src/rest_api.rs:363-391 | Every text row of the stream is decoded with one schema: that of the first page that tells anything, if it has one, and else the first that a page gives, provided that no text row comes before it |
| StreamProofs.RowHeldBack | driver/src/rest_api.rs:385-428 | A row given before the pages have ended leaves another one in a buffer |
| StreamProofs.LastRow | driver/src/rest_api.rs:385-428 | The last row of a run comes only when there is no first page, no pending request and no next URI |
| ClientManager.AlwaysWatched | core/src/client_mgr.rs:51-99 | In every interleaving, while a client is registered the interval is the busy one, or a notification is pending, or the loop has just got it |
| ClientManager.RegisteredIsNotLeftIdle | core/src/client_mgr.rs:51-99 | So in every run a loop asleep without a notification, while a client is registered, sleeps the busy interval |
| ClientManager.IdleOnlyWhenEmpty | core/src/client_mgr.rs:60-70 | In every run the interval is 3600 or the busy one; it becomes 3600 exactly at a recheck where no client is registered, and the busy one exactly when a notification is acted on |
| ClientManager.EmptyRoundTurnsIdle | core/src/client_mgr.rs:63-70 | A round that finds no client, undisturbed, ends with the interval of 3600 |
| ClientManager.MapIsRegistered | core/src/client_mgr.rs:89-99 | After any run the map holds exactly the sessions that have registered and not unregistered since, each with its last client |
| ClientManager.NotifiesWhenAlone | core/src/client_mgr.rs:89-95 | Registering leaves a notification if and only if no other session is registered, and only waking takes it away |
| ClientManager.BeatsOnlyTheLiving | core/src/client_mgr.rs:71-82 | A heartbeat goes only to a client that the round still has to go through and that is alive |
| ClientManager.NeverStuck | core/src/client_mgr.rs:51-99 | In every state the loop has a step, and sessions may always act |
| ClientManager.RoundReaches | core/src/client_mgr.rs:63-83 | Whatever is registered or dropped meanwhile, each client registered from a timeout until the loop sleeps again has been sent a heartbeat |
| ClientManager.Manager.RegisterClient | core/src/client_mgr.rs:89-95 | Inserts the client and leaves a notification exactly when the map then has one entry |
| ClientManager.Manager.UnregisterClient | core/src/client_mgr.rs:97-99 | Removes the session and changes nothing else |
| ClientManager.Manager.CopyClients | core/src/client_mgr.rs:64-65 | Copies the map of clients to go through, or finds it empty |
| ClientManager.Manager.RecheckEmpty | core/src/client_mgr.rs:65-69 | Sets the idle interval only if the map is still empty under the lock |
| ClientManager.Manager.SendHeartbeat | core/src/client_mgr.rs:71-82 | Sends a heartbeat to a copied client if it is alive, and takes it off the copy |
| ClientManager.Manager.Run | core/src/client_mgr.rs:51-99 | The background loop, under any schedule of its own steps and of sessions that come and go, keeps the wake-up invariant all the way and ends where the steps lead |
| Retry.ApiClient.QueryRequestHelper | core/src/client.rs:1253-1411 | The loop with its retry counter that a refresh resets ends, sends and returns what `Helper` says, for every sequence of outcomes |
| Retry.ApiClient.RefreshSessionToken | core/src/client.rs:1198-1226 | The nested call with its own retries; new tokens are stored exactly when the answer brings them |
| Retry.HelperRound | core/src/client.rs:1253-1411 | The loop is one round of tries, each but the last worth retrying and each after the first carrying the reloaded token, or what the one before it carried; then its result or, at a refreshable 401, a renewal followed by the loop from a fresh counter |
| Retry.RefreshCall | core/src/client.rs:1198-1226 | A refresh is one round of requests with the refresh token, retried at 503, that never refreshes again, and brings tokens exactly when its last request is answered by a 200 with them |
| Retry.SendsOf | core/src/client.rs:1253-1411 | Every request sends one round, or one round, a refresh round and one more round; the second starts without authorization; the result is that of the last round, or an error when the refresh fails |
| Retry.FirstAnswer | core/src/client.rs:1335-1406 | With session tokens, a first answer of 401 that may refresh is followed by a refresh if and only if its code is 5101 or 5103; a 503 that may be retried is followed by the same request if and only if a try is left; any other status is the result |
| Retry.BareAfterRefresh | core/src/client.rs:1357-1400 | A request of the round after a refresh goes out without authorization if and only if none before it in that round was answered by a reload of the token file |
| Retry.SendsBounded | core/src/client.rs:1253-1411 | For every sequence of outcomes, at most twice max(1, retry count) sends and max(1, retry count) refresh sends; a call that may not refresh stays within one round |
| Retry.GivesUpOnlyWhenExhausted | core/src/client.rs:1264-1410 | A response is given back only as the answer to the last request, and one that could be retried only after a full round |
| CommentScanner.ScanLines | cli/src/sql_parser.rs:64-71 | Scanning two texts joined by a newline is scanning one and then the other from the mode and open offset it left, despite the two-byte lookahead |
| CommentScanner.ScanJoined | cli/src/sql_parser.rs:64-71 | The same for any number of lines |
| CommentScanner.LexedScan | cli/src/sql_parser.rs:87-173 | However a text is made of texts in single quotes, double quotes or double dollars, line comments, block comments and other characters, with or without one of them left open at the end: an offset is reported if and only if a block comment is left open, and it is where that one opens |
| CommentScanner.Lexed | cli/src/sql_parser.rs:87-173 | Every text is made of such pieces |
| CommentScanner.ScanPiece | cli/src/sql_parser.rs:99-162 | Each piece, whatever marks it holds, leaves the scanner in plain text behind it, at any offset |
| CommentScanner.OpenIff | cli/src/sql_parser.rs:87-173 | From any mode, the scan ends in a comment opened at an offset if and only if the text before it scans to plain text, a comment opens there, and nothing behind closes it |
| CommentScanner.SafeCut | cli/src/sql_parser.rs:168-184 | The scanner reports an offset if and only if a comment opens there that nothing closes, and the text cut off before it has no open comment |
| CommentScanner.UnclosedBlockCommentStart | cli/src/sql_parser.rs:87-173 | The byte loop with its five flags computes the automaton's answer for every text |
| Statements.SplitConserves | cli/src/sql_parser.rs:189-229 | For any lawful tokenizer, the pieces cut off and the remainder are the text, no character lost |
| Statements.SplitSettles | cli/src/sql_parser.rs:189-229 | No statement that ends is left in the remainder |
| Statements.FirstCutIsFirst | cli/src/sql_parser.rs:194-227 | A statement is cut off behind the first token that ends one, and is valid if and only if every token up to there is; without such a token nothing is cut off |
| Statements.SlashGAlwaysEnds | cli/src/sql_parser.rs:199-203 | `a\G` as one token ends a statement where the parser is not interactive, with any delimiter and line mode |
| Statements.StatementIs | cli/src/sql_parser.rs:205-214 | A statement given is its valid piece without all the delimiters at the very end and then without the white space around it, and nothing else is taken away |
| Statements.StatementGiven | cli/src/sql_parser.rs:205-214 | A piece gives a statement if and only if its tokens are valid and it is not a delimiter alone |
| Statements.SplitReports | cli/src/sql_parser.rs:219-224 | The error reported is the last one among all the tokens read, however the text is cut |
| Statements.EndsQueryIff | cli/src/sql_parser.rs:196-203 | What ends a statement: the delimiter, `G` behind a backslash in the interactive mode, any token that ends in a backslash and `G` |
| Statements.ParseConserves | cli/src/sql_parser.rs:176-241 | The pieces and the remainder are the query, and the tail of an open comment is whole at the end of the remainder |
| Statements.SessionConserves | cli/src/sql_parser.rs:35-79 | Over a whole session in multi-line mode, for any lines, the pieces of all calls and the final buffer are the first buffer and all that was typed, newlines included where a line finds the buffer not empty |
| Statements.LineModes | cli/src/sql_parser.rs:35-64 | Which lines give nothing, which are given as they are, and which join the buffer |
| Statements.OpenCommentWaits | cli/src/sql_parser.rs:64-75 | A comment open in the buffer is found at the same offset after another line joins, unless and only unless the line closes it |
| Statements.SqlParser.FindEnd | cli/src/sql_parser.rs:194-227 | The loop over the tokens finds where the first statement ends, whether it is valid, and the last error |
| Statements.SqlParser.ParseStatements | cli/src/sql_parser.rs:176-241 | The labelled loop ends and gives the statements, remainder and error of `Parse` |
| Statements.SqlParser.ParseLine | cli/src/sql_parser.rs:35-79 | A line is a command, a single-line statement, or joins the buffer and is parsed with it |
| SqlLiterals.EscapedIs | driver/src/params.rs:64-66 | The two chained replacements do not disturb each other |
| SqlLiterals.QuotedSqlRoundTrip | driver/src/params.rs:63-66 | The driver's own quoted-text reader gives back exactly the bound string and stops behind it if and only if no quote follows |
| SqlLiterals.LiteralsReadBack | driver/src/params.rs:43-61 | Whatever strings and objects a parameter holds, at any depth of arrays, reading its text from left to right gives exactly their literals, in order, and goes on with what follows |
| SqlLiterals.SqlRoundTrip | driver/src/params.rs:43-66 | Every JSON value, at any depth, has an SQL text that an SQL reader of keywords, numbers, strings, strings cast to JSON and bracketed lists reads back as that value, and which ends where it ends |
| Sorting.SortChosen | driver/src/placeholder.rs:88-106 | Choosing by a key-preserving rule and the stable sort commute |
| Placeholders.ParamIsFilled | driver/src/params.rs:81-96 | Of a list, the code takes for a `?` with k of them before it the parameter numbered k from 0, and for `$N` the one numbered N from 1; of named parameters, for `:name` the one of that name; for any other mark none |
| TextEdits.RightToLeft | driver/src/placeholder.rs:104-112 | Replacing spaced spans in place from right to left never leaves the text's range and is replacing them all at once |
| TextEdits.OutOfRangePanics | driver/src/placeholder.rs:104-112 | An edit outside of the text is a panic, and nothing else goes wrong |
| TextEdits.PassesIff | driver/src/placeholder.rs:104-124 | For early edits that never shorten the text and late edits that replace a `$N` token standing apart, two passes at the original offsets are one simultaneous replacement if and only if no span of the second has been moved by the first |
| TextEdits.LastLateMoved | driver/src/placeholder.rs:114-124 | A `$N` that has been moved could come out right only if the character in front of it were a digit or `$` |
| Placeholders.CodeIsTwoPasses | driver/src/placeholder.rs:86-127 | In whatever order the placeholders are visited, the code is two passes over the edits in text order, the n-th `?` having the n-th parameter |
| Placeholders.EditedIsBound | driver/src/placeholder.rs:86-127 | Those edits at once are the one pass from left to right that gives the n-th `?` the n-th value, `$N` the N-th and `:name` the one of that name, and leaves any other mark as it is |
| Placeholders.BoundWhenPut | driver/src/placeholder.rs:86-127 | Where nothing is moved, the statement is bound as that one pass binds it |
| Placeholders.OneFamilyBound | driver/src/placeholder.rs:86-127 | With one family of placeholders a statement is always bound so |
| Placeholders.BoundIff | driver/src/placeholder.rs:86-127 | For the placeholder tokens of a statement, it is bound so if and only if no `?` whose parameter is longer than one character stands before a `$N` that has a parameter |
| Placeholders.MixedFamiliesMisplaced | driver/src/placeholder.rs:114-124 | `SELECT ?, $1` with the parameter 12 is bound as `SELECT 12,121` |
| Placeholders.PlaceholderVisitor.Drive | driver/src/placeholder.rs:48-78 | The walk pushes each placeholder onto the list of its kind, in visit order |
| Placeholders.PlaceholderVisitor.HasDollarPositions | driver/src/placeholder.rs:81-84 | Tells whether the statement has a `$N` |
| Placeholders.PlaceholderVisitor.ReplaceSqlText | driver/src/placeholder.rs:86-127 | The sorts and the two reverse loops compute `ReplaceSql` from a fresh visitor |
| Placeholders.ReplaceFromRight | driver/src/placeholder.rs:107-111 | The reverse loop over the results applies them from the last to the first, or panics where one is out of range |

## Left out

- Floats, dates, timestamps, variants, vectors, geometry and geography: their text is the business of other libraries; as leaf types they are refused by the model's reader.
- The display form of values (`display_value`) and the Arrow decoder except for intervals: they are not part of the codec that is read back.
- Printing of integers, of `i256` and of hexadecimal by other libraries: replaced by plain digit functions.
- Invalid UTF-8 and non-ASCII white space: texts are sequences of characters that stand for bytes, and trimming knows ASCII white space only.
- Decimals.DecimalRoundTrip: the scale is at most the precision, as the server declares it, and a 64-bit or 128-bit decimal has a precision of at most 38; otherwise the printer's power of ten can overflow.
- TypeText.ParseTypeDesc: the depth of parentheses is unbounded, while the source counts in an `i32`.
- Conversion of an Arrow schema into a schema, and the settings of a result (time zone, formats): a batch carries the outcome of its conversion.
- Pages: the registration of a heartbeat, the finalising request of a dropped stream, and the headers of a page request.
- The stream with text pages and batch pages mixed: its text rows and its batch rows are each given in order, but the order between them is not stated, because the code does not keep it.
- StreamProofs.StreamRows: pages are required to be decodable; what follows an error in decoding is not stated.
- ClientManager: durations; a step may be taken whenever it is enabled, and a timeout may win over a pending notification.
- Retry: delays, logging, the contents of requests except for their authorization, and how responses turn into errors.
- The tokenizer and the parser of SQL: they are parameters, with spans in range; that the placeholders of a syntax tree do not overlap, that a `?` is one character, and that a `$N` is not directly behind a digit, a `$` or another placeholder, is required.
- Merging of parameters, macros, and parameters of other types than JSON values.
- HTTP, cookies, uploads and downloads, FlightSQL, connection strings, authentication, the command line's display and settings, the Node and Python bindings.
