# VRConnect ingestion pipeline, modelled in Dafny

VRConnect receives vital-sign snapshots from VitalRecorder over Socket.IO,
turns each one into a typed `ProcessedData` snapshot and hands it to the
console and BLE outputs. This project models the deterministic core of that
path and proves properties of it:

- **Format detection** (`Decompressor`): the byte-prefix classifier of
  `decompress` that tells an Engine.IO message byte `0x04` in front of a zlib
  stream from a bare zlib stream (CMF `0x78`, FLG `0x01`, `0x9C` or `0xDA`,
  the header of section 2.2 of RFC 1950) and from plain bytes. The zlib codec
  is a parameter.
- **JSON repair** (`Cleaner`): the five rewrites of `clean`, applied in
  order. They strip control characters, turn signed and word-bounded `NaN`
  and `Inf`/`Infinity` tokens into `null` (section 6 of RFC 8259 has no
  such numbers), and turn comma-decimals in object values and in arrays into
  dot-decimals. Each regular expression of the source is written out as a
  scanner over `seq<char>` with leftmost, non-overlapping `replace_all`.
- **Wire model** (`VitalData`): the `VitalData`/`VitalRoom`/`VitalTrack`/
  `VitalRecord`/`VitalEvent` structures, the effective-timestamp rule, the
  flexible id and timestamp readers, and the field-by-field reading of a
  parsed JSON document (`Json.JsonValue`) with the defaults the structures
  declare.
- **Snapshot transformation** (`Transformer`, `ProcessedData`): `transform`
  as nested loops over rooms, tracks and records, with name fallbacks, value
  classification (Number, Waveform, String, Other) and waveform statistics.
  `ProcessedData::new` flattens the rooms and `get_non_waveform_tracks`
  filters them.
- **Connection state machine** (`SocketIoServer`): `handle_connection` as a
  loop over a trace of incoming frames. It holds the single pending
  binary-event placeholder slot, answers the Engine.IO ping (`2`) and
  WebSocket pings, and runs binary frames through `process_data`
  (decompress, UTF-8, clean, parse, transform) only when a `451-`
  placeholder announced them.
- **Edges**: the BLE output (`Ble`) covers `convert_track`, the filter,
  count and truncation of `output` over the shared buffer, and the
  characteristic-UUID derivation. The configuration (`Configuration`) covers
  `validate`, `merge_with` and `socket_url`. The logger (`Logging`) covers
  `parse_level`, `format_level`, the daily log-file name and the log-line
  layout.

Numbers (`f64`) are modelled as `real`, integers as unbounded `int`, with the
`i64`/`i32` ranges written out where the source checks them. The clock, the
session id, the zlib codec, UTF-8 decoding, the JSON text parser and
serialiser, and the `{:.3}`/`to_rfc3339` renderers are parameters.
`Wrappers`, `Errors`, `Json` and `Text` hold shared datatypes (`Option`,
`Result`, `VitalError`, `JsonValue`) and decimal/upper-case helpers.

The array rule of the JSON repair cannot tell a list of integers from a list
of comma-decimals: `[1,2,3]` becomes `[1.2,3]`
(`Cleaner.IntegerArrayIsReadAsDecimals`). This is how the pattern at
src/processor/cleaner.rs:41 is meant to read the sender's locale-formatted
arrays, so it is stated as a property of the model rather than as a finding.

`parse_level` accepts `TRACE` (src/utils/logger.rs:83) but `Config::validate`
refuses it (src/config/mod.rs:157). Because validation runs before the logger
is configured, TRACE can never reach the logger.
`Logging.TraceOnlyInLogger` and `Logging.ValidatedLevelParses` state both
halves.

## Model

| member | source | states |
|---|---|---|
| Decompressor.Detect | src/input/decompressor.rs:46-64 | A `0x04 0x78` prefix is the Socket.IO zlib case, `0x78` followed by FLG `0x01`/`0x9C`/`0xDA` is bare zlib, and anything shorter than two bytes is plain; `data[1]` is read only when there are two bytes |
| Decompressor.DecompressZlib | src/input/decompressor.rs:84-98 | A codec success is returned as is; a codec failure becomes a Decompression error carrying the codec's message |
| Decompressor.Decompress | src/input/decompressor.rs:46-69 | Plain data is returned unchanged, the Socket.IO case inflates from index 1, bare zlib inflates the whole input, and every error is a Decompression error |
| Decompressor.EmptyPassesThrough | src/input/decompressor.rs:47-49 | Empty input gives empty output without calling the codec |
| Decompressor.SocketIoDropsOnlyLeadingByte | src/input/decompressor.rs:52-55 | Input starting `0x04 0x78` is inflated from index 1, and exactly the leading `0x04` is dropped |
| Decompressor.ZlibInflatedWhole | src/input/decompressor.rs:57-64 | A bare zlib stream with an accepted FLG is handed to the codec whole |
| Decompressor.OthersPassThrough | src/input/decompressor.rs:52-68 | Every input without a recognised prefix is returned byte for byte |
| Decompressor.LoneMarkerBytesArePlain | src/input/decompressor.rs:52-68 | A lone `0x04` or `0x78` is plain data |
| Decompressor.AcceptedHeadersAreValid | src/input/decompressor.rs:57-60 | Every accepted CMF/FLG pair passes the RFC 1950 check (CMF*256+FLG divisible by 31), announces deflate with a 32 KiB window and sets no preset dictionary |
| Decompressor.FastestLevelHeaderIsPassedThrough | src/input/decompressor.rs:58-68 | `0x78 0x5E` is a valid zlib header, yet such input is passed through uncompressed |
| Decompressor.InflateFailureIsAnError | src/input/decompressor.rs:84-90 | For compressed input, the result is an error exactly when the codec fails, and otherwise exactly the codec's output, never a passthrough |
| Cleaner.LowerAscii | src/processor/cleaner.rs:38-39 | The `(?i)` fold: letters map to lower case and every other character is unchanged |
| Cleaner.RemoveControlChars | src/processor/cleaner.rs:94-96 | The output holds no character in 0x00-0x1F or 0x7F and is no longer than the input |
| Cleaner.RemoveControlCharsAppend | src/processor/cleaner.rs:94-96 | Deletion distributes over concatenation, so the kept characters stay in order |
| Cleaner.RemoveControlCharsCounts | src/processor/cleaner.rs:94-96 | Every control character occurs zero times in the output and every other character as often as in the input |
| Cleaner.RemoveControlCharsIdentity | src/processor/cleaner.rs:94-96 | The text is unchanged exactly when it holds no control character |
| Cleaner.TokenMatch | src/processor/cleaner.rs:38-39 | A NaN or infinity match ends inside the text and is replaced by `null` |
| Cleaner.KeywordInSlice | src/processor/cleaner.rs:38-39 | The case-insensitive keyword test reads the same in a slice as in the whole text |
| Cleaner.TokenMatchSound | src/processor/cleaner.rs:38-39 | Every NaN or infinity match spans a whole optionally signed token with no word character right before or right after it, so a lone sign is never replaced |
| Cleaner.TokenMatchComplete | src/processor/cleaner.rs:38-39 | Every whole optionally signed token with no word character right before or right after it is matched exactly and replaced by `null` |
| Cleaner.NoMatchIffNoToken | src/processor/cleaner.rs:38-39 | A token pattern matches nowhere exactly when the text holds no token standing clear of word characters |
| Cleaner.SkipSpaces | src/processor/cleaner.rs:40-41 | `\s*` is greedy: every skipped character is white space and the next one is not |
| Cleaner.SkipDigits | src/processor/cleaner.rs:40-41 | `\d+` is greedy: every skipped character is a digit and the next one is not |
| Cleaner.NumberStart | src/processor/cleaner.rs:40-41 | A number part exists exactly when the introducer's first characters are there (`":` for the object rule, `[` or `,` for the array rule), and it starts right after the whole introducer: `":` and a maximal white-space run, `[` alone, or `,` and a maximal white-space run |
| Cleaner.DecimalMatch | src/processor/cleaner.rs:40-41 | A comma-decimal match ends inside the text; `Cleaner.DecimalMatchSound` and `Cleaner.DecimalMatchComplete` state what it accepts |
| Cleaner.DecimalMatchSound | src/processor/cleaner.rs:40-41 | Every decimal match starts at the pattern's introducer and covers a whole occurrence (for the array rule, followed by `,` or `]`), and its text is that occurrence with the comma turned into a dot |
| Cleaner.DecimalMatchComplete | src/processor/cleaner.rs:40-41 | Every whole occurrence of a decimal pattern is a match, with its comma turned into a dot |
| Cleaner.NoMatchIffNoDecimal | src/processor/cleaner.rs:40-41 | A decimal pattern matches nowhere exactly when the text holds no occurrence of it |
| Cleaner.WithoutIntroducerUnmatched | src/processor/cleaner.rs:40-41 | No decimal match starts where the introducer's first characters are missing |
| Cleaner.SkipSpacesTo | src/processor/cleaner.rs:40-41 | A white-space run ending before a non-space is exactly what `\s*` takes |
| Cleaner.SkipDigitsTo | src/processor/cleaner.rs:40-41 | A digit run ending before a non-digit is exactly what `\d+` takes |
| Cleaner.NumberPartFound | src/processor/cleaner.rs:40-41 | After the introducer, an optional minus, a digit run, a comma and a maximal digit run (followed by `,` or `]` for the array rule) form a match whose text has the comma turned into a dot |
| Cleaner.ObjectDecimalFound | src/processor/cleaner.rs:40-40 | Wherever `":`, white space, an optional minus, digits, a comma and digits occur, the object pattern matches there, takes every fraction digit and turns that comma into a dot |
| Cleaner.ArrayDecimalFound | src/processor/cleaner.rs:41-41 | After `[` or a comma and white space, an optional minus, digits, a comma and digits followed by `,` or `]` match there, with that comma turned into a dot |
| Cleaner.MultiDigitObjectDecimal | src/processor/cleaner.rs:147-149 | Integer parts of any length are read: `":12,5` becomes `":12.5` |
| Cleaner.MatchAt | src/processor/cleaner.rs:38-41 | Each character of a replacement is either new (`null`, `.`) or the matched character at the same offset |
| Cleaner.Clean | src/processor/cleaner.rs:58-79 | `clean` always returns `Ok`, and its value is the five stages applied in the source's order: control characters, NaN, infinity, object decimals, array decimals |
| Cleaner.DecimalMatchShape | src/processor/cleaner.rs:40-41 | A decimal match keeps its length and changes exactly one character, a comma between two digits, into a dot |
| Cleaner.MatchChanges | src/processor/cleaner.rs:38-41 | Every match's replacement differs from the text it replaces |
| Cleaner.ReplaceAllIdentity | src/processor/cleaner.rs:111-168 | A stage leaves the text unchanged exactly when its pattern matches nowhere |
| Cleaner.ReplaceAll | src/processor/cleaner.rs:111-168 | `replace_all` of the two decimal patterns keeps the length of the text, since each match only turns a comma into a dot |
| Cleaner.ReplaceNan | src/processor/cleaner.rs:111-113 | The text is unchanged exactly when no NaN token matches anywhere, and no control character is introduced |
| Cleaner.ReplaceInfinity | src/processor/cleaner.rs:128-132 | The text is unchanged exactly when no Infinity token matches anywhere, and no control character is introduced |
| Cleaner.TokenStagesUnchangedIff | src/processor/cleaner.rs:111-132 | The NaN and infinity stages leave the text unchanged exactly when it holds no token of theirs standing clear of word characters |
| Cleaner.FixDecimalObj | src/processor/cleaner.rs:147-149 | Each character is kept or is a comma between digits turned into a dot, and the text is unchanged exactly when the object-decimal pattern matches nowhere |
| Cleaner.FixDecimalArr | src/processor/cleaner.rs:164-168 | Each character is kept or is a comma between digits turned into a dot, and the text is unchanged exactly when the array-decimal pattern matches nowhere |
| Cleaner.DecimalStagesUnchangedIff | src/processor/cleaner.rs:147-168 | Each decimal stage leaves the text unchanged exactly when the text holds no occurrence of its pattern |
| Cleaner.ReplaceAllChangedAtMatch | src/processor/cleaner.rs:111-168 | Where a match starts, the rewritten text differs from the input |
| Cleaner.ReplaceAllKeepsNoControl | src/processor/cleaner.rs:58-79 | No stage after the first introduces a control character |
| Cleaner.DecimalFixPointwise | src/processor/cleaner.rs:147-168 | The decimal stages keep the length and change only commas between two digits, each into a dot |
| Cleaner.DecimalMatchNeedsDigitCommaDigit | src/processor/cleaner.rs:40-41 | Every decimal match covers a digit-comma-digit sequence lying inside the matched text |
| Cleaner.NoDecimalWithoutDigitCommaDigit | src/processor/cleaner.rs:348-359 | Text without a digit-comma-digit sequence, such as `[10, 20, 30]`, has no decimal match |
| Cleaner.ObjectDecimalExample | src/processor/cleaner.rs:397-410 | `":-1,5` becomes `":-1.5`: the sign is kept and the comma becomes a dot |
| Cleaner.IntegerArrayIsReadAsDecimals | src/processor/cleaner.rs:164-168 | `[1,2,3]` becomes `[1.2,3]`: the first pair matches and the scan resumes after it |
| Cleaner.TokenStageSplits | src/processor/cleaner.rs:111-132 | The NaN and infinity stages work piecewise on text split after a separator |
| Cleaner.WholeTokenMatches | src/processor/cleaner.rs:38-39 | A whole signed or unsigned `nan`/`inf`/`infinity` token followed by a non-word character or the end is one match, replaced whole by `null` |
| Cleaner.NoTokenAtSeparator | src/processor/cleaner.rs:38-39 | No token match starts at a separator character |
| Cleaner.AfterTokenAtSeparator | src/processor/cleaner.rs:111-132 | After a whole token, the text from a separator on is rewritten as if it stood alone |
| Cleaner.TokenThenRest | src/processor/cleaner.rs:111-132 | A whole token followed by nothing or by a separator becomes `null`, and the rest is rewritten on its own |
| Cleaner.TokenBecomesNull | src/processor/cleaner.rs:111-132 | A whole token between separators, or at either end, becomes `null` and the text around it is rewritten independently |
| Cleaner.NanMatchesBetweenNonWordChars | src/processor/cleaner.rs:38-38 | `nan` in any case, with no word character on either side, is matched and replaced by `null`, whatever its other neighbours (`x-nan`) |
| Cleaner.InfinityMatchesBetweenNonWordChars | src/processor/cleaner.rs:39-39 | `infinity` in any case, with no word character on either side, is matched whole (the look-ahead refuses the shorter `inf`) and replaced by `null` |
| Cleaner.WordWithoutTokenIsKept | src/processor/cleaner.rs:223-235 | A word that is not itself a token, such as `banana` or `info`, is left unchanged |
| Cleaner.CleanHasNoControl | src/processor/cleaner.rs:58-79 | The output of `clean` holds no control character |
| Cleaner.CleanPassesThrough | src/processor/cleaner.rs:348-359 | Text with no control character, no NaN or infinity token standing clear of word characters, and no digit-comma-digit sequence comes out unchanged |
| Cleaner.CleanEmpty | src/processor/cleaner.rs:369-372 | The empty text cleans to the empty text |
| Cleaner.KeptBetween | src/processor/cleaner.rs:111-168 | Where no match starts in a stretch of text, `replace_all` copies that stretch unchanged |
| Cleaner.OneMatchAmongKept | src/processor/cleaner.rs:111-168 | A single match with no other match anywhere is the only change `replace_all` makes |
| Cleaner.TokenMatchNeedsInitial | src/processor/cleaner.rs:38-39 | A token match starts at the keyword's first letter in either case, or at a sign right before it |
| Cleaner.WithoutInitialIsKept | src/processor/cleaner.rs:111-132 | Text without the keyword's first letter is left unchanged by the token stage |
| Cleaner.DecimalFreeFrom | src/processor/cleaner.rs:147-168 | Text without a digit-comma-digit sequence is left unchanged by a decimal stage |
| Cleaner.TokenBetweenKeptText | src/processor/cleaner.rs:111-132 | A token between separators, with text the stage keeps on both sides, becomes `null` and nothing else changes |
| Cleaner.CleanThroughStages | src/processor/cleaner.rs:58-79 | `clean` yields the output of the last stage when each stage is fed the previous one's output |
| Cleaner.CleanRepairsExample | src/processor/cleaner.rs:322-337 | `{"hr": 75,5, "temp": NaN}` becomes `{"hr": 75.5, "temp": null}`: the comma decimal and the NaN are both repaired |
| VitalData.GetEffectiveTimestamp | src/domain/vital_data.rs:108-110 | The record's `dt` when present, else its `time` |
| VitalData.EffectiveTimestampMissing | src/domain/vital_data.rs:108-110 | The effective timestamp is missing exactly when both `dt` and `time` are |
| VitalData.Truncate | src/domain/vital_data.rs:163 | Rounding toward zero: a non-negative number goes to the largest integer not above it, a negative one to the smallest integer not below it |
| VitalData.Saturate | src/domain/vital_data.rs:163 | Values inside the `i64` range are unchanged; values outside are clamped to the nearer bound |
| VitalData.FloatToI64 | src/domain/vital_data.rs:163 | `f as i64` is always in the `i64` range, and equals the truncated value whenever that fits |
| VitalData.DeserializeFlexibleId | src/domain/vital_data.rs:120-138 | `null` reads as no id, a string is kept verbatim, an `i64` reads as a decimal string that parses back to it, and anything else is an error |
| VitalData.IntegerIdExample | src/domain/vital_data.rs:236-245 | The integer id 456 reads as "456" |
| VitalData.DeserializeFlexibleTimestamp | src/domain/vital_data.rs:147-165 | `null` reads as none, an `i64` is kept, a float is truncated toward zero, every result fits `i64`, and non-numbers are errors |
| VitalData.FloatTimestampExample | src/domain/vital_data.rs:268-277 | 1234567890.5 reads as 1234567890 |
| VitalData.Lookup | src/domain/vital_data.rs:15-95 | A field is absent exactly when no member has its key; when present, exactly one member has the key and the value is that member's; when repeated, two members share the key |
| VitalData.OptionalString | src/domain/vital_data.rs:42-55 | A missing or `null` `Option<String>` field reads as `None` and a string as `Some` of it; a repeated key is a duplicate-field error; it reads exactly when the key is not repeated and its value, if any, is `null` or a string |
| VitalData.OptionalReal | src/domain/vital_data.rs:57-58 | A missing or `null` `Option<f64>` field reads as `None` and a number as `Some` of its `as_f64` value; a repeated key is a duplicate-field error; it reads exactly when the key is not repeated and its value, if any, is `null` or a number |
| VitalData.OptionalI32 | src/domain/vital_data.rs:24-25 | A missing or `null` `Option<i32>` field reads as `None` and an integer that fits `i32` as `Some` of it; a repeated key is a duplicate-field error; it reads exactly when the key is not repeated and its value, if any, is `null` or such an integer |
| VitalData.FlexibleIdField | src/domain/vital_data.rs:39-40 | A missing `id` (marked `default`) reads as `None`, a repeated one is a duplicate-field error, and a present one is read by `deserialize_flexible_id` |
| VitalData.FlexibleTimestampField | src/domain/vital_data.rs:69-81 | A missing `dt` or `time` (marked `default`) reads as `None`, a repeated one is a duplicate-field error, and a present one is read by `deserialize_flexible_timestamp` |
| VitalData.RequiredString | src/domain/vital_data.rs:17-18 | A required string succeeds exactly when the key is present once with a string value, and yields that string; a missing key is a missing-field error and a repeated one a duplicate-field error |
| VitalData.RequiredValue | src/domain/vital_data.rs:66-67 | A required `Value` succeeds exactly when the key is present once, whatever the value (`null` included), and yields that value; a missing key is a missing-field error and a repeated one a duplicate-field error |
| VitalData.DecodeList | src/domain/vital_data.rs:30-34 | A list decodes exactly when every element does, element by element and in order |
| VitalData.ListField | src/domain/vital_data.rs:17-34 | A missing list is a missing-field error without `default` and empty with it; a repeated key is a duplicate-field error; a present array is decoded element by element by `DecodeList`; any other value, `null` included, is an invalid-type error |
| VitalData.DecodeRecord | src/domain/vital_data.rs:65-82 | A record decodes exactly when the value is an object whose `val`, `dt` and `time` fields read, and its value and two timestamps are what those fields read as |
| VitalData.DecodeEvent | src/domain/vital_data.rs:85-95 | An event decodes exactly when the value is an object whose `dt` and `msg` fields read, and its timestamp and message are what those fields read as |
| VitalData.DecodeTrack | src/domain/vital_data.rs:38-62 | A track decodes exactly when the value is an object and each of its eight fields reads; each field is what its key reads as, each record is the decoding of the element of `recs` at its position, and a missing `recs` gives no records |
| VitalData.DecodeRoom | src/domain/vital_data.rs:23-35 | A room decodes exactly when the value is an object and `seqid`, `roomname`, `trks` and `evts` all read; each is what its key reads as, each track is the decoding of the element of `trks` at its position, missing lists are empty, and `seqid` fits `i32` |
| VitalData.DecodeVitalData | src/domain/vital_data.rs:16-20 | A document decodes exactly when it is an object with a readable string `vrcode` and a `rooms` array whose every element decodes; it keeps `vrcode`, and each room is the decoding of the element of `rooms` at its position |
| ProcessedData.NewProcessedData | src/domain/processed_data.rs:81-93 | The id and rooms are stored as given, `allTracks` is the rooms' tracks concatenated in room order, its length is the sum of the rooms' track counts, and the stamp is the clock reading |
| ProcessedData.FlattenLength | src/domain/processed_data.rs:82-85 | The flattened list is as long as the sum of the rooms' track counts |
| ProcessedData.FlattenAppend | src/domain/processed_data.rs:82-85 | Flattening distributes over concatenation of room lists |
| ProcessedData.FlattenMembership | src/domain/processed_data.rs:82-85 | A track is in `allTracks` exactly when some room holds it |
| ProcessedData.NonWaveformTracks | src/domain/processed_data.rs:105-110 | The result holds only non-waveform tracks of the input, and holds every non-waveform track of it |
| ProcessedData.NonWaveformTracksCount | src/domain/processed_data.rs:105-110 | The result holds exactly as many tracks as the input has non-waveform tracks |
| ProcessedData.NonWaveformTracksAppend | src/domain/processed_data.rs:105-110 | Filtering distributes over concatenation, so the kept tracks keep their relative order |
| ProcessedData.NonWaveformTracksExtremes | src/domain/processed_data.rs:105-110 | Without waveforms nothing is dropped; with only waveforms nothing is kept |
| ProcessedData.NonWaveformTracksMembership | src/domain/processed_data.rs:105-126 | A track is kept exactly when it is in the input and `is_waveform` is false |
| Transformer.NumericPoints | src/processor/transformer.rs:227 | The extracted points are no more than the items, and there are none exactly when no item is a number |
| Transformer.NumericPointsAppend | src/processor/transformer.rs:227 | Extraction works piecewise, so the points keep the array's order |
| Transformer.NumericPointsOfNumbers | src/processor/transformer.rs:227 | An array of numbers only loses nothing: point `i` is item `i` |
| Transformer.Minimum | src/processor/transformer.rs:239 | The minimum is one of the points and no point is below it |
| Transformer.Maximum | src/processor/transformer.rs:240 | The maximum is one of the points and no point is above it |
| Transformer.SumBetween | src/processor/transformer.rs:241 | The sum lies between the count times any lower bound and the count times any upper bound |
| Transformer.MeanBetween | src/processor/transformer.rs:241-242 | The mean of a non-empty list lies between any lower and upper bound of it |
| Transformer.ProcessWaveform | src/processor/transformer.rs:217-264 | The kind is Waveform with no raw value. Without numeric points the display is "0 points" with no stats or points. Otherwise the points are the numeric elements in order, `count` is their number, min and max are attained and bound every point, `avg` is their sum divided by their number, `min <= avg <= max`, and the display is `<count> points (<min> to <max>, avg: <avg>)` with three decimals |
| Transformer.ProcessValue | src/processor/transformer.rs:176-202 | Number iff the value is a number, Waveform iff it is an array under the hint "wav", String iff it is a string, Other otherwise. The raw value is present iff the kind is Number and is then the number, displayed with three decimals. A string is displayed verbatim, Other shows the JSON text, an array under "wav" is processed by `process_waveform`, and only waveforms carry stats or points |
| Transformer.FallbackRoomNameInjective | src/processor/transformer.rs:55-58 | Distinct room indices get distinct `Room_<i>` names |
| Transformer.FallbackTrackNameInjective | src/processor/transformer.rs:129-133 | Distinct (room, track) positions get distinct `Track_<r>_<t>` names |
| Transformer.ResolveRoomName | src/processor/transformer.rs:55-58 | The room's `roomname` when present, else `Room_<room index>` |
| Transformer.ResolveTrackName | src/processor/transformer.rs:129-133 | The track's `name`, else its `dname`, else `Track_<room index>_<track index>` |
| Transformer.RecordTimestamp | src/processor/transformer.rs:141-144 | The effective timestamp when a `DateTime` can hold it; the clock reading when it cannot, and when there is none |
| Transformer.TypeHint | src/processor/transformer.rs:135-135 | The track's `type` when given, else "other" |
| Transformer.ProcessTrack | src/processor/transformer.rs:120-160 | The entry carries the resolved track name, the unit or "", the given room index and name, track and record indices, the record's timestamp, and the classification of the value under the type hint ("other" when missing) |
| Transformer.MissingHintIsNotWaveform | src/processor/transformer.rs:135-139 | A track without a type hint never yields a waveform, whatever its values |
| Transformer.Transform | src/processor/transformer.rs:45-100 | The nested loops compute the specification `TransformSpec`: one processed room per room, in order |
| Transformer.TransformSpec | src/processor/transformer.rs:45-100 | The snapshot keeps the device id `vrcode`, is stamped with the clock reading, has one processed room per input room at the same position, and `allTracks` is the rooms' entries in order |
| Transformer.TransformRoom | src/processor/transformer.rs:55-88 | The room loop body yields the room's index, its resolved name and the entries of all its tracks in order |
| Transformer.TransformTrack | src/processor/transformer.rs:70-81 | The record loop yields the entries of every record of the track, in order |
| Transformer.RecordEntryAt | src/processor/transformer.rs:70-81 | Entry `j` of a track's entries is record `j` processed with the track's indices |
| Transformer.RecordEntriesFields | src/processor/transformer.rs:70-81 | Entry `q` of a track's entries carries the room index and name, the track index and record index `q` |
| Transformer.TrackEntriesLength | src/processor/transformer.rs:69-82 | A room yields exactly one entry per record |
| Transformer.TrackEntriesAt | src/processor/transformer.rs:69-82 | Record `j` of track `k` is entry number (records of tracks before `k`) + `j` of its room |
| Transformer.TrackEntriesBelong | src/processor/transformer.rs:69-82 | Every entry of a room carries the room's index and name and points at an existing record of an existing track |
| Transformer.TrackEntriesOrdered | src/processor/transformer.rs:69-82 | A room's entries are strictly increasing by track index, then by record index |
| Transformer.ProcessRoomsAt | src/processor/transformer.rs:54-89 | Processed room `i` is input room `i`, processed with index `i` |
| Transformer.TransformShape | src/processor/transformer.rs:45-100 | The device id is `vrcode`, there is one room per input room with its index and resolved name and one entry per record, `allTracks` is the rooms' entries in order, and the stamp is the clock reading |
| SocketIoServer.ProcessDataSpec | src/input/socketio_server.rs:338-402 | A decompression error is returned as is, invalid UTF-8 is a Processing error, a parse failure of the cleaned text and a decode failure are each a JSON-parse error carrying that failure, and when every stage succeeds the snapshot is the transformation of the decoded document |
| SocketIoServer.ProcessDataSucceeds | src/input/socketio_server.rs:346-401 | A snapshot comes out exactly when decompression, UTF-8 decoding, parsing of the cleaned text and decoding all succeed, and it is the transformation of the decoded document |
| SocketIoServer.ProcessData | src/input/socketio_server.rs:338-402 | The straight-line pipeline computes `ProcessDataSpec` |
| SocketIoServer.HandleConnection | src/input/socketio_server.rs:170-318 | The open packet, then the frame loop with its placeholder slot, compute `Connection`; a failed open packet ends the connection with a Socket.IO error |
| SocketIoServer.HandleFrame | src/input/socketio_server.rs:199-312 | One pass of the `while let` body updates the pending slot, the frames written, the snapshots and the logged failures as `Step` specifies, and says whether the loop goes on |
| SocketIoServer.Step | src/input/socketio_server.rs:199-312 | One frame only appends to what was written, delivered and logged; it takes in one more announced binary frame only when it is a placeholder; only a Close frame or a read error ends the loop; a reply that cannot be written aborts with a Socket.IO error and changes nothing |
| SocketIoServer.Run | src/input/socketio_server.rs:198-318 | The loop only appends to what it wrote, delivered and logged; its only error is a Socket.IO send failure, pipeline errors being logged; binary frames processed plus a waiting placeholder never exceed the placeholders received |
| SocketIoServer.Connection | src/input/socketio_server.rs:170-318 | A failed open packet ends the connection with "Failed to send connection response" and nothing written; otherwise `0{"sid":…,"upgrades":[],"pingInterval":25000,"pingTimeout":5000}` is the first frame written and at most one snapshot is handed over per `451-` placeholder; every error is a Socket.IO error |
| SocketIoServer.TextDispatch | src/input/socketio_server.rs:210-248 | "2" is answered with "3"; "451-" puts the rest of the text in the slot, replacing what was there; every other text frame changes nothing |
| SocketIoServer.BinaryFrame | src/input/socketio_server.rs:250-296 | A binary frame always empties the slot and writes nothing; it yields a snapshot or a logged failure exactly when the slot was filled, and is dropped otherwise |
| SocketIoServer.StopFramesEndTheLoop | src/input/socketio_server.rs:297-312 | A Close frame or a read error ends the loop successfully, and nothing after it is read |
| Ble.TrackTypeName | src/output/ble.rs:316-321 | Number, String, Other and Waveform are labelled "number", "string", "other" and "waveform" |
| Ble.TrackTypeNameInjective | src/output/ble.rs:316-321 | Distinct kinds get distinct labels |
| Ble.ConvertTrack | src/output/ble.rs:315-344 | Name, room and unit are copied unchanged, the timestamp is rendered, Number carries the raw value (0 if absent) and the display, String becomes Text(display) and anything else becomes Other(display) |
| Ble.ConvertTracks | src/output/ble.rs:265-268 | Track `i` of the result is track `i` converted |
| Ble.MessageOf | src/output/ble.rs:256-274 | The message has version "1.0" and the snapshot's device id and time, lists exactly the non-waveform tracks, converted and in `allTracks` order, its `track_count` is their number, and none is labelled "waveform" |
| Ble.Truncate | src/output/ble.rs:284-297 | The stored payload is a prefix of at most 500 bytes: shorter payloads whole, longer ones as their first 500 bytes |
| Ble.BleOutput.constructor | src/output/ble.rs:78-87 | The device name and service UUID are stored, the characteristic UUID is the corrected derivation from the service UUID, and the buffer starts empty |
| Ble.BleOutput.Output | src/output/ble.rs:254-300 | With no non-waveform track, Ok and the buffer unchanged; on a serialisation failure, a Processing error and the buffer unchanged; otherwise the truncated JSON replaces the buffer, which never exceeds 500 bytes |
| Ble.HexDigitValue | src/output/ble.rs:153-161 | A hex digit's value is below 16 |
| Ble.HexFixed | src/output/ble.rs:153-161 | Exactly `w` lower-case hex digits |
| Ble.HexRoundTrip | src/output/ble.rs:153-161 | A number that fits `w` digits reads back from its `w`-digit form |
| Ble.HexDigitCount | src/output/ble.rs:153-161 | Every number needs at least one hex digit |
| Ble.HexDigitCountBound | src/output/ble.rs:153-161 | A number fits `w` digits exactly when its digit count is at most `w` |
| Ble.Hex | src/output/ble.rs:153-161 | `{:0wx}` prints only hex digits |
| Ble.HexLength | src/output/ble.rs:153-161 | `{:0wx}` prints exactly `w` digits when the number fits, and `w+1` when it needs one more |
| Ble.ParseUuid | src/output/ble.rs:153-161 | `Uuid::parse_str` on the hyphenated form accepts exactly 8-4-4-4-12 hex groups |
| Ble.HyphenatedFits | src/output/ble.rs:153-161 | When the last group fits 12 digits, the text is 36 characters of five fixed-width groups |
| Ble.CharUuidTextAsWritten | src/output/ble.rs:153-161 | Below the overflow the text is the hyphenated form of the service UUID with its low 48 bits incremented; when the low 48 bits are all ones the text has 37 characters |
| Ble.CharUuidAsWritten | src/output/ble.rs:153-161 | Below the overflow `parse_str` of that text gives the corrected UUID; when the low 48 bits are all ones it does not parse, which is where `unwrap` panics |
| Ble.CharUuidOverflowExample | src/output/ble.rs:153-161 | The all-ones service UUID makes the text as written fail to parse |
| Ble.CharacteristicUuid | src/output/ble.rs:153-161 | The corrected derivation keeps the upper 80 bits, increments the low 48 bits modulo 2^48, differs from the service UUID, and is the service UUID plus one below the overflow |
| Ble.GroupsRecombine | src/output/ble.rs:153-161 | The five groups of a UUID, weighted by their positions, recombine to the UUID |
| Ble.JoinedGroups | src/output/ble.rs:153-161 | Five groups joined by hyphens split back at fixed offsets |
| Ble.ParseGroups | src/output/ble.rs:153-161 | Five hex groups of the right lengths joined by hyphens parse to their combined value |
| Ble.GroupsValueOfFields | src/output/ble.rs:153-161 | The groups of a UUID, printed in full and read back, give the UUID |
| Ble.UuidRoundTrip | src/output/ble.rs:153-161 | Every UUID's hyphenated form parses back to that UUID |
| Ble.CharacteristicUuidParses | src/output/ble.rs:153-161 | With the corrected derivation the text always parses and differs from the service UUID |
| Configuration.Validate | src/config/mod.rs:140-163 | Ok exactly when the port is non-zero, the UUID parses whenever BLE is enabled, and the upper-cased level is SUCCESS, INFO, WARNING, ERROR or DEBUG; the checks run port, UUID, level, and the first failure's message is returned |
| Configuration.PortZeroRejected | src/config/mod.rs:142-144 | Port 0 is refused with a message containing "port" |
| Configuration.DefaultValidates | src/config/mod.rs:342-345 | The default configuration validates, whatever the UUID parser accepts |
| Configuration.UuidIgnoredWithoutBle | src/config/mod.rs:147-154 | With BLE output disabled the service UUID is never looked at |
| Configuration.ValidateIgnoresLevelCase | src/config/mod.rs:157-160 | A level and its upper case are accepted or refused together |
| Configuration.MergeWith | src/config/mod.rs:124-128 | The loaded configuration is ignored and the receiver is returned unchanged |
| Configuration.SocketUrl | src/config/mod.rs:176-178 | The URL is `http://`, then the host, then `:`, then decimal digits that read back as the port |
| Logging.ParseLevel | src/utils/logger.rs:76-89 | Ok exactly when the upper-cased name is SUCCESS, INFO, WARNING, ERROR, DEBUG or TRACE, with the level the match arms give it; otherwise a logger error naming the input |
| Logging.LevelNamed | src/utils/logger.rs:77-83 | The match arms recognise exactly the six upper-case level names: SUCCESS and INFO give Info, WARNING Warn, ERROR Error, DEBUG Debug and TRACE Trace |
| Logging.SuccessIsInfo | src/utils/logger.rs:76-78 | The name SUCCESS configures the INFO level |
| Logging.ParseLevelIgnoresCase | src/utils/logger.rs:76-89 | A name and its upper case parse to the same level |
| Logging.ValidatedLevelParses | src/config/mod.rs:157-160 | Every level the configuration accepts configures the logger, and never at TRACE |
| Logging.TraceOnlyInLogger | src/utils/logger.rs:83 | TRACE parses as the Trace level, but a configuration naming it does not validate |
| Logging.FormatLevel | src/utils/logger.rs:151-159 | Every label is exactly 7 characters, and only WARNING fills all seven |
| Logging.FormatLevelRoundTrip | src/utils/logger.rs:151-159 | A label stripped of its padding parses back to its level |
| Logging.FormatLevelInjective | src/utils/logger.rs:151-159 | Distinct levels get distinct labels |
| Logging.Join | src/utils/logger.rs:101-104 | `PathBuf::join` of a relative name: the name ends the path, after the directory and a single `/` |
| Logging.LogFilePath | src/utils/logger.rs:101-104 | The path ends in `vrconnect-<date>.log` |
| Logging.LogFilePathInjective | src/utils/logger.rs:101-104 | Different dates are written to different files |
| Logging.LogLine | src/utils/logger.rs:128-130 | A line is 14 characters longer than its time stamp and message together |
| Logging.LogLineFields | src/utils/logger.rs:128-130 | A line splits back at fixed offsets into its time stamp, a label that parses to its level, and its message, whatever the message holds |

## Left out

- The zlib codec (flate2 `ZlibDecoder`) is a parameter of `Decompress`: a foreign codec.
- The regex engine is replaced by scanners for the five fixed patterns. `\w` and `\d` are read as ASCII, `\s` as the Unicode White_Space set, and `(?i)` as ASCII case folding of `nan`/`inf`/`infinity`.
- UTF-8 decoding, the JSON text parser (`serde_json::from_str`) and the serialiser (`serde_json::to_vec`, `Value::to_string`) are parameters. The derived deserialiser is written out field by field, but the exact wording of serde's error messages and which of two errors is reported first are not modelled. The array form of a struct is not modelled either.
- `f64` details are not modelled: numbers are `real`, so NaN in the `f64::min`/`max` folds and rounding in the waveform sum are not modelled. `{:.3}` formatting and RFC 3339 rendering are parameters.
- VitalData.FloatToI64: NaN maps to 0 in Rust; a `real` has no NaN.
- The clock (`Utc::now`, `Local::now`), the `timestamp_millis_opt` range check and the `uuid::new_v4` session id are parameters. One clock reading stands for every `Utc::now` of one transformation.
- Transformer.Transform: the `as i32` casts of the room, track and record indices are not modelled; indices are unbounded.
- SocketIoServer.HandleConnection: the WebSocket handshake, the TcpListener accept loop and `tokio::spawn` are left out because they are network I/O and concurrency. The socket is a trace of frames, each carrying the outcome of its reply's send. The debug-file writes and the log calls are left out because they do not affect the result.
- SocketIoServer.HandleConnection: a failure of `tx.send` is only logged by the source, so a snapshot handed over counts as delivered.
- The `42` event parse in `handle_connection` only logs the `join_vr` room code, so the model treats such frames as changing nothing.
- The BLE GATT server (`start`, advertising, the read and notify handlers and the 100 ms notify loop) is BlueZ I/O and concurrency. `create_application` is modelled only for its characteristic-UUID arithmetic, which the model computes when the output is constructed.
- Ble.BleOutput.constructor takes the already parsed service UUID. `Uuid::parse_str` is modelled for the hyphenated form only in `Ble.ParseUuid`; the configuration check takes it as a parameter, since the braced, simple and URN forms are not modelled.
- Configuration loading (`Config::parse`, clap, dotenvy, src/config/loader.rs) is left out because it reads the environment and files. `Config` is a value whose fields are the parsed arguments.
- `Logger::init`, the global logger installation, `LevelFilter::Off`, and the file append and `current_file` mutex of `write_log` are left out because they are process-global state and file I/O. The date and the time stamp written are parameters.
- The console output (src/output/console.rs), the processor run loop (src/core/processor.rs) and the entry point (src/main.rs) are not part of this model, since they are UI and orchestration.

## Findings

| source | as written | input that shows it | evidently intended | confidence | as-written member | corrected member |
|---|---|---|---|---|---|---|
| src/output/ble.rs:153-161 | The last group of the characteristic UUID is printed as `{:012x}` of (low 48 bits + 1), and `Uuid::parse_str(...).unwrap()` parses it | A service UUID whose low 48 bits are all ones, e.g. `ffffffff-ffff-ffff-ffff-ffffffffffff`: the last group becomes `1000000000000` (13 digits), the text is 37 characters long, parsing fails and `unwrap` panics | The service UUID with its low 48 bits incremented modulo 2^48, so the characteristic UUID always parses and differs from the service UUID | not executed | Ble.CharUuidAsWritten, shown by Ble.CharUuidTextAsWritten and Ble.CharUuidOverflowExample | Ble.CharacteristicUuid, proved by Ble.CharacteristicUuidParses |
