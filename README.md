# libshade, modelled in Dafny

This project models the core of libshade, a C++ client library for
networked light bridges, and proves properties of that model. The model
covers three layers.

**The JSON library** (3rd_party/json):
- `JsonValue` is the json::value variant: scalars plus arrays and objects
  behind shared backends, with the lenient accessors and type queries.
- `JsonPrint` is the printer. `JsonParse` holds the cursor, the tokenizer,
  the recursive-descent reader and std::stoll. `JsonParseFacts` and
  `JsonRoundTrip` relate the two.
- `Utf8` is the UTF-8/UTF-16 transcoder.
- `JsonSerdes` and `JsonSerdesFacts` hold the pack/unpack translators of
  serdes.hpp and their round trips.

**The tangle library** (3rd_party/tangle):
- `CString` is the cstring view.
- The uri code is split into `UriCodec` (percent-encoding and path split/join),
  `UriAuth` (authority), `UriQuery` (query builder), `Uri` (the uri class with
  its cached offsets), `UriNormal` (normal) and `UriResolve` (make_base,
  canonical). Each has a `...Facts` companion.
- `HeaderParser` and `HeaderParserFacts` model base_parser.
- `HeaderText` models `produce` and `lower`.
- `Http` and `HttpFacts` model the first-line parsers.
- `Hashing` models the FNV-1a hasher and combined_string.

**The shade model** (inc/shade/model, src):
- `ShadeBase` holds the state records and their comparisons.
- `ShadeColor` models the colour modes.
- `ShadeLight` models light sources, lights and groups.
- `ShadeHost`, `ShadeBridge` and `ShadeCache` model the host, bridge and cache
  classes.
- `ShadeStorage` models storage.h and storage.cc.
- `ShadeHelpers` models the helpers of internal.h.
- `ShadeConfig` models build_filename.

Some source files repeat others:
- src/manager_internal.h repeats the helpers of src/internal.h line for line, so
  the same members model both. The table cites whichever file the row was
  written against.
- storage.cc carries its own copies of host (`client`) and bridge
  (`bridge_info`). They are modelled by `ShadeHost.Host` and
  `ShadeBridge.Bridge`.

Conventions:
- Bytes are `seq<uint8>`.
- `size_t` arithmetic is written modulo 2^64 where the code depends on it.
- Doubles are opaque values compared only for equality.
- Some things are inputs of the model rather than parts of it:
  - the text of a double (std::to_string) is the parameter `ftoa`;
  - the iteration order of a std::unordered_map is a parameter;
  - the environment and the contents of the configuration file are supplied by
    the caller.

Where the code and its documentation disagree, the model follows the code:
- json's `from_string` can throw, from std::stoll, on a number outside 64 bits.
  It is not exception-free.
- uri's `canonical` merges a relative path with the whole base path followed by
  "/". It does not drop the base path's last segment.

## Model

| member | source | states |
|---|---|---|
| JsonValue.TypeQueries | 3rd_party/json/inc/json/json.hpp:147-166 | get_type never reports NUMBER; is<NUMBER> holds exactly for integers and floats; a value is truthy exactly when it is not null; every other is<T> agrees with get_type |
| JsonValue.AccessorDefaults | 3rd_party/json/inc/json/json.hpp:168-189 | as_bool, as_int, as_double and as_string never fail: on a variant mismatch they give false, 0, 0.0 and "", and an integer does not read as a double nor a double as an integer |
| JsonValue.FromBool | 3rd_party/json/inc/json/json.hpp:137 | the bool constructor makes a BOOL whose as_bool is the argument |
| JsonValue.FromInt8 | 3rd_party/json/inc/json/json.hpp:138 | the int8 constructor makes an INTEGER whose as_int is the argument |
| JsonValue.FromInt16 | 3rd_party/json/inc/json/json.hpp:139 | the int16 constructor makes an INTEGER whose as_int is the argument |
| JsonValue.FromInt32 | 3rd_party/json/inc/json/json.hpp:140 | the int32 constructor makes an INTEGER whose as_int is the argument |
| JsonValue.FromInt64 | 3rd_party/json/inc/json/json.hpp:141 | the int64 constructor makes an INTEGER whose as_int is the argument |
| JsonValue.FromDouble | 3rd_party/json/inc/json/json.hpp:143 | the double constructor makes a FLOAT whose as_double is the argument |
| JsonValue.FromString | 3rd_party/json/inc/json/json.hpp:145 | the string constructor makes a STRING whose as_string is the argument |
| JsonValue.IntegerConstructorsAgree | 3rd_party/json/inc/json/json.hpp:138-141 | the four integer constructors give the same value for a shared argument, and a false bool, an empty string and a zero double are still truthy |
| JsonValue.KeyLessIrreflexive | 3rd_party/json/inc/json/json.hpp:329 | the std::string ordering of the map keys is irreflexive |
| JsonValue.KeyLessTransitive | 3rd_party/json/inc/json/json.hpp:329 | the std::string ordering of the map keys is transitive |
| JsonValue.KeyLessTotal | 3rd_party/json/inc/json/json.hpp:329 | any two distinct keys are ordered one way or the other |
| JsonValue.InsertMembers | 3rd_party/json/src/json.cpp:122-133 | map::add only ever adds the new pair to the old members |
| JsonValue.InsertKeys | 3rd_party/json/src/json.cpp:122-133 | map::add adds the key to the key set and grows the map only for a new key |
| JsonValue.InsertSorted | 3rd_party/json/src/json.cpp:122-133 | map::add keeps the keys strictly ascending, so unique |
| JsonValue.LookupInsert | 3rd_party/json/src/json.cpp:122-133 | after map::add the key finds the new value and every other key finds what it found before |
| JsonValue.LookupKeys | 3rd_party/json/inc/json/json.hpp:351-352 | map::find finds exactly the keys present |
| JsonValue.RemoveProps | 3rd_party/json/inc/json/json.hpp:353 | erase keeps the keys ordered, removes exactly that key, keeps only old members and leaves every other lookup alone |
| JsonValue.Dense | 3rd_party/json/inc/json/json.hpp:101-103 | dense options do not indent |
| JsonValue.Indented | 3rd_party/json/inc/json/json.hpp:105-107 | indented(n) indents n single spaces per level |
| JsonValue.IndentedWith | 3rd_party/json/inc/json/json.hpp:108-110 | indented(str, n) indents n copies of str per level |
| JsonValue.ArrayBackend.constructor | 3rd_party/json/inc/json/json.hpp:289 | a new vector holds no values |
| JsonValue.ArrayBackend.Add | 3rd_party/json/inc/json/json.hpp:295 | vector::add appends the value at the end |
| JsonValue.ArrayBackend.Size | 3rd_party/json/inc/json/json.hpp:296 | vector::size is the number of values |
| JsonValue.ArrayBackend.At | 3rd_party/json/inc/json/json.hpp:307 | vector::at gives the value at an index in range and throws out_of_range otherwise |
| JsonValue.ObjectBackend.constructor | 3rd_party/json/inc/json/json.hpp:334 | a new map holds no members |
| JsonValue.ObjectBackend.Add | 3rd_party/json/src/json.cpp:122-133 | map::add overwrites an existing key or inserts the pair in key order; afterwards the key finds the new value |
| JsonValue.ObjectBackend.Find | 3rd_party/json/inc/json/json.hpp:351-352 | map::find is the lookup of the key |
| JsonValue.ObjectBackend.At | 3rd_party/json/inc/json/json.hpp:360-361 | map::at gives the stored value and throws out_of_range for a missing key |
| JsonValue.ObjectBackend.Erase | 3rd_party/json/inc/json/json.hpp:353 | erasing a present key removes exactly that key and leaves every other lookup alone |
| JsonValue.ObjectBackend.Index | 3rd_party/json/inc/json/json.hpp:362 | map::operator[] gives the stored value unchanged, or inserts null for a missing key and gives null |
| JsonValue.NewVector | 3rd_party/json/inc/json/json.hpp:289 | json::vector() is a fresh, empty array |
| JsonValue.NewMap | 3rd_party/json/inc/json/json.hpp:334 | json::map() is a fresh, empty object |
| JsonValue.VectorOf | 3rd_party/json/inc/json/json.hpp:290-293 | the explicit vector(value) shares the array's backend and throws bad_cast for any other variant |
| JsonValue.MapOf | 3rd_party/json/inc/json/json.hpp:335-338 | the explicit map(value) shares the object's backend and throws bad_cast for any other variant |
| JsonValue.GetVector | 3rd_party/json/inc/json/json.hpp:424-433 | get<VECTOR> shares an array's backend and gives a fresh empty array for any other variant |
| JsonValue.GetMap | 3rd_party/json/inc/json/json.hpp:435-444 | get<MAP> shares an object's backend and gives a fresh empty object for any other variant |
| JsonValue.AddThroughView | 3rd_party/json/inc/json/json.hpp:290-295 | adding through a vector view of a value is seen through the value and every copy of it, which share the backend |
| JsonValue.AddThroughMismatchedGet | 3rd_party/json/inc/json/json.hpp:424-433 | adding to what get<VECTOR> returns for a non-array leaves the source value unchanged |
| JsonPrint.JsonString | 3rd_party/json/src/json.cpp:36-57 | json_string writes the string widened to UTF-16, each unit escaped, between quotes |
| JsonPrint.EscapeAll | 3rd_party/json/src/json.cpp:39-55 | the loop writes the escapes of all the units in order |
| JsonPrint.EscapeUnitCases | 3rd_party/json/src/json.cpp:40-54 | units below 0x80 other than the quote, the backslash and the five control escapes are written as themselves; units from 0x80 up become \u and four lowercase hex digits |
| JsonPrint.QuotedStopsAtIllFormed | 3rd_party/json/src/json.cpp:37 | because the string is widened first, the printed text stops at the first ill-formed UTF-8 sequence |
| JsonPrint.EscapeUnitsNoNewline | 3rd_party/json/src/json.cpp:46 | no escaped string contains a raw line feed |
| JsonPrint.MakeIndent | 3rd_party/json/src/json.cpp:73-86 | make_indent is empty when indenting is off, else a newline and indentStr repeated indent times offset |
| JsonPrint.IndentationShape | 3rd_party/json/src/json.cpp:73-86 | the indentation has length 1 + |indentStr| * indent * offset and starts with a newline, and dense options never indent |
| JsonPrint.ToString | 3rd_party/json/inc/json/json.hpp:204-209 | value::to_string writes null without a backend and otherwise what the backend writes at that depth |
| JsonPrint.WriteMembers | 3rd_party/json/src/json.cpp:88-103 | the array and object backends write their members between brackets and break the line before the closing one when indenting |
| JsonPrint.WriteMembersLoop | 3rd_party/json/src/json.cpp:93-101 | the loop writes every member after a list separator (all but the first) and the deeper indentation |
| JsonPrint.WriteItem | 3rd_party/json/src/json.cpp:140-149 | an object member is its escaped key, the name separator and its value |
| JsonPrint.MembersStep | 3rd_party/json/src/json.cpp:94-101 | one turn of the members loop adds the separator, the indentation and member i before the rest |
| JsonPrint.IndentedArrayLayout | 3rd_party/json/src/json.cpp:88-103 | [1,2] printed with indented(2) is "[\n  1,\n  2\n]" |
| JsonPrint.IndentedEmptyArrayLayout | 3rd_party/json/src/json.cpp:102 | an empty array printed with indenting is "[\n]" |
| JsonPrint.DenseArrayLayout | 3rd_party/json/src/json.cpp:88-103 | [1,2] printed with dense() is "[1,2]" |
| JsonPrint.QuotedLetter | 3rd_party/json/src/json.cpp:53 | a one-letter ASCII string prints as the letter in quotes |
| JsonPrint.DenseObjectLayout | 3rd_party/json/src/json.cpp:135-151 | {"a": true, "b": null} printed with dense() is {"a":true,"b":null} |
| JsonPrint.DenseIsOneLine | 3rd_party/json/src/json.cpp:73-75 | with dense() options nothing printed contains a line feed, provided the double texts do not |
| JsonPrint.DecimalNoNewline | 3rd_party/json/inc/json/json.hpp:244 | std::to_string of an integer contains no line feed |
| JsonPrint.DigitsAreDigits | 3rd_party/json/inc/json/json.hpp:244 | the decimal text of a natural number is all digits |
| JsonParse.PosAtCounts | 3rd_party/json/src/json.cpp:241-247 | the line is one more than the line feeds read, the column restarts at 1 after a line feed and otherwise moves on by one |
| JsonParse.Input.constructor | 3rd_party/json/src/json.cpp:501 | the input starts at the first byte, on line 1, column 1 |
| JsonParse.Input.Next | 3rd_party/json/src/json.cpp:241-247 | operator++ moves the cursor one byte and starts a new line after a line feed, else the next column |
| JsonParse.HexScanStep | 3rd_party/json/src/json.cpp:289-300 | reading one hex digit shifts the 16-bit accumulator four bits and adds the digit's value, wrapping at 16 bits |
| JsonParse.DigitsEnd | 3rd_party/json/src/json.cpp:332-333 | the digit run ends at the first byte that is not a decimal digit |
| JsonParse.ScanNumber | 3rd_party/json/src/json.cpp:326-336 | json_number makes a number token of exactly the bytes it passed over, at least one |
| JsonParse.SkipSpace | 3rd_party/json/src/json.cpp:353-354 | the whitespace loop stops at the first byte that is not isspace |
| JsonParse.Stoll | 3rd_party/json/src/json.cpp:397 | std::stoll either gives a value or throws invalid_argument or out_of_range |
| JsonParse.ReadHex | 3rd_party/json/src/json.cpp:283-304 | the \u digit loop reads four hex digits into a 16-bit unit, or fails where a digit is missing |
| JsonParse.ReadEscape | 3rd_party/json/src/json.cpp:269-314 | one escape sequence appends what its letter stands for (the backslash and the byte for an unknown one), or ends the string with an error token |
| JsonParse.ReadString | 3rd_party/json/src/json.cpp:262-324 | json_string reads up to the closing quote or the end of the input, and returns the string token or the error token where it stopped |
| JsonParse.ReadNumber | 3rd_party/json/src/json.cpp:326-336 | json_number reads an optional minus and the longest run of digits |
| JsonParse.ReadKeyword | 3rd_party/json/src/json.cpp:338-347 | json_token matches the keyword byte by byte and gives an error token where it differs or the input ends |
| JsonParse.SkipSpaces | 3rd_party/json/src/json.cpp:353-354 | the cursor stops at the first byte that is not isspace |
| JsonParse.ReadToken | 3rd_party/json/src/json.cpp:359-374 | the switch makes the punctuation, keyword, string or number token the byte starts |
| JsonParse.ReadTokens | 3rd_party/json/src/json.cpp:349-382 | tokenize collects the tokens up to the end of the input and stops with the error flag at a byte that starts no token |
| JsonParse.ParseValue | 3rd_party/json/src/json.cpp:387-407 | parse reads one value from the tokens; the end of the tokens reads as null; any other token is an error |
| JsonParse.ParseArray | 3rd_party/json/src/json.cpp:409-442 | array reads elements separated by commas up to ']', and fails on a missing comma or when the tokens end after an element |
| JsonParse.ParseDict | 3rd_party/json/src/json.cpp:444-495 | dict reads string keys, ':' and values separated by commas up to '}', adding each member with map::add |
| JsonParse.ReadJson | 3rd_party/json/src/json.cpp:499-512 | from_string is null when tokenizing or parsing sets the error flag, else the parsed value; stoll's exceptions escape |
| JsonParseFacts.ParseCanonical | 3rd_party/json/src/json.cpp:387-407 | every object from_string builds has its keys in ascending order and no value is a FLOAT |
| JsonParseFacts.InsertCanonical | 3rd_party/json/src/json.cpp:472 | adding a member with map::add keeps the members sorted and canonical |
| JsonParseFacts.ParseLocal | 3rd_party/json/src/json.cpp:387-407 | a value parse returns before the end of the tokens does not depend on the tokens after it |
| JsonParseFacts.DictStep | 3rd_party/json/src/json.cpp:451-492 | one member of the dict loop: the parsed key and value are added with map::add, then '}' ends the object and ',' goes on |
| JsonParseFacts.EmptyIsNull | 3rd_party/json/src/json.cpp:387-389 | an empty text reads as null |
| JsonParseFacts.OpenArrayIsEmpty | 3rd_party/json/src/json.cpp:417-441 | "[" reads as an empty array, because the element loop ends when the tokens do |
| JsonParseFacts.CutAfterComma | 3rd_party/json/src/json.cpp:417-441 | "[1," reads as [1], the elements read before the tokens ran out |
| JsonParseFacts.TrailingCommaIsNull | 3rd_party/json/src/json.cpp:387-407 | "[1,]" is a parse error (']' cannot start a value), which reads as null |
| JsonParseFacts.SecondValueIgnored | 3rd_party/json/src/json.cpp:506-511 | from_string of "1 2" is 1: tokens after the first value are ignored |
| JsonParseFacts.BadKeywordIsNull | 3rd_party/json/src/json.cpp:338-347 | the misspelt keyword "tru" is an error token, which reads as null |
| JsonParseFacts.StrayByteIsNull | 3rd_party/json/src/json.cpp:375-378 | a byte that starts no token sets the tokenizer's error flag, so "@" reads as null |
| JsonParseFacts.LoneMinusThrows | 3rd_party/json/src/json.cpp:397 | "-" reaches stoll without digits, which throws invalid_argument |
| JsonParseFacts.NumberKeyIsNull | 3rd_party/json/src/json.cpp:457-461 | a member key that is not a string is a parse error, so "{1}" reads as null |
| JsonRoundTrip.HexScanHex4 | 3rd_party/json/src/json.cpp:283-304 | the four hex digits json_string writes for a unit read back as that unit |
| JsonRoundTrip.StrScanUnits | 3rd_party/json/src/json.cpp:268-322 | the string loop reads the escaped form of a run of units back unit by unit |
| JsonRoundTrip.UnitsTextIntended | 3rd_party/json/src/json.cpp:306-309 | with a \u escape narrowing just its own unit, the loop gives back narrowed of the units |
| JsonRoundTrip.QuotedTokens | 3rd_party/json/src/json.cpp:349-382 | the text json_string writes tokenizes as one string token holding what the string loop makes of the escaped units |
| JsonRoundTrip.ReadQuoted | 3rd_party/json/src/json.cpp:499-512 | from_string of json_string's output is that one string |
| JsonRoundTrip.StringRoundTrip | 3rd_party/json/src/json.cpp:36-57 | printing a well-formed string whose characters lie below U+10000 and reading it back gives the string, once a \u escape decodes to exactly its own character |
| JsonRoundTrip.EscapeAppendsNul | 3rd_party/json/src/json.cpp:307-308 | as written, every \u escape also appends a NUL byte: "é" printed as "\u00e9" reads back as C3 A9 00 |
| JsonRoundTrip.SurrogatePairLost | 3rd_party/json/src/json.cpp:306-309 | a character from U+10000 on does not survive printing and reading: each surrogate escape is narrowed alone, so U+1F600 reads back as ED B8 80 |
| JsonRoundTrip.StollDecimal | 3rd_party/json/src/json.cpp:397 | std::stoll reads back what std::to_string wrote for every int64 |
| JsonRoundTrip.IntegerTokens | 3rd_party/json/src/json.cpp:370-374 | the decimal text of an integer is one number token spanning the whole text |
| JsonRoundTrip.IntegerRoundTrip | 3rd_party/json/src/json.cpp:499-512 | an integer printed on its own parses back as that integer |
| JsonParse.Parse | 3rd_party/json/src/json.cpp:387-407 | when tokens remain, reading a value moves past at least one of them, and never past the end |
| Utf8.LegalIffRfc3629 | 3rd_party/json/src/utf8.cpp:86-111 | for the length its lead byte announces, isLegalUTF8 accepts a byte sequence exactly when it is one UTF-8 character of RFC 3629, of the length RFC 3629 gives that lead |
| Utf8.DecodeLegal | 3rd_party/json/src/utf8.cpp:133-141 | a legal sequence decodes to a Unicode scalar value in the range its length stands for (below 0x80, 0x800, 0x10000, or above) |
| Utf8.Utf16OfStep | 3rd_party/json/src/utf8.cpp:120-160 | one turn of widen: a truncated or illegal first sequence ends the output, otherwise its value's UTF-16 units come first |
| Utf8.Widen | 3rd_party/json/src/utf8.cpp:113-163 | widen produces the UTF-16 units of every legal sequence up to the first truncated or illegal one |
| Utf8.Narrowed | 3rd_party/json/src/utf8.cpp:165-226 | narrowed joins surrogate pairs, drops a final high surrogate and writes every other unit alone, in 1 to 4 bytes |
| Utf8.NextChar | 3rd_party/json/src/utf8.cpp:228-235 | next_char keeps a null pointer null and otherwise steps over the lead byte and the trailing bytes its table entry announces, at most six bytes |
| Utf8.WidenLength | 3rd_party/json/src/utf8.cpp:113-163 | widen never produces more UTF-16 units than there are input bytes |
| Utf8.WidenOneChar | 3rd_party/json/src/utf8.cpp:143-159 | a character below U+10000 widens to one unit, one above to a high/low surrogate pair that combines back to it |
| Utf8.WidenStopsAtIllFormed | 3rd_party/json/src/utf8.cpp:123-129 | after well-formed text, a truncated or illegal sequence makes widen stop silently with what it had |
| Utf8.NarrowUnits | 3rd_party/json/src/utf8.cpp:171-224 | narrowed writes a scalar value's bytes for its UTF-16 units, whatever follows them |
| Utf8.EncodeDecode | 3rd_party/json/src/utf8.cpp:196-223 | encoding the value a UTF-8 character decodes to gives back the character |
| Utf8.NarrowWidenRoundTrip | 3rd_party/json/src/utf8.cpp:113-226 | for well-formed UTF-8 text, narrowed(widen(s)) == s |
| Utf8.NarrowedByteCount | 3rd_party/json/src/utf8.cpp:196-211 | a lone unit below 0x80, 0x800 and 0x10000 takes 1, 2 and 3 bytes |
| Utf8.NarrowedLoneSurrogates | 3rd_party/json/src/utf8.cpp:179-193 | a high surrogate at the end is dropped; one not followed by a low surrogate is written alone as three bytes |
| Utf8.NarrowedPair | 3rd_party/json/src/utf8.cpp:179-188 | a high surrogate followed by a low surrogate becomes one four-byte sequence |
| JsonSerdes.Truncate | 3rd_party/json/inc/json/serdes.hpp:68-73 | T(int64_t) to a narrower field is two's complement truncation: within the width, congruent to the input, and the input itself when it fits |
| JsonSerdes.Default | 3rd_party/json/inc/json/serdes.hpp:41-48 | the value-initialised T{} is an object of the type |
| JsonSerdes.PackItems | 3rd_party/json/inc/json/serdes.hpp:79-85 | container_translator::pack packs every element, in container order |
| JsonSerdes.Convert | 3rd_party/json/inc/json/serdes.hpp:68-73 | simple_translator::unpack never fails and always yields a value of the field's type |
| JsonSerdes.Unpack | 3rd_party/json/inc/json/serdes.hpp:87-134 | whatever the JSON, unpacking leaves an object of the target's C++ type |
| JsonSerdes.UnpackEntries | 3rd_party/json/inc/json/serdes.hpp:119-134 | the map loop keeps the std::map's keys strictly ascending |
| JsonSerdes.PutSorted | 3rd_party/json/inc/json/serdes.hpp:128 | std::map operator[] keeps the keys strictly ascending |
| JsonSerdes.PutMembers | 3rd_party/json/inc/json/serdes.hpp:128 | every pair after operator[] is the new pair or an old one |
| JsonSerdes.UnpackDocument | 3rd_party/json/inc/json/serdes.hpp:41-48 | json::unpack<T> is the unpacked object, or T{} when unpacking fails |
| JsonSerdes.UnpackSequence | 3rd_party/json/inc/json/serdes.hpp:87-104 | container_translator::unpack clears the container, then pushes each unpacked element until one fails |
| JsonSerdes.UnpackMap | 3rd_party/json/inc/json/serdes.hpp:119-134 | the map translator's unpack clears the map, then unpacks each member into out[key] until one fails |
| JsonSerdes.UnpackEntry | 3rd_party/json/inc/json/serdes.hpp:127-131 | one member of the map loop: out[key] is unpacked from the member's value, keeping the keys ordered |
| JsonSerdes.UnpackRecord | 3rd_party/json/inc/json/serdes.hpp:307-328 | struct_translator::unpack visits the members in registration order and stops at the first failure |
| JsonSerdesFacts.PackCanonical | 3rd_party/json/inc/json/serdes.hpp:296-305 | every object pack produces has strictly ascending keys, at every depth |
| JsonSerdesFacts.PackEntriesInOrder | 3rd_party/json/inc/json/serdes.hpp:110-117 | the map translator packs a std::map pair for pair, in key order |
| JsonSerdesFacts.PackMembersKeys | 3rd_party/json/inc/json/serdes.hpp:296-305 | struct_translator::pack emits exactly the valid members, keys ascending |
| JsonSerdesFacts.LookupPacked | 3rd_party/json/inc/json/serdes.hpp:296-305 | with distinct names, a member's key holds its pack when it is valid and is absent otherwise |
| JsonSerdesFacts.LookupAbsent | 3rd_party/json/inc/json/serdes.hpp:296-305 | a name no member carries is absent from the pack |
| JsonSerdesFacts.SequenceUnpackElements | 3rd_party/json/inc/json/serdes.hpp:87-104 | container_translator::unpack holds the unpacked elements of the array, in order |
| JsonSerdesFacts.SequenceUnpackStops | 3rd_party/json/inc/json/serdes.hpp:87-104 | container_translator::unpack succeeds exactly when every element did and otherwise stops before the first one that fails; a non-array reads as an empty container and succeeds |
| JsonSerdesFacts.MapUnpackEntries | 3rd_party/json/inc/json/serdes.hpp:119-134 | the map translator's pairs are the object's members with their unpacked values, in key order, up to and including the first that fails |
| JsonSerdesFacts.MapUnpackStops | 3rd_party/json/inc/json/serdes.hpp:119-134 | the map translator's unpack succeeds exactly when every member's value did, with one pair per member; a non-object reads as an empty map and succeeds |
| JsonSerdesFacts.UnpackMembersPresence | 3rd_party/json/inc/json/serdes.hpp:313-325 | struct_translator::unpack succeeds only when every required member is present |
| JsonSerdesFacts.UnpackMembersValues | 3rd_party/json/inc/json/serdes.hpp:313-325 | on success an absent optional member is reset to its default and a present one holds what its value unpacked to |
| JsonSerdesFacts.StructUnpackNeedsObject | 3rd_party/json/inc/json/serdes.hpp:308-309 | a non-object never unpacks into a struct and leaves the target untouched |
| JsonSerdesFacts.RoundTrip | 3rd_party/json/inc/json/serdes.hpp:296-328 | unpacking what pack produced gives the object back, whatever the target held before, for shapes with distinct member names, once absent item members are treated as optional |
| JsonSerdesFacts.MemberRoundTrip | 3rd_party/json/inc/json/serdes.hpp:238-261 | an item member holding one element packs as that element and unpacks back into the one-element container |
| JsonSerdesFacts.DocumentRoundTrip | 3rd_party/json/inc/json/serdes.hpp:35-48 | json::unpack<T>(json::pack(x)) == x for the shapes that round-trip |
| JsonSerdesFacts.EmptyItemRejected | 3rd_party/json/inc/json/serdes.hpp:263-267 | as written, pack leaves an empty item member out while unpack requires it, so such a struct packs to {} and does not unpack |
| JsonSerdesFacts.ItemMapLosesKey | 3rd_party/json/inc/json/serdes.hpp:220-223 | a one-pair map in an item member packs as the value alone and comes back under the empty key |
| JsonSerdes.UnpackItems | 3rd_party/json/inc/json/serdes.hpp:95-101 | every element pushed fits the element type |
| JsonSerdes.UnpackMembers | 3rd_party/json/inc/json/serdes.hpp:307-328 | one field per registered member, each of that member's type |
| JsonSerdesFacts.ItemsRoundTrip | 3rd_party/json/inc/json/serdes.hpp:79-104 | the packed elements of a container unpack back, in order, to the same elements |
| JsonSerdesFacts.EntriesRoundTrip | 3rd_party/json/inc/json/serdes.hpp:110-134 | the packed members of a key-ordered map unpack back to the same pairs |
| JsonSerdesFacts.MembersRoundTrip | 3rd_party/json/inc/json/serdes.hpp:296-328 | the packed members of a struct unpack back to its fields, whatever the target held |
| CString.CLength | 3rd_party/tangle/inc/tangle/cstring.h:43-46 | get_length counts the bytes before the first NUL, none of which is NUL |
| CString.FromPointer | 3rd_party/tangle/inc/tangle/cstring.h:76-80 | a view of a NUL-terminated pointer holds the bytes before the terminator; a null pointer gives the empty view |
| CString.CStr | src/storage.cc:206 | a std::string's c_str() read by %s, up to the terminator: a NUL-free prefix of the bytes, ending where the first NUL is |
| CString.FromLiteral | 3rd_party/tangle/inc/tangle/cstring.h:69-74 | a view of an array literal holds all but its last byte, embedded NULs included |
| CString.FromBuffer | 3rd_party/tangle/inc/tangle/cstring.h:63-67 | a view of a pointer and a size holds exactly that many bytes |
| CString.Subspan | 3rd_party/tangle/inc/tangle/cstring.h:88-96 | subspan is empty from the end on, otherwise the bytes from the offset, at most count of them |
| CString.FirstIsPrefix | 3rd_party/tangle/inc/tangle/cstring.h:97 | first(n) is the prefix of length min(n, length()) |
| CString.LastIsSuffix | 3rd_party/tangle/inc/tangle/cstring.h:98 | last(n) is the suffix of length n, and empty when n exceeds the length because the offset wraps |
| CString.SubspanTail | 3rd_party/tangle/inc/tangle/cstring.h:88 | subspan with the default count is the whole tail |
| CString.Strncmp | 3rd_party/tangle/inc/tangle/cstring.h:114 | strncmp returns the sign of the first differing unsigned byte within n, and 0 at a NUL both sides share |
| CString.StrncmpSwap | 3rd_party/tangle/inc/tangle/cstring.h:114 | strncmp with its sides swapped gives the opposite sign |
| CString.Compare | 3rd_party/tangle/inc/tangle/cstring.h:112-118 | compare is zero only for views of equal length, and always zero for a view against itself |
| CString.CompareSwap | 3rd_party/tangle/inc/tangle/cstring.h:112-122 | a < b exactly when b > a, and == is symmetric |
| CString.CompareLexicographic | 3rd_party/tangle/inc/tangle/cstring.h:112-118 | without NULs, compare is zero exactly for equal bytes and negative exactly for lexicographic order, as std::string orders them |
| CString.EmbeddedNulEqual | 3rd_party/tangle/inc/tangle/cstring.h:112-119 | views that differ only after an embedded NUL compare equal |
| CString.StrncmpStopsAtNul | 3rd_party/tangle/inc/tangle/cstring.h:114 | strncmp looks no further than a NUL after a shared NUL-free prefix |
| CString.CompareBytes | 3rd_party/tangle/inc/tangle/cstring.h:112-118 | the corrected, byte-wise compare is zero exactly for equal views and negative exactly when the left one comes first in byte order |
| CString.MemChr | 3rd_party/tangle/inc/tangle/cstring.h:141 | traits_type::find gives the first index in range holding the byte, or none |
| CString.Find | 3rd_party/tangle/inc/tangle/cstring.h:132-151 | find gives the first position at or after the offset where the needle occurs, or npos when there is none |
| CString.RFind | 3rd_party/tangle/inc/tangle/cstring.h:161-179 | rfind gives the last position at or before min(off, length() - len) where the needle occurs, or npos |
| CString.FindByte | 3rd_party/tangle/inc/tangle/cstring.h:124-127 | find of one byte gives its first position at or after the offset, or npos |
| CString.RFindByte | 3rd_party/tangle/inc/tangle/cstring.h:153-156 | rfind of one byte gives its last position at or before the offset, or npos |
| CString.Concat | 3rd_party/tangle/inc/tangle/cstring.h:197-202 | operator+ gives the left bytes followed by the right ones |
| CString.ConcatSplits | 3rd_party/tangle/inc/tangle/cstring.h:197-202 | cutting the concatenation at the left length gives both sides back |
| UriCodec.HexUpper | 3rd_party/tangle/src/uri.cpp:127 | the escape digit table gives an uppercase hex digit whose value is the nibble |
| UriCodec.UrlEncode | 3rd_party/tangle/src/uri.cpp:114-142 | urlencode keeps the bytes the charset allows and writes every other byte as '%' and two uppercase hex digits, in order |
| UriCodec.EncodeStep | 3rd_party/tangle/src/uri.cpp:131-140 | one turn of the encoding loop adds the text of byte i |
| UriCodec.UrlDecode | 3rd_party/tangle/src/uri.cpp:174-191 | urldecode turns a '%' followed by two hex digits inside the range into one byte and copies every other byte |
| UriCodec.DecodeEscapeStep | 3rd_party/tangle/src/uri.cpp:181-186 | an escape turn adds the byte of the two digits and skips them |
| UriCodec.DecodePlainStep | 3rd_party/tangle/src/uri.cpp:188 | any other turn copies the byte |
| UriCodec.SplitFrom | 3rd_party/tangle/src/uri.cpp:69-76 | the split from a position always yields at least one piece |
| UriCodec.PathSplit | 3rd_party/tangle/src/uri.cpp:58-79 | path_split gives the pieces between the slashes, empty ones included |
| UriCodec.PathJoin | 3rd_party/tangle/src/uri.cpp:81-102 | path_join writes the chunks with one slash between neighbours, and nothing for no chunks |
| UriCodecFacts.EncodeLength | 3rd_party/tangle/src/uri.cpp:117-125 | the encoded length is the input length plus two for every byte that needs escaping |
| UriCodecFacts.EncodeOnlySafe | 3rd_party/tangle/src/uri.cpp:104-107 | the unreserved encoding writes only alphanumerics, "-._~" and '%' |
| UriCodecFacts.EncodeKeepsSafe | 3rd_party/tangle/src/uri.cpp:133-136 | text of allowed bytes passes through urlencode unchanged |
| UriCodecFacts.DecodeEncode | 3rd_party/tangle/src/uri.cpp:169-191 | urldecode undoes urlencode, for either charset |
| UriCodecFacts.EncodeInjective | 3rd_party/tangle/src/uri.cpp:114-142 | urlencode never maps two texts to the same result |
| UriCodecFacts.DecodePlain | 3rd_party/tangle/src/uri.cpp:179-189 | text without '%' decodes to itself |
| UriCodecFacts.DecodeAsWrittenFrom | 3rd_party/tangle/src/uri.cpp:181 | for a range of two bytes or more the size_t guard i < in_len - 2 is the intended one |
| UriCodecFacts.DecodeAsWrittenReadsPast | 3rd_party/tangle/src/uri.cpp:181-183 | for a one-byte range in_len - 2 wraps, so "%" followed in memory by "41" decodes to "A" where "%" is meant |
| UriCodecFacts.JoinSplit | 3rd_party/tangle/src/uri.cpp:58-102 | path_join puts back together what path_split took apart |
| UriCodecFacts.SplitCount | 3rd_party/tangle/src/uri.cpp:60-64 | path_split returns one piece more than there are slashes, the count it reserves |
| UriCodecFacts.SplitPieces | 3rd_party/tangle/src/uri.cpp:69-76 | no piece of path_split holds a slash |
| UriCodecFacts.SplitJoin | 3rd_party/tangle/src/uri.cpp:58-102 | path_split takes apart what path_join put together, when no chunk holds a slash |
| UriAuth.AuthParts | 3rd_party/tangle/src/uri.cpp:214-228 | the host is the decoded text from the host start to the port colon (or the end), and the port the decoded text after the colon, empty without one |
| UriAuth.PortColon | 3rd_party/tangle/src/uri.cpp:198-212 | the port colon, when there is one, lies at or after the host start |
| UriAuthFacts.EncodeAppend | 3rd_party/tangle/src/uri.cpp:114-142 | urlencode of a concatenation is the concatenation of the encodings |
| UriAuthFacts.EncodeAvoids | 3rd_party/tangle/src/uri.cpp:131-140 | an encoder never writes a byte it escapes, unless that byte is '%' or a hex digit |
| UriAuthFacts.UnreservedAvoids | 3rd_party/tangle/src/uri.cpp:235 | an encoded user name or port holds neither '@' nor ':' |
| UriAuthFacts.PasswordAvoids | 3rd_party/tangle/src/uri.cpp:236 | an encoded password holds no '@' |
| UriAuthFacts.HostAvoids | 3rd_party/tangle/src/uri.cpp:237 | an encoded host name without ':' holds no '@' and no ':', and opens with '[' only if the name did |
| UriAuthFacts.LiteralAvoids | 3rd_party/tangle/src/uri.cpp:237 | an encoded IP literal keeps its brackets and holds no '@' and no other ']' |
| UriAuthFacts.UserInfoAt | 3rd_party/tangle/src/uri.cpp:195-196 | the '@' auth_builder::string writes after the user info is the first '@' of the text |
| UriAuthFacts.UserInfoSplit | 3rd_party/tangle/src/uri.cpp:219-223 | inside the user info the first ':' separates the name from the password, and there is none without a password |
| UriAuthFacts.ColonAt | 3rd_party/tangle/src/uri.cpp:198-212 | the last ':' is the port colon exactly when a port was written |
| UriAuthFacts.ParseLayout | 3rd_party/tangle/src/uri.cpp:193-231 | auth_builder::parse finds every separator of a built authority where auth_builder::string put it |
| UriAuthFacts.ParseLayoutLiteral | 3rd_party/tangle/src/uri.cpp:199-210 | the same holds around an IP literal in brackets |
| UriAuthFacts.BuiltParse | 3rd_party/tangle/src/uri.cpp:193-276 | auth_builder::parse reads the encoded parts back out of what auth_builder::string wrote, under every flag |
| UriAuthFacts.AuthRoundTrip | 3rd_party/tangle/src/uri.cpp:193-276 | parse(string(a, flag)) gives back the parts the flag keeps: all of them, no password (ui_safe), or no user info (no_userinfo) |
| UriAuthFacts.DecodeNonEmpty | 3rd_party/tangle/src/uri.cpp:174-191 | decoding keeps a non-empty text non-empty |
| UriAuthFacts.LiteralHost | 3rd_party/tangle/src/uri.cpp:199-207 | a host opening with '[' is read only when its first ']' ends the authority or precedes a ':'; otherwise every part comes back empty |
| UriQuery.Entries | 3rd_party/tangle/src/uri.cpp:308-311 | one pair per value of a name, in the order of its values |
| UriQuery.Texts | 3rd_party/tangle/src/uri.cpp:284-292 | each field's text is its encoded name, '=' and its encoded value |
| UriQuery.ScanTo | 3rd_party/tangle/src/uri.cpp:316-319 | the WS, LOOK_FOR2 and LOOK_FOR loops stop at the first byte they stop on, or at the end |
| UriQuery.ReadField | 3rd_party/tangle/src/uri.cpp:327-339 | reading one field never moves the cursor back nor past the end |
| UriQuery.FieldsFromStep | 3rd_party/tangle/src/uri.cpp:326-346 | one pass of the parse loop reads a field and goes on only when '&' follows it |
| UriQuery.DecodeAll | 3rd_party/tangle/src/uri.cpp:330 | every field is decoded name by name and value by value |
| UriQuery.AddAllCons | 3rd_party/tangle/inc/tangle/uri.h:300-304 | adding a list of fields adds the first, then the rest |
| UriQuery.QueryBuilder.constructor | 3rd_party/tangle/inc/tangle/uri.h:284 | a new builder has no fields |
| UriQuery.QueryBuilder.Add | 3rd_party/tangle/inc/tangle/uri.h:300-304 | add appends the value to the name's list, keeping the values already there, and leaves every other name alone |
| UriQuery.QueryBuilder.Remove | 3rd_party/tangle/inc/tangle/uri.h:311-317 | remove erases every value of the name; an unknown name changes nothing |
| UriQuery.QueryBuilder.List | 3rd_party/tangle/src/uri.cpp:298-314 | list gives one pair per value, the names in the map's visiting order |
| UriQuery.QueryBuilder.ToString | 3rd_party/tangle/src/uri.cpp:279-296 | string writes every pair as name=value encoded, '&' between pairs and a '?' in front of a non-empty result under start_with_qmark |
| UriQuery.WriteValues | 3rd_party/tangle/src/uri.cpp:285-293 | the inner loop writes the fields of one name, each after its separator |
| UriQuery.NextField | 3rd_party/tangle/src/uri.cpp:327-341 | the reading half of one pass: the name up to '=' or '&', the value up to '&', both decoded, and the cursor after them |
| UriQuery.Parse | 3rd_party/tangle/src/uri.cpp:321-348 | parse adds every field it reads, in the order they stand in the query |
| UriQueryFacts.FieldTextNonEmpty | 3rd_party/tangle/src/uri.cpp:284 | a field's text is never empty: it holds the '=' |
| UriQueryFacts.RenderEmpty | 3rd_party/tangle/src/uri.cpp:279-296 | the query string is empty exactly when there are no fields |
| UriQueryFacts.QmarkLead | 3rd_party/tangle/src/uri.cpp:286-290 | start_with_qmark only puts a '?' in front of a non-empty string |
| UriQueryFacts.PlainByte | 3rd_party/tangle/src/uri.cpp:316-318 | no scan for a name or a value stops on a byte urlencode writes |
| UriQueryFacts.ReadWritten | 3rd_party/tangle/src/uri.cpp:327-341 | parse reads a written field back whole, still encoded, stopping at the '&' after it or the end |
| UriQueryFacts.FieldsWritten | 3rd_party/tangle/src/uri.cpp:326-346 | parse finds the written fields, one by one, in order |
| UriQueryFacts.ParseRender | 3rd_party/tangle/src/uri.cpp:279-348 | parse reads back every field that string wrote, in order |
| UriQueryFacts.AddEntries | 3rd_party/tangle/inc/tangle/uri.h:300-304 | adding the values of a new name gives it exactly those values |
| UriQueryFacts.QueryRoundTrip | 3rd_party/tangle/src/uri.cpp:279-348 | parse(string()) gives back the builder, every name with its values in the order they were added, whatever order the names were visited in |
| UriQueryFacts.ParseFilled | 3rd_party/tangle/src/uri.cpp:338-341 | every name parse finds holds at least one value, the empty one when no '=' follows the name |
| Uri.SchemeEnd | 3rd_party/tangle/src/uri.cpp:392-415 | the scheme ends at a colon that is neither the first nor past the last byte |
| Uri.PathStart | 3rd_party/tangle/src/uri.cpp:417-446 | the path starts inside the text and after the scheme's colon when there is a scheme |
| Uri.QueryStart | 3rd_party/tangle/src/uri.cpp:448-468 | the query starts at or after the path start, inside the text |
| Uri.FragmentStart | 3rd_party/tangle/src/uri.cpp:470-487 | the fragment starts at or after the query start, inside the text |
| Uri.Uri.constructor | 3rd_party/tangle/src/uri.cpp:359-376 | the text is the identifier and every cached offset is "not computed" |
| Uri.Uri.Copy | 3rd_party/tangle/src/uri.cpp:356 | the copy holds the same text and the same cached offsets |
| Uri.Uri.Assign | 3rd_party/tangle/src/uri.cpp:357 | assignment takes the other URI's text and cached offsets |
| Uri.Uri.MoveAssign | 3rd_party/tangle/src/uri.cpp:384-390 | the text moves over, the source is left empty, both have every offset reset |
| Uri.Uri.InvalidateFragment | 3rd_party/tangle/inc/tangle/uri.h:177-180 | only the fragment offset is reset; the cache stays consistent |
| Uri.Uri.InvalidateQuery | 3rd_party/tangle/inc/tangle/uri.h:182-186 | the query and fragment offsets are reset, the others kept |
| Uri.Uri.InvalidatePath | 3rd_party/tangle/inc/tangle/uri.h:188-192 | path, query and fragment offsets are reset, the scheme offset kept |
| Uri.Uri.InvalidateScheme | 3rd_party/tangle/inc/tangle/uri.h:194-198 | every offset is reset |
| Uri.Uri.EnsureScheme | 3rd_party/tangle/src/uri.cpp:392-415 | the scheme offset becomes the one computed from the text; nothing else changes |
| Uri.Uri.EnsurePath | 3rd_party/tangle/src/uri.cpp:417-446 | the scheme and path offsets become those computed from the text |
| Uri.Uri.EnsureQuery | 3rd_party/tangle/src/uri.cpp:448-468 | the scheme, path and query offsets become those computed from the text |
| Uri.Uri.EnsureFragment | 3rd_party/tangle/src/uri.cpp:470-487 | all four offsets become those computed from the text |
| Uri.Uri.HasScheme | 3rd_party/tangle/src/uri.cpp:503-507 | true exactly when the text starts with a scheme and colon |
| Uri.Uri.HasAuthorityM | 3rd_party/tangle/src/uri.cpp:508-522 | true exactly when a scheme is followed by "//" |
| Uri.Uri.IsOpaque | 3rd_party/tangle/inc/tangle/uri.h:379 | the negation of has_authority |
| Uri.Uri.Relative | 3rd_party/tangle/inc/tangle/uri.h:352 | true exactly when there is no scheme |
| Uri.Uri.Absolute | 3rd_party/tangle/inc/tangle/uri.h:361 | true exactly when there is a scheme |
| Uri.Uri.HierarchicalM | 3rd_party/tangle/src/uri.cpp:489-501 | true without a scheme, otherwise exactly when the scheme is followed by "//" |
| Uri.Uri.Scheme | 3rd_party/tangle/src/uri.cpp:534-540 | the bytes before the scheme's colon, empty without a scheme |
| Uri.Uri.Authority | 3rd_party/tangle/src/uri.cpp:542-552 | the bytes between "//" and the path, empty without an authority |
| Uri.Uri.Path | 3rd_party/tangle/src/uri.cpp:554-558 | the bytes from the path start to the query start |
| Uri.Uri.Query | 3rd_party/tangle/src/uri.cpp:560-564 | the bytes from the query start to the fragment start |
| Uri.Uri.Resource | 3rd_party/tangle/src/uri.cpp:566-570 | the bytes from the path start to the fragment start |
| Uri.Uri.Fragment | 3rd_party/tangle/src/uri.cpp:572-576 | the bytes from the fragment start to the end |
| Uri.Uri.SetScheme | 3rd_party/tangle/src/uri.cpp:578-585 | without a scheme nothing changes; otherwise the scheme is replaced and the cache reset |
| Uri.Uri.SetAuthority | 3rd_party/tangle/src/uri.cpp:587-595 | an opaque URI is unchanged; otherwise the authority is replaced and the path offsets reset |
| Uri.Uri.SetPath | 3rd_party/tangle/src/uri.cpp:597-607 | the path is replaced, with a "/" put in front under an authority when the value lacks one |
| Uri.Uri.SetQuery | 3rd_party/tangle/src/uri.cpp:609-614 | the query is replaced; only the fragment offset is reset, and the others stay right for a query-shaped value |
| Uri.Uri.SetFragment | 3rd_party/tangle/src/uri.cpp:616-620 | the fragment is replaced and the cached offsets stay right for a fragment-shaped value |
| Uri.ScanFrom | 3rd_party/tangle/src/uri.cpp:439-445 | the loop stops at the first stop byte, as the scan function says |
| Uri.SchemePrefixKept | 3rd_party/tangle/src/uri.cpp:583-584 | a replacement after the scheme's colon keeps the scheme |
| Uri.PrefixKept | 3rd_party/tangle/src/uri.cpp:609-614 | two texts sharing a prefix up to a path stop have the same scheme, path and query starts |
| Uri.SchemeKept | 3rd_party/tangle/src/uri.cpp:606 | two texts sharing a prefix up to a path stop have the same scheme |
| Uri.QueryKept | 3rd_party/tangle/src/uri.cpp:612-613 | setting a query-shaped value keeps the scheme, path and query offsets, so only the fragment needs resetting |
| Uri.FragmentKept | 3rd_party/tangle/src/uri.cpp:619 | setting a fragment-shaped value keeps every cached offset |
| UriFacts.SchemeEndIff | 3rd_party/tangle/inc/tangle/uri.h:364-367 | there is a scheme ending at k exactly when the text is a letter, then letters, digits, "+", "-" or ".", then a colon at k |
| UriFacts.NoSchemeIff | 3rd_party/tangle/src/uri.cpp:404-412 | there is no scheme exactly when no position ends one |
| UriFacts.NoSchemeFrom | 3rd_party/tangle/src/uri.cpp:404-412 | a text with no colon before a byte that cannot be in a scheme has no scheme |
| UriFacts.WithPathNoScheme | 3rd_party/tangle/src/uri.cpp:597-607 | a new path that cannot begin a scheme keeps a scheme-less URI scheme-less |
| UriFacts.WithPathNoColon | 3rd_party/tangle/src/uri.cpp:597-607 | a new path with no colon keeps a scheme-less URI scheme-less |
| UriFacts.Layout | 3rd_party/tangle/src/uri.cpp:554-576 | the text is the front, the path, the query and the fragment in that order, and the resource is path plus query |
| UriFacts.PathPlain | 3rd_party/tangle/src/uri.cpp:448-468 | a path holds no "?" and no "#" |
| UriFacts.QueryShape | 3rd_party/tangle/src/uri.cpp:470-487 | a query is empty or starts with "?", and holds no "#" |
| UriFacts.FragmentShape | 3rd_party/tangle/src/uri.cpp:572-576 | a fragment is empty or starts with "#" |
| UriFacts.WithPathNoSchemeText | 3rd_party/tangle/src/uri.cpp:597-607 | without a scheme, setting the path gives the value followed by the old query and fragment |
| UriFacts.PathUnderAuthority | 3rd_party/tangle/src/uri.cpp:438-445 | under an authority the path is empty or starts with "/" |
| UriFacts.AuthorityPlain | 3rd_party/tangle/src/uri.cpp:438-445 | an authority holds no "/", "?" or "#" |
| UriFacts.HierarchicalDiffers | 3rd_party/tangle/inc/tangle/uri.h:335-342 | without a scheme hierarchical is true while has_authority is false; with one they agree |
| UriFacts.SetQueryParts | 3rd_party/tangle/src/uri.cpp:609-614 | setting a query-shaped value gives that query and keeps every other component |
| UriFacts.SetFragmentParts | 3rd_party/tangle/src/uri.cpp:616-620 | setting a fragment-shaped value gives that fragment and keeps every other component |
| UriFacts.SameAfterScheme | 3rd_party/tangle/src/uri.cpp:578-585 | replacing the scheme by one of the same length keeps the authority and every later component |
| UriFacts.AuthorityKeepsScheme | 3rd_party/tangle/src/uri.cpp:587-595 | setting the authority keeps the scheme and the authority marker |
| UriFacts.AuthorityEndsAt | 3rd_party/tangle/src/uri.cpp:592-594 | after setting a plain authority the path starts right after it and the rest of the text is unchanged |
| UriFacts.SetAuthorityParts | 3rd_party/tangle/src/uri.cpp:587-595 | setting a plain authority gives that authority and keeps scheme, path, query and fragment |
| UriFacts.PathKeepsFront | 3rd_party/tangle/src/uri.cpp:597-607 | setting the path under an authority keeps the scheme and authority |
| UriFacts.PathEndsAt | 3rd_party/tangle/src/uri.cpp:600-605 | under an authority the new path, with its leading "/", is followed by the old query and fragment |
| UriFacts.SetPathParts | 3rd_party/tangle/src/uri.cpp:597-607 | setting a plain path under an authority gives a path starting with "/" and keeps every other component |
| UriNormal.DefaultPort | 3rd_party/tangle/src/uri.cpp:30-43 | 80, 443, 21, 22 and 23 for exactly http, https, ftp, ssh and telnet, -1 for every other scheme |
| UriNormal.Lower | 3rd_party/tangle/src/uri.cpp:45-51 | every byte is lowercased as in the C locale |
| UriNormal.RemoveFilename | 3rd_party/tangle/src/uri.cpp:622-628 | a prefix of the path: the whole path without a "/", else up to and including the last "/" |
| UriNormal.ResolveSegments | 3rd_party/tangle/src/uri.cpp:730-747 | the push and pop loop over the segments computes the resolution function |
| UriNormal.RecodeAll | 3rd_party/tangle/src/uri.cpp:717-721 | every segment is decoded and encoded again, one for one |
| UriNormal.NormalizePath | 3rd_party/tangle/src/uri.cpp:712-755 | the loop computes the normal path: split, recode, resolve, join |
| UriNormal.CheckHost | 3rd_party/tangle/src/uri.cpp:688-692 | true exactly when every host byte is alphanumeric or one of "-.[]:" |
| UriNormal.CheckPort | 3rd_party/tangle/src/uri.cpp:695-699 | true exactly when every port byte is a digit |
| UriNormal.ParsePort | 3rd_party/tangle/src/uri.cpp:703 | atoi of an all-digit port is its decimal value |
| UriNormal.NormalAuth | 3rd_party/tangle/src/uri.cpp:680-709 | rejected exactly when the host is empty, has a disallowed byte once lowercased, or the port has a non-digit; otherwise the host is lowercased and a default port dropped |
| UriNormalFacts.ResolveShape | 3rd_party/tangle/src/uri.cpp:734-747 | canon keeps only clean segments and overshots only "..", all taken from the input |
| UriNormalFacts.ResolveClean | 3rd_party/tangle/src/uri.cpp:746 | clean segments resolve to themselves with no overshots |
| UriNormalFacts.ResolveOvershots | 3rd_party/tangle/src/uri.cpp:738-741 | leading ".." segments all become overshots |
| UriNormalFacts.ResolveAfter | 3rd_party/tangle/src/uri.cpp:734-747 | overshots followed by clean segments resolve to exactly those two lists |
| UriNormalFacts.ResolveIdempotent | 3rd_party/tangle/src/uri.cpp:753 | resolving again the overshots followed by canon gives the same result |
| UriNormalFacts.ResolveSkipsEmpty | 3rd_party/tangle/src/uri.cpp:735-736 | a trailing empty segment is skipped |
| UriNormalFacts.ResolveUp | 3rd_party/tangle/src/uri.cpp:738-743 | ".." drops the last kept segment when there is one |
| UriNormalFacts.RecodeBytes | 3rd_party/tangle/src/uri.cpp:721 | a recoded segment holds only unreserved bytes and escapes |
| UriNormalFacts.RecodeEmpty | 3rd_party/tangle/src/uri.cpp:721 | a segment recodes to nothing exactly when it was empty |
| UriNormalFacts.RecodeTwice | 3rd_party/tangle/src/uri.cpp:721 | recoding twice is recoding once |
| UriNormalFacts.KeptSettled | 3rd_party/tangle/src/uri.cpp:748-754 | everything the path is joined from is already settled |
| UriNormalFacts.NormalPathBytes | 3rd_party/tangle/src/uri.cpp:712-755 | a normal path holds only unreserved bytes, "%" and "/" |
| UriNormalFacts.NormalPathNoScheme | 3rd_party/tangle/src/uri.cpp:712-755 | normalising the path of a scheme-less URI does not create a scheme |
| UriNormalFacts.SplitLeading | 3rd_party/tangle/src/uri.cpp:723 | path_split gives more than one piece with an empty first one exactly when the path starts with "/" |
| UriNormalFacts.AbsoluteIff | 3rd_party/tangle/src/uri.cpp:723 | the path counts as absolute exactly when it starts with "/" |
| UriNormalFacts.NormalPathLeadingSlash | 3rd_party/tangle/src/uri.cpp:750-755 | a normal path starts with "/" exactly when the path did |
| UriNormalFacts.LastKept | 3rd_party/tangle/src/uri.cpp:734-747 | a clean last segment of a path of several is kept last |
| UriNormalFacts.NormalPathTrailingSlash | 3rd_party/tangle/src/uri.cpp:725-749 | a normal path ends in "/" exactly when the path ended in "/", "/." or "/.." (unless it resolves to nothing) |
| UriNormalFacts.SplitSettled | 3rd_party/tangle/src/uri.cpp:717-721 | settled segments joined come back unchanged from path_split and recoding |
| UriNormalFacts.NormalPathFrom | 3rd_party/tangle/src/uri.cpp:748-755 | the normal path read from the recoded segments |
| UriNormalFacts.AbsoluteAgain | 3rd_party/tangle/src/uri.cpp:750-751 | an absolute normal path normalises to itself |
| UriNormalFacts.RelativeAgain | 3rd_party/tangle/src/uri.cpp:752-754 | a relative normal path normalises to itself |
| UriNormalFacts.NormalPathIdempotent | 3rd_party/tangle/inc/tangle/uri.h:487-506 | normalising a normal path changes nothing |
| UriResolve.NormalizeAuth | 3rd_party/tangle/src/uri.cpp:680-708 | the host and port checks give the authority the normal-authority function describes, or none |
| UriResolve.LowerSchemeOf | 3rd_party/tangle/src/uri.cpp:674-678 | the URI's scheme, when it has one, is lowercased in place |
| UriResolve.NormalizePathOf | 3rd_party/tangle/src/uri.cpp:711-756 | under an authority or without a scheme the path is normalised in place; an opaque path is kept |
| UriResolve.Normal | 3rd_party/tangle/src/uri.cpp:672-759 | the result is the normal text of the input: scheme lowered, authority rebuilt or the whole URI emptied, path normalised |
| UriResolve.HttpPrefix | 3rd_party/tangle/src/uri.cpp:636-637 | "http://" in front gives the scheme "http" and, for a non-empty text, an authority |
| UriResolve.MakeBase | 3rd_party/tangle/src/uri.cpp:630-644 | the result is the base text: empty stays empty, "http://" added without a scheme, query and fragment emptied, path cut after its last "/" |
| UriResolve.SchemeDiffers | 3rd_party/tangle/src/uri.cpp:652-655 | true exactly when the identifier has a scheme and the base has none or another one, ignoring case |
| UriResolve.TakeQueryAndFragment | 3rd_party/tangle/src/uri.cpp:658-660 | the base copy takes the identifier's fragment, then its query, keeping its scheme |
| UriResolve.Merge | 3rd_party/tangle/src/uri.cpp:657-669 | a copy of the base with the identifier's fragment, query and merged path; the inputs are unchanged |
| UriResolve.WriteMergedPath | 3rd_party/tangle/src/uri.cpp:662-669 | the path written is the identifier's when it starts with "/", else the base path, "/" and the identifier's path |
| UriResolve.Canonical | 3rd_party/tangle/src/uri.cpp:647-670 | the result is the canonical text of identifier against base |
| UriResolve.NoSchemeMerged | 3rd_party/tangle/src/uri.cpp:662-669 | with no scheme in base or identifier the merged text has none either |
| UriResolveFacts.LowerKeepsScheme | 3rd_party/tangle/src/uri.cpp:45-51 | lowercasing keeps scheme bytes scheme bytes and letters letters |
| UriResolveFacts.LowerSchemeEnd | 3rd_party/tangle/src/uri.cpp:674-678 | lowering a scheme ending at k lowers the first k bytes and keeps the colon and the rest |
| UriResolveFacts.LowerSchemeParts | 3rd_party/tangle/src/uri.cpp:674-678 | lowering the scheme changes no other component |
| UriResolveFacts.AuthStringPlain | 3rd_party/tangle/src/uri.cpp:709 | the rebuilt authority holds no "/", "?" or "#", so it stays one authority |
| UriResolveFacts.AuthorityStep | 3rd_party/tangle/src/uri.cpp:709 | writing the rebuilt authority keeps every other component |
| UriResolveFacts.PathStepAuthority | 3rd_party/tangle/src/uri.cpp:712-756 | under an authority the path is normalised, an empty one becomes "/", nothing else changes |
| UriResolveFacts.NormalAuthorityParts | 3rd_party/tangle/inc/tangle/uri.h:487-506 | normal of an accepted authority URI: scheme lowercased, authority rebuilt, path normalised, query and fragment kept |
| UriResolveFacts.NormalRejects | 3rd_party/tangle/src/uri.cpp:680-699 | normal empties an authority URI exactly when the host or port check fails |
| UriResolveFacts.NormalWithoutScheme | 3rd_party/tangle/src/uri.cpp:712-756 | normal of a scheme-less URI changes only the path |
| UriResolveFacts.NormalOpaque | 3rd_party/tangle/src/uri.cpp:712-715 | normal of an opaque URI lowercases the scheme and changes nothing else |
| UriResolveFacts.EmptyQueryAndFragment | 3rd_party/tangle/src/uri.cpp:639-640 | emptying the fragment, then the query, keeps every other component |
| UriResolveFacts.CutShape | 3rd_party/tangle/src/uri.cpp:622-628 | remove_filename of an absolute path is empty or starts and ends with "/" |
| UriResolveFacts.CutPath | 3rd_party/tangle/src/uri.cpp:641 | cutting the path after its last "/" under an authority leaves a path ending in "/" and every other component |
| UriResolveFacts.MakeBaseParts | 3rd_party/tangle/inc/tangle/uri.h:455-467 | make_base of a non-empty hierarchical text: scheme "http" when missing, authority kept, query and fragment empty, path ending in "/" |
| UriResolveFacts.MergedPlain | 3rd_party/tangle/src/uri.cpp:662-669 | the merged path holds no "?" or "#" |
| UriResolveFacts.MergeParts | 3rd_party/tangle/src/uri.cpp:657-669 | the merge against an authority base keeps the base's scheme and authority and takes the identifier's query, fragment and merged path |
| UriResolveFacts.CanonicalResolves | 3rd_party/tangle/inc/tangle/uri.h:470-484 | an identifier without authority, resolved against an accepted authority base: lowered base scheme, rebuilt base authority, normalised merged path, identifier's query and fragment |
| HeaderText.TrimStart | 3rd_party/tangle/src/base_parser.cpp:121-124 | the first loop of produce drops exactly the leading white space: what is left is empty or starts with a byte that is not white space |
| HeaderText.TrimEnd | 3rd_party/tangle/src/base_parser.cpp:125-128 | the second loop drops exactly the trailing white space |
| HeaderText.Trim | 3rd_party/tangle/src/base_parser.cpp:121-129 | white space off both ends: the result is empty or starts and ends with a byte that is not white space |
| HeaderText.RunStart | 3rd_party/tangle/src/base_parser.cpp:166-169 | where the white space run that ends the text starts |
| HeaderText.RunStartSpace | 3rd_party/tangle/src/base_parser.cpp:166-169 | the run that pop loop takes back is all white space |
| HeaderText.RunStartOf | 3rd_party/tangle/src/base_parser.cpp:166-169 | that run is the only maximal trailing run of white space |
| HeaderText.UnfoldPlain | 3rd_party/tangle/src/base_parser.cpp:154-174 | a trailing run without CR passes the copying loop unchanged |
| HeaderText.UnfoldSnoc | 3rd_party/tangle/src/base_parser.cpp:173 | a byte that is not white space is appended to the output |
| HeaderText.Produce | 3rd_party/tangle/src/base_parser.cpp:115-178 | produce returns Unfold of the trimmed text: the white space at both ends dropped and every run of white space holding a CR replaced by one space |
| HeaderText.UnfoldLines | 3rd_party/tangle/src/base_parser.cpp:153-174 | the copying loop leaves Unfold of the trimmed view in the output |
| HeaderText.FoldByte | 3rd_party/tangle/src/base_parser.cpp:156-162 | inside a fold, white space is skipped and anything else ends the fold and is copied |
| HeaderText.StartFold | 3rd_party/tangle/src/base_parser.cpp:164-171 | at a CR outside a fold the white space just copied is taken back, one space is emitted and a fold starts |
| HeaderText.LoopDone | 3rd_party/tangle/src/base_parser.cpp:154 | the loop ends outside a fold, since the trimmed view ends in a byte that is not white space |
| HeaderText.TrimmedAt | 3rd_party/tangle/src/base_parser.cpp:121-129 | the bounds the trimming loops stop at are those of Trim |
| HeaderText.TrimStartAt | 3rd_party/tangle/src/base_parser.cpp:121-124 | the first trimming loop stops at the first byte that is not white space |
| HeaderText.TrimEndAt | 3rd_party/tangle/src/base_parser.cpp:125-128 | the second trimming loop stops after the last byte that is not white space |
| HeaderText.UnfoldSpace | 3rd_party/tangle/src/base_parser.cpp:173 | white space other than CR after a run without CR is copied |
| HeaderText.RunStartSnocSpace | 3rd_party/tangle/src/base_parser.cpp:166-169 | one more byte of white space extends the trailing run |
| HeaderText.PlainStep | 3rd_party/tangle/src/base_parser.cpp:173 | one byte other than CR, outside a fold, is copied |
| HeaderText.TrailingRun | 3rd_party/tangle/src/base_parser.cpp:164-169 | at a CR outside a fold the output is Unfold up to the run before it, then that run |
| HeaderText.TakeBack | 3rd_party/tangle/src/base_parser.cpp:166-169 | the pop loop removes the trailing white space from the output and moves the cursor back by as much |
| HeaderText.FoldStarts | 3rd_party/tangle/src/base_parser.cpp:164-171 | after the pop loop, the space pushed starts the fold |
| HeaderText.FoldContinues | 3rd_party/tangle/src/base_parser.cpp:156-160 | inside a fold, more white space changes nothing in the output |
| HeaderText.FoldEnds | 3rd_party/tangle/src/base_parser.cpp:156-162 | leaving a fold, the run became one space and the byte follows it |
| HeaderText.UnfoldNoCR | 3rd_party/tangle/src/base_parser.cpp:164-171 | no CR survives the copying loop |
| HeaderText.UnfoldIdentity | 3rd_party/tangle/src/base_parser.cpp:154-174 | without a CR the copying loop changes nothing |
| HeaderText.UnfoldFirst | 3rd_party/tangle/src/base_parser.cpp:173 | a first byte that is not white space is kept first |
| HeaderText.TrimIdentity | 3rd_party/tangle/src/base_parser.cpp:121-129 | a text without white space at either end is its own Trim |
| HeaderText.ProduceClean | 3rd_party/tangle/src/base_parser.cpp:115-178 | produce's output holds no CR, has no white space at either end, and is empty only for an all-white-space input |
| HeaderText.ProduceKeepsClean | 3rd_party/tangle/src/base_parser.cpp:115-178 | a value that is already clean passes produce unchanged |
| HeaderText.ProduceIdempotent | 3rd_party/tangle/src/base_parser.cpp:115-178 | produce twice is produce once |
| HeaderText.Lower | 3rd_party/tangle/src/base_parser.cpp:180-185 | lower sends every byte through tolower: same length, no upper-case letter left, every other byte unchanged |
| HeaderText.LowerIdempotent | 3rd_party/tangle/src/base_parser.cpp:180-185 | lower twice is lower once |
| HeaderParser.Get | 3rd_party/tangle/inc/tangle/msg/base_parser.h:72-75 | get gives the bytes the span covers, as many as its length |
| HeaderParser.Step | 3rd_party/tangle/src/base_parser.cpp:77-111 | one turn of the loop: no complete line means reading, a CR without LF is an error, an empty line is the separator, a continuation needs a previous field, and a new line needs a colon |
| HeaderParser.Cut | 3rd_party/tangle/src/base_parser.cpp:103-107 | a first line's name runs up to the colon and its value from after the colon through the CRLF |
| HeaderParser.ScanBounds | 3rd_party/tangle/src/base_parser.cpp:77-111 | the loop moves the line mark forward within the buffer, and every span stays within the lines cut |
| HeaderParser.ScanStatus | 3rd_party/tangle/src/base_parser.cpp:77-111 | the separator is a CRLF at the line mark, an error lies at or after it, and reading means no complete line follows it |
| HeaderParser.Continued | 3rd_party/tangle/src/base_parser.cpp:91-97 | a continuation line stretches the last value to the end of that line and leaves every other span |
| HeaderParser.ReportRead | 3rd_party/tangle/src/base_parser.cpp:52-55 | the corrected report_read: the bytes of the latest chunk before the position, or 0 when the position lies in an earlier chunk |
| HeaderParser.ReportReadAsWritten | 3rd_party/tangle/src/base_parser.cpp:52-55 | report_read as written: prev - position, wrapping modulo 2^64, and 0 when the position is not past prev |
| HeaderParser.Keys | 3rd_party/tangle/src/base_parser.cpp:192 | the dictionary keys of the fields, lower-cased and produced, in order |
| HeaderParser.Values | 3rd_party/tangle/src/base_parser.cpp:193 | the dictionary values of the fields, produced, in order |
| HeaderParser.GroupSnoc | 3rd_party/tangle/src/base_parser.cpp:191-195 | filing one more field appends its value to the list under its key |
| HeaderParser.Feed | 3rd_party/tangle/src/base_parser.cpp:65-113 | append buffers the chunk and scans from the line mark; reading takes the whole chunk, the separator clears the buffer and the field list, and otherwise the state stays valid |
| HeaderParser.Parser.constructor | 3rd_party/tangle/inc/tangle/msg/base_parser.h:65-69 | a new parser has an empty buffer, no fields, an empty dictionary and the line mark at 0 |
| HeaderParser.Parser.Append | 3rd_party/tangle/src/base_parser.cpp:65-113 | append leaves the parser in the state Feed describes and reports its count and status |
| HeaderParser.Parser.CutLines | 3rd_party/tangle/src/base_parser.cpp:77-111 | the loop of append cuts lines as Scan does |
| HeaderParser.Parser.CutLine | 3rd_party/tangle/src/base_parser.cpp:78-110 | one turn of the loop does what Step says |
| HeaderParser.Parser.Rearrange | 3rd_party/tangle/src/base_parser.cpp:187-201 | rearrange fills the dictionary with Collect of the fields, clears the buffer and the field list and keeps the line mark |
| HeaderParser.Parser.TakeDict | 3rd_party/tangle/inc/tangle/msg/base_parser.h:61-64 | dict() moves the dictionary out and leaves it empty |
| HeaderParserFacts.Select | 3rd_party/tangle/src/base_parser.cpp:191-195 | the values whose key is k, in arrival order |
| HeaderParserFacts.SelectEmpty | 3rd_party/tangle/src/base_parser.cpp:191-195 | some value is selected exactly for the keys that occur |
| HeaderParserFacts.GroupIsSelect | 3rd_party/tangle/src/base_parser.cpp:191-195 | a key is in the dictionary exactly when some field has it, and its list holds the values of those fields in order |
| HeaderParserFacts.CollectGroups | 3rd_party/tangle/src/base_parser.cpp:187-201 | the dictionary of rearrange, key by key |
| HeaderParserFacts.CollectKeysLower | 3rd_party/tangle/src/base_parser.cpp:192 | every dictionary key is lower case |
| HeaderParserFacts.IndexOfFromPrefix | 3rd_party/tangle/src/base_parser.cpp:78 | a CR found inside the first chunk is found the same way once more bytes follow |
| HeaderParserFacts.StepPrefix | 3rd_party/tangle/src/base_parser.cpp:77-111 | a line the first chunk completes is cut the same way with more bytes after it |
| HeaderParserFacts.ScanChunks | 3rd_party/tangle/src/base_parser.cpp:65-113 | splitting the input into chunks does not change the lines cut nor where the scan stops |
| HeaderParserFacts.ScanNames | 3rd_party/tangle/src/base_parser.cpp:99-107 | a name is cut at the first colon of its line, so no name holds a colon |
| HeaderParserFacts.StepNames | 3rd_party/tangle/src/base_parser.cpp:99-107 | cutting one line keeps the names free of colons |
| HeaderParserFacts.AppendCount | 3rd_party/tangle/src/base_parser.cpp:65-113 | the count append reports never exceeds the chunk, and for a separator in the latest chunk it is the bytes before the CRLF |
| HeaderParserFacts.FeedCount | 3rd_party/tangle/src/base_parser.cpp:65-113 | on a fresh parser, an append that completes the head reports the bytes before the empty line's CRLF |
| HeaderParserFacts.ReportReadWraps | 3rd_party/tangle/src/base_parser.cpp:52-55 | with report_read as written, the head "a: b", CRLF, CRLF fed at once reports 2^64 - 6 instead of 6 |
| HeaderParserFacts.ReportReadAsWrittenOverflows | 3rd_party/tangle/src/base_parser.cpp:52-55 | as written, whenever the separator lies past the first byte of the latest chunk the count exceeds the chunk |
| Http.DigitsEnd | 3rd_party/tangle/src/http_parser.cpp:34-45 | the run of decimal digits from a position ends at the first byte that is not a digit |
| Http.ParseNumber | 3rd_party/tangle/src/http_parser.cpp:31-46 | parse_number stops at the end of the digit run and reads its decimal value |
| Http.ParseProto | 3rd_party/tangle/src/http_parser.cpp:49-66 | parse_proto accepts exactly "HTTP/", digits, ".", digits and nothing more, and reads the two numbers |
| Http.SkipSpaces | 3rd_party/tangle/src/http_parser.cpp:112-113 | the first position from the method's end, below the version, that is not a space |
| Http.TrimSpaces | 3rd_party/tangle/src/http_parser.cpp:114-115 | the version position moved back over the spaces before it, never below the resource's start |
| Http.LastIndexOf | 3rd_party/tangle/src/http_parser.cpp:94 | find_last_of gives the last space, or the length when there is none |
| Http.RequestLine | 3rd_party/tangle/src/http_parser.cpp:92-121 | a request line needs a last space distinct from the first, a version after the last space and a non-empty resource; the method is what precedes the first space |
| Http.RequestTarget | 3rd_party/tangle/src/http_parser.cpp:110-121 | once the version is read the method is set, and the resource is the text between the spaces, an error when empty |
| Http.ResponseLine | 3rd_party/tangle/src/http_parser.cpp:146-177 | a status line needs a version before the first space; the reading of the status follows |
| Http.StatusCode | 3rd_party/tangle/src/http_parser.cpp:162-177 | the status code must be a run of digits worth at least 100 followed by a space; the reason is the rest after the spaces |
| Http.SplitRequestLine | 3rd_party/tangle/src/http_parser.cpp:92-121 | the request half of first_line computes RequestLine |
| Http.SplitStatusLine | 3rd_party/tangle/src/http_parser.cpp:146-177 | the response half of first_line computes ResponseLine |
| Http.AdvanceOverSpaces | 3rd_party/tangle/src/http_parser.cpp:112-113 | the loop stops where SkipSpaces says |
| Http.RetreatOverSpaces | 3rd_party/tangle/src/http_parser.cpp:114-115 | the loop stops where TrimSpaces says |
| Http.Gather | 3rd_party/tangle/src/http_parser.cpp:73-92 | first_line buffers a chunk without a complete line, reports an error at a CR without LF, and otherwise gives the buffered line without its CRLF and the bytes of the chunk it took |
| Http.ReadFirstLine | 3rd_party/tangle/src/http_parser.cpp:70-178 | first_line keeps the head's kind, takes at most the chunk, and while reading buffers the whole chunk |
| Http.Deliver | 3rd_party/tangle/inc/tangle/msg/http_parser.h:59-76 | append sends the chunk to first_line until it reports the separator, then the rest to the header parser, and the count covers both |
| Http.HttpParser.Request | 3rd_party/tangle/inc/tangle/msg/http_parser.h:78-87 | a new request parser: version 0.0, empty method and resource, a fresh header parser, first line pending |
| Http.HttpParser.Response | 3rd_party/tangle/inc/tangle/msg/http_parser.h:89-98 | a new response parser: version 0.0, status 0, empty reason, a fresh header parser, first line pending |
| Http.HttpParser.Append | 3rd_party/tangle/inc/tangle/msg/http_parser.h:59-76 | append leaves the parser in the state Deliver describes |
| Http.HttpParser.FirstLine | 3rd_party/tangle/src/http_parser.cpp:70-178 | first_line leaves the head, version, count and status ReadFirstLine describes |
| Http.HttpParser.Dict | 3rd_party/tangle/inc/tangle/msg/http_parser.h:47 | dict moves the header dictionary out and leaves it empty |
| HttpFacts.ProtoText | 3rd_party/tangle/src/http_parser.cpp:49-66 | a version as written: "HTTP/" major "." minor |
| HttpFacts.ProtoTextHasNoSpace | 3rd_party/tangle/src/http_parser.cpp:49-66 | a written version holds no space |
| HttpFacts.ProtoRoundTrip | 3rd_party/tangle/src/http_parser.cpp:49-66 | parse_proto reads back the version it is given |
| HttpFacts.ProtoParsed | 3rd_party/tangle/src/http_parser.cpp:49-66 | whatever parse_proto accepts is a written version with the numbers it reads |
| HttpFacts.RequestLineAt | 3rd_party/tangle/src/http_parser.cpp:94-121 | a line with a first and a last space around a resource that does not start or end with a space, and a version after, gives that method and resource |
| HttpFacts.RequestLineRoundTrip | 3rd_party/tangle/src/http_parser.cpp:70-121 | method, space, resource, space, version is split back into exactly those parts |
| HttpFacts.RequestLineParsed | 3rd_party/tangle/src/http_parser.cpp:92-121 | an accepted request line always has that layout, so a resource holding spaces is read from the first to the last space |
| HttpFacts.RequestSeparator | 3rd_party/tangle/src/http_parser.cpp:92-121 | an accepted request line has its parts between the first and the last space |
| HttpFacts.StatusLineRoundTrip | 3rd_party/tangle/src/http_parser.cpp:124-178 | version, space, code of at least 100, space, reason is split back into exactly those parts |
| HttpFacts.StatusLineAt | 3rd_party/tangle/src/http_parser.cpp:146-177 | a line of that shape gives that status and reason |
| HttpFacts.StatusCodeAt | 3rd_party/tangle/src/http_parser.cpp:162-177 | the code and reason after the version, for the same line |
| HttpFacts.StatusLineParsed | 3rd_party/tangle/src/http_parser.cpp:146-177 | an accepted status line always has that layout |
| HttpFacts.GatherChunks | 3rd_party/tangle/src/http_parser.cpp:73-92 | splitting the first line over two chunks gives the same outcome, the same line and counts that differ by the first chunk |
| HttpFacts.HeadCount | 3rd_party/tangle/inc/tangle/msg/http_parser.h:59-76 | with the head complete, the count a fresh parser reports ends right before the CRLF of the empty line |
| Hashing.Widen | 3rd_party/tangle/src/hasher.cpp:55 | the byte read as char and widened to size_t: itself where char is unsigned, sign-extended from 0x80 up where it is signed |
| Hashing.XorBits | 3rd_party/tangle/src/hasher.cpp:55 | bitwise exclusive or of the low bits, below the width |
| Hashing.Mix | 3rd_party/tangle/src/hasher.cpp:55 | m_value ^= (size_t)*data: the low byte is xored with the byte, the upper bits kept or, for a sign-extended byte, all flipped |
| Hashing.Step | 3rd_party/tangle/src/hasher.cpp:54-57 | one turn of append: the byte mixed in, then the product with the FNV prime of the width, wrapped modulo 2^width |
| Hashing.Fold | 3rd_party/tangle/src/hasher.cpp:50-59 | the state after feeding the buffer front to back stays below 2^width |
| Hashing.Hash | 3rd_party/tangle/src/hasher.cpp:61-64 | hash(s, l) is the fold from the offset basis of the width |
| Hashing.FoldConcat | 3rd_party/tangle/src/hasher.cpp:50-59 | appending a + b is appending a and then b |
| Hashing.SignednessIrrelevantForAscii | 3rd_party/tangle/src/hasher.cpp:55 | for bytes below 0x80 the signedness of char makes no difference to the hash |
| Hashing.SignedHighByte | 3rd_party/tangle/src/hasher.cpp:55 | where char is signed, a byte from 0x80 up flips every upper bit of the state |
| Hashing.Hasher.constructor | 3rd_party/tangle/src/hasher.cpp:45-48 | a new hasher holds the offset basis of its width (2166136261 or 14695981039346656037) |
| Hashing.Hasher.Append | 3rd_party/tangle/src/hasher.cpp:50-59 | append leaves the state folded over every byte of the buffer |
| Hashing.HashOf | 3rd_party/tangle/src/hasher.cpp:61-64 | hasher{}.append(s, l).value() is Hash |
| Hashing.CombinedString.Empty | 3rd_party/tangle/inc/tangle/msg/hasher.h:50-53 | the default key borrows an empty view |
| Hashing.CombinedString.Borrow | 3rd_party/tangle/inc/tangle/msg/hasher.h:55-63 | a key made from a cstring or a char pointer borrows those bytes |
| Hashing.CombinedString.Own | 3rd_party/tangle/inc/tangle/msg/hasher.h:65-73 | a key made from a std::string owns a copy of its bytes |
| Hashing.CombinedString.Copy | 3rd_party/tangle/inc/tangle/msg/hasher.h:75-81 | a copy has the same representation and the same bytes |
| Hashing.CombinedString.Assign | 3rd_party/tangle/inc/tangle/msg/hasher.h:83-100 | assignment takes over the other key's representation and bytes, and self-assignment changes nothing |
| Hashing.CombinedString.HashValue | 3rd_party/tangle/inc/tangle/msg/hasher.h:120-123 | hash() is Hash of the active member's bytes, owned or borrowed |
| Hashing.EqualKeysHashEqually | 3rd_party/tangle/inc/tangle/msg/hasher.h:131-134 | NUL-free keys that compare equal hash equally, whatever they own or borrow |
| Hashing.HashSnoc | 3rd_party/tangle/src/hasher.cpp:54-57 | hashing one more byte is one more step from the prefix's hash |
| Hashing.StepApart | 3rd_party/tangle/src/hasher.cpp:54-57 | with a 64-bit unsigned char platform, one step from the same state with two different bytes gives two different states |
| Hashing.XorBitsInjective | 3rd_party/tangle/src/hasher.cpp:55 | for a fixed state, the xor is injective in the byte |
| Hashing.ProductsApart | 3rd_party/tangle/src/hasher.cpp:56 | two different values closer than 256 stay different once multiplied by the 64-bit prime modulo 2^64 |
| Hashing.EqualKeysHashApart | 3rd_party/tangle/inc/tangle/msg/hasher.h:120-134 | a NUL-free prefix, a NUL and two different bytes give two keys that operator== calls equal and hash() sets apart |
| Hashing.SameKeysHashEqually | 3rd_party/tangle/inc/tangle/msg/hasher.h:120-134 | with the byte-wise key equality the hash is consistent: equal keys hash equally |
| ShadeBase.LightStateEq | inc/shade/model/base.h:47-56 | true exactly when every member of the two states agrees |
| ShadeBase.LightStateNe | inc/shade/model/base.h:58-60 | true exactly when the two states differ |
| ShadeBase.GroupStateEq | inc/shade/model/base.h:62-65 | true exactly when the any flag and the light state agree |
| ShadeBase.GroupStateNe | inc/shade/model/base.h:67-69 | true exactly when the two group states differ |
| ShadeBase.InfoBaseEq | inc/shade/model/base.h:71-75 | true exactly when id, name and type agree |
| ShadeBase.InfoBaseNe | inc/shade/model/base.h:77-79 | true exactly when id, name or type differ |
| ShadeBase.LightInfoEq | inc/shade/model/base.h:81-84 | true exactly when state and the info part agree |
| ShadeBase.LightInfoNe | inc/shade/model/base.h:86-88 | true exactly when the two light infos differ |
| ShadeBase.GroupInfoEq | inc/shade/model/base.h:90-95 | true exactly when state, class, light ids and the info part agree |
| ShadeBase.GroupInfoNe | inc/shade/model/base.h:97-99 | true exactly when the two group infos differ |
| ShadeBase.HwInfoEq | inc/shade/model/base.h:101-106 | true exactly when base, name, mac and model id agree |
| ShadeBase.HwInfoNe | inc/shade/model/base.h:108-110 | true exactly when the two hardware descriptions differ |
| ShadeBase.LightInfosEq | inc/shade/model/base.h:81-84 | two light lists compare equal exactly when they are the same list |
| ShadeBase.GroupInfosEq | inc/shade/model/base.h:90-95 | two group lists compare equal exactly when they are the same list |
| ShadeColor.Clamp | inc/shade/model/light_source.h:86 | the value forced into 0..254: kept inside, 0 below, 254 above |
| ShadeColor.ClampMonotone | inc/shade/model/light_source.h:86 | clamping keeps order and clamping a clamped value changes nothing |
| ShadeColor.ColorEq | src/model/light_source.cc:15-32 | equal exactly when both are the same non-empty colour; an empty colour equals nothing |
| ShadeColor.ColorNe | inc/shade/model/light_source.h:59-61 | true exactly when either colour is empty or they differ |
| ShadeColor.Visit | inc/shade/model/light_source.h:63-71 | the visitor is called on the active payload only, and not at all for an empty colour |
| ShadeColor.PackModeKeeps | src/model/light_source.cc:89-96 | packing a colour writes only under "hue", "sat", "x", "y" and "ct" |
| ShadeColor.Component | src/model/light_source.cc:105 | an integer member becomes a component in 0..254, kept when already in range |
| ShadeColor.UnpackMode | src/model/light_source.cc:98-133 | never fails; the colour is kept or replaced by a non-empty one in range |
| ShadeColor.CtFirst | src/model/light_source.cc:102-108 | an integer "ct" decides the colour whatever else the object holds |
| ShadeColor.ModeRoundTrip | src/model/light_source.cc:81-133 | reading back what pack wrote gives the colour again; an empty colour leaves the target's colour |
| ShadeLight.SourceEq | src/model/light_source.cc:71-79 | equal exactly when id, name, type, on, brightness and a non-empty colour agree; the index is ignored |
| ShadeLight.UpdatedTwice | src/model/light.cc:15-29 | updating twice with the same report is updating once |
| ShadeLight.UpdateAgain | src/model/light.cc:15-29 | a repeated update reports a change exactly when the derived colour is empty |
| ShadeLight.Light.constructor | inc/shade/model/light_source.h:121-130 | the light holds the given source |
| ShadeLight.Light.SetBri | inc/shade/model/light_source.h:147 | only the brightness changes, to the clamped value |
| ShadeLight.Light.Update | src/model/light.cc:15-29 | the source becomes the one derived from the report; the result is true exactly when the old source no longer compares equal |
| ShadeLight.RangeEqFixedFrom | inc/shade/model/light_source.h:164-182 | from position i on, every pair is two nulls or two equal lights |
| ShadeLight.RangeEqFixed | inc/shade/model/light_source.h:164-182 | the same length and every pair two nulls or two equal lights |
| ShadeLight.RangeEqAgrees | inc/shade/model/light_source.h:168-181 | the written loop accepts whatever the corrected one does, and agrees with it when the left list has no null |
| ShadeLight.NullHidesRest | inc/shade/model/light_source.h:172-173 | two lists that differ after a shared null still compare equal as written |
| ShadeLight.RangeEqual | inc/shade/model/light_source.h:164-182 | the loop computes range_equal as written |
| ShadeLight.Group.constructor | inc/shade/model/group.h:17-22 | the group holds the given source, flag, class and lights |
| ShadeLight.GroupEq | src/model/group.cc:5-11 | equal exactly when the source part, some, class and the light lists agree, with lists compared as range_equal means |
| ShadeLight.Ids | src/model/group.cc:18-24 | the ids of the lights, one for one and in order |
| ShadeLight.PackRefs | src/model/group.cc:18-24 | an array holding each light's id, in order |
| ShadeLight.FirstWithId | src/model/group.cc:50-55 | the first light in the list with that id, or none when no light has it |
| ShadeLight.Referenced | src/model/group.cc:43-57 | at most one light per reference, each taken from the list |
| ShadeLight.CleanRefs | src/model/group.cc:60-63 | the group's light list is emptied and nothing else changes |
| ShadeLight.UnpackRefs | src/model/group.cc:25-59 | always succeeds; the lights become those the references name, none for a non-array or missing environment |
| ShadeLight.ResolveRefs | src/model/group.cc:47-56 | the loop computes the referenced lights |
| ShadeLight.FindLight | src/model/group.cc:50-55 | the inner loop finds the first light with the id |
| ShadeLight.RefsRoundTrip | src/model/group.cc:18-59 | packing a group's references and reading them back against a list where each of its lights comes first for its id gives the same lights |
| ShadeLight.SourceFields | src/model/light_source.cc:136-145 | one value per registered member, each of its member's shape |
| ShadeLight.UnpackMembersByName | src/model/light_source.cc:136-145 | unpacking the registered members reads only their own names |
| ShadeLight.SourceMembersOk | src/model/light_source.cc:136-145 | the registered members have distinct names, shapes that round-trip, and none of the colour's names |
| ShadeLight.SourceMembersBack | src/model/light_source.cc:136-145 | the members of a packed source read back into any target give the source's fields |
| ShadeLight.SourceLeavesModeKeys | src/model/light_source.cc:136-145 | the registered members leave the colour's names free |
| ShadeLight.SourceRoundTrip | src/model/light_source.cc:81-145 | a source packed and unpacked comes back whole, except the index, which is not registered, and an empty colour |
| ShadeHost.Toggled | src/model/host.cc:29-35 | the device flips membership and no other device changes |
| ShadeHost.ToggleTwice | src/model/host.cc:29-35 | toggling the same device twice restores the selection |
| ShadeHost.ToggleCommutes | src/model/host.cc:29-35 | toggling two devices gives the same selection in either order |
| ShadeHost.Host.constructor | inc/shade/model/host.h:17 | the given name, no username, nothing selected, no storage |
| ShadeHost.Host.Set | inc/shade/model/updatable.h:11 | only the storage pointer changes |
| ShadeHost.Host.Update | src/model/host.cc:16-22 | a change is reported exactly when the username differed; the username is then the given one |
| ShadeHost.Host.IsSelected | src/model/host.cc:24-27 | true exactly when the device is selected |
| ShadeHost.Host.SwitchSelection | src/model/host.cc:29-38 | the device's selection flips, others are kept, and one store is requested |
| ShadeHost.Host.BatchUpdate | inc/shade/model/host.h:23-25 | the selection becomes the given set |
| ShadeHost.Host.ClearSelection | inc/shade/model/host.h:30 | nothing is selected and no other field changes |
| ShadeHost.SwitchTwice | src/model/host.cc:29-38 | switching a device twice restores the selection and requests two stores |
| ShadeBridge.IndexOfName | src/model/bridge.cc:79-80 | the position of the first host with the name, or -1 exactly when no host has it |
| ShadeBridge.IndexOfOwnName | src/model/bridge.cc:79-80 | with distinct names every host is found at its own position |
| ShadeBridge.FindHost | src/model/bridge.cc:79-80 | the search loop returns the first position with the name, or -1 |
| ShadeBridge.Bridge.constructor | inc/shade/model/bridge.h:11-25 | not seen, empty hardware, no lights, groups or hosts, no current host |
| ShadeBridge.Bridge.SetHost | src/model/bridge.cc:74-85 | the first host with the name, appended fresh only when missing, becomes current and takes the storage; other hosts and the bridge's data are kept, names stay distinct |
| ShadeBridge.Bridge.SetHostFrom | src/model/bridge.cc:87-98 | as set_host, keyed on the upstream host's name and taking its storage |
| ShadeBridge.Bridge.RebindCurrent | src/model/bridge.cc:100-110 | the current host becomes the first host with its name; in a valid table it is the same host |
| ShadeBridge.SetHostTwice | src/model/bridge.cc:74-85 | setting the same host twice adds it at most once |
| ShadeBridge.Publish | src/model/bridge.cc:50-61 | the bridge's lights are published under "lights" and every other entry is kept |
| ShadeCache.Cache.constructor | inc/shade/cache.h:20 | the given client id and no bridges |
| ShadeCache.Cache.Get | inc/shade/cache.h:29-35 | the stored bridge exactly when the id is known, null otherwise |
| ShadeCache.Cache.SetBridges | inc/shade/cache.h:24-25 | the whole table is replaced |
| ShadeCache.Cache.BridgeLocated | src/cache.cc:12-26 | dirty exactly when the id is new or the base changed; the bridge then has that base, a new one hosted by the client; other bridges are kept |
| ShadeCache.Cache.BridgeNamed | src/cache.cc:28-49 | the bridge is seen with that name, mac and model id; dirty exactly when the id is new or one of them changed |
| ShadeCache.Cache.BridgeConnected | src/cache.cc:51-55 | the current host takes the username; dirty exactly when it differed |
| ShadeCache.LocatedTwice | src/cache.cc:12-26 | a second identical location report is not dirty |
| ShadeCache.NamedTwice | src/cache.cc:28-49 | a second identical naming report is not dirty |
| ShadeStorage.StoreText | src/storage.cc:198-207 | what fprintf's "%s\n" writes: the indented document up to its first NUL byte, holding no NUL, then a newline |
| ShadeStorage.StoreTextWhole | src/storage.cc:198-207 | a document whose text holds no NUL byte is written whole, followed by a newline |
| ShadeStorage.StoreTextCutsAtNul | src/storage.cc:206 | the string U+0000, printed as a quote, a raw 0 byte and a quote, is written as the opening quote and a newline only |
| ShadeStorage.BindAll | src/storage.cc:193-195 | every bridge of the table gets a current host named after the client, holding this storage |
| ShadeStorage.Storage.constructor | inc/shade/storage.h:21 | the given client id, no bridges, nothing written, a valid table |
| ShadeStorage.Storage.AddBridge | src/storage.cc:135-146 | a new bridge for the id, with a fresh current host named after the client and holding this storage |
| ShadeStorage.Storage.BridgeLocated | src/storage.cc:209-226 | the table is written and true returned exactly when the id is new or the base changed; other bridges are kept and the table stays valid |
| ShadeStorage.Storage.BridgeNamed | src/storage.cc:228-254 | the bridge is seen with that name, mac and model id; the table is written exactly when the id is new or one of them changed |
| ShadeStorage.Storage.BridgeConnected | src/storage.cc:256-268 | the current host takes the username; the table is written exactly when it changed |
| ShadeStorage.Storage.BridgeConfigAsWritten | src/storage.cc:270-290 | lights and groups are stored and written when changed, but a new bridge is left without a current host, so the table is no longer valid |
| ShadeStorage.Storage.BridgeConfig | src/storage.cc:270-290 | as written, except that a new bridge gets a current host named after the client, so the table stays valid |
| ShadeStorage.Storage.Store | src/storage.cc:198-207 | the text written is StoreText of the document, cut at its first NUL byte; one write is counted and the table is unchanged |
| ShadeStorage.Storage.Load | src/storage.cc:181-196 | nothing changes without a file; an undecodable file empties the table; otherwise the decoded table, each bridge bound to this client and storage |
| ShadeStorage.ConfigThenConnect | src/storage.cc:256-290 | after a configuration report for a new bridge, a connection report reaches its host |
| ShadeStorage.ConfigAsWrittenBreaksConnect | src/storage.cc:270-280 | after the as-written configuration report for a new bridge, the bridge has no current host for a connection report to use |
| ShadeHelpers.UnpackJson | src/internal.h:119-124 | a non-object fails and leaves the target; the result always fits the struct |
| ShadeHelpers.UnpackJsonIsUnpack | src/internal.h:119-124 | for a struct the object check changes nothing: unpacking refuses a non-object itself |
| ShadeHelpers.UnpackJsonVector | src/internal.h:126-131 | a non-array fails and leaves the target; the result always fits the vector |
| ShadeHelpers.VectorGuardMatters | src/manager_internal.h:191-196 | without the check a non-array would read as an empty array and succeed |
| ShadeHelpers.MapMember | src/internal.h:133-142 | the member under the key of an object, null for a non-object or a missing key |
| ShadeHelpers.MapMemberInsert | src/manager_internal.h:198-207 | a member just stored reads back and other members read as before |
| ShadeHelpers.FoldAppend | src/manager_internal.h:209-219 | walking a split array is walking its halves in turn |
| ShadeHelpers.Foreach | src/internal.h:144-154 | the predicate is applied to every element of an array in order, and to nothing else |
| ShadeHelpers.FoldRecords | src/manager_internal.h:214-216 | a recording predicate sees each element once, in order |
| ShadeHelpers.ScanStops | src/manager_internal.h:226-229 | once a call says stop, later elements are not looked at |
| ShadeHelpers.ScanWithoutStop | src/manager_internal.h:221-232 | when no call says stop, find_first walks the whole array like foreach |
| ShadeHelpers.FindFirst | src/internal.h:156-167 | the predicate is applied to the elements of an array in order up to the first that says stop |
| ShadeHelpers.GetError | src/internal.h:169-183 | nothing for a non-array document |
| ShadeHelpers.ErrorDocRoundTrips | src/internal.h:45-49 | the error record's members have distinct names and round-trip |
| ShadeHelpers.ErrorFound | src/manager_internal.h:234-248 | the error in a bridge's error report is found whole |
| ShadeHelpers.GetErrorCode | src/internal.h:185-192 | a code exactly when the error is found, and then the error's type |
| ShadeHelpers.HttpClient.constructor | src/internal.h:63-66 | status 0, no buffered data, nothing delivered |
| ShadeHelpers.HttpClient.OnHeaders | src/internal.h:73-76 | only the status changes |
| ShadeHelpers.HttpClient.OnData | src/internal.h:78-91 | a non-empty chunk is appended; the empty chunk parses the buffer, clears it and delivers status and value, or the parse error escapes with nothing changed |
| ShadeHelpers.Receive | src/manager_internal.h:145-158 | a body in non-empty chunks, then the empty one, delivers the parse of the whole body however it was split |
| ShadeConfig.InDirectory | src/storage_linux.cc:16-18 | the file name follows the directory and exactly one separator, which is added only when the directory lacks it |
| ShadeConfig.TrailingSeparatorIgnored | src/storage_linux.cc:16-18 | a directory with or without its final separator names the same file; a doubled separator is kept |
| ShadeConfig.PosixFilename | src/storage_linux.cc:6-21 | the path ends in "/.shade.cfg", starts with HOME when it is set, and is "./.shade.cfg" without it |
| ShadeConfig.PosixUnderHome | src/storage_linux.cc:11-18 | with HOME set the path is HOME, one "/" only when needed, then the file name |
| ShadeConfig.BuildFilenamePosix | src/storage_linux.cc:6-21 | the string appended piece by piece is the POSIX path above |
| ShadeConfig.WindowsFilename | src/storage_win.cc:16-39 | empty exactly when HOME and one of HOMEDRIVE and HOMEPATH are missing; otherwise the file name under HOME, or under HOMEDRIVE then HOMEPATH, after one backslash |
| ShadeConfig.BuildFilenameWindows | src/storage_win.cc:16-39 | the string appended piece by piece is the Windows path above, and the empty path when HOME and one of the other two are missing |

## Left out

- The translator registrations: light_source::prepare, group::prepare, host::prepare, client::prepare and bridge::prepare. Also the JSON_STRUCT registrations of internal.h and storage.cc other than error_type. They register members with a translator API newer than the serdes.hpp modelled here. The model keeps the members they register and the lights environment, as a map from bridge to light list.
- cache::bridge_lights (cache.cc) and the cache's browser() accessor: they hand work to the discovery browser, which is not part of this model.
- group::update and group::referenced: group.h declares them, but no source file defines them.
- updatable::store and the storage it writes through: a host and the storage count their store requests in `stores` instead.
- The storage listener of the cache: each cache report returns whether it would have marked the storage dirty.
- The file behind storage::load and storage::store: load takes the outcome of reading and unpacking the file, and store returns the bytes fprintf would write, which stop at the first NUL byte of the rendered document.
- The environment: the caller reads HOME, HOMEDRIVE and HOMEPATH and passes them in as optional values.
- ShadeConfig.PosixFilename, ShadeConfig.BuildFilenamePosix, ShadeConfig.WindowsFilename and ShadeConfig.BuildFilenameWindows require a variable that is set to be non-empty. The code reads the last character of an empty string in that case.
- Pointer invalidation: a host or bridge object keeps its identity here, whereas growing a std::vector moves the C++ objects. bridge::rebind_current is modelled as the rebinding it performs.
- Diagnostic output: the printf lines of http_client::on_data and refs_translator, and the message pos_t::err writes to std::cerr (and to OutputDebugStringA on Windows) on every JSON parse error (json.cpp:218-226).
- std::to_string(double) and the values of doubles: the text of a double is the parameter `ftoa`, and a double is its 64-bit pattern. Equality of doubles is therefore equality of bit patterns, which differs from IEEE == on +0.0 against -0.0 (equal in IEEE) and on NaN (never equal in IEEE). ShadeBase.LightStateEq (the xy pair) and ShadeColor.ColorEq compare doubles this way. The JSON parser never produces a FLOAT, so no parsed value reaches the difference.
- UriNormal.Atoi: the int returned by atoi and parse_number is unbounded here, so an overflow of a long port or status code is not modelled.
- CString.Compare: the length difference is an unbounded int here, whereas the code casts each size_t length to int, which truncates for views of 2^31 bytes or more.
- CString.Find: it requires the offset to lie inside the view when the needle is empty. Past the view, the code goes on to read the first byte of the empty needle, which the model does not follow (cstring.h:137-141).
- value::to_html is not modelled. It is a presentation helper outside the parse/print core.
- UriNormalFacts.NormalPathIdempotent: idempotence is proved for the path step of normal, not for the whole normalised text.
- UriResolveFacts.MakeBaseParts: it states the parts of make_base for a non-empty text that has an authority or has no scheme. The opaque base (a scheme without an authority) is not described part by part.
- Uri.Uri.SetPath: it promises Valid() afterwards only when the old text had a scheme or the new text has none. A path containing ':' set on a text without a scheme makes the text look like it has one.
- ShadeLight.Light.Update: color::from_json is called by light::update but is not defined in any source file, so the colour it gives is an input.
- JsonSerdesFacts.ItemMapLosesKey: the round trip of an item member holding a one-pair map loses the key. This is recorded as an observation of the code, not corrected.
- JsonRoundTrip.SurrogatePairLost: characters from U+10000 on do not read back even with the corrected \u escape, because each half of a surrogate pair is narrowed on its own. StringRoundTrip is stated for characters below U+10000 only.
- The uri move constructor (uri.cpp:378-382) has no member of its own. It is the move assignment into a fresh object, which Uri.Uri.MoveAssign models. The default constructor is Uri.Uri.constructor applied to the empty text.
- Shared nested values: an array or object added into another value is kept as a snapshot of its contents at that moment. In the C++ code the inner backend stays shared with the handle it was added from, so later changes through that handle show through the outer value; the model keeps this aliasing one level deep only.
- HeaderParser.Feed, HeaderParser.Parser.Append, HeaderParserFacts.AppendCount, HeaderParserFacts.FeedCount, Http.Deliver, Http.HttpParser.Append and HttpFacts.HeadCount are built on the corrected report_read of the Findings row for base_parser.cpp:52-55. ShadeHelpers.HttpClient.OnData and ShadeHelpers.Receive are built on the corrected \u escape of the Findings row for json.cpp:307-308.
- Threads, sockets and the HTTP client's transport: only the callbacks' handling of bytes is modelled.

## Findings

| source | as written | input that shows it | evidently intended | confidence | as-written member | corrected member |
|---|---|---|---|---|---|---|
| 3rd_party/json/src/json.cpp:307-308 | `std::u16string codepoint{ unicode, 0 }` holds two units, so every \uXXXX escape appends the character and a NUL byte | the string "é", printed as "\u00e9", reads back as C3 A9 00 | one escape gives exactly its own character | high, not executed | JsonRoundTrip.EscapeAppendsNul | JsonRoundTrip.StringRoundTrip |
| 3rd_party/json/inc/json/serdes.hpp:263-267 | pack omits an item member whose container is empty (valid() is false), but unpack treats every item member as required | a struct with one item member holding an empty vector packs to {} and then fails to unpack | an empty item member is optional on the way back, so pack and unpack round-trip | medium, not executed | JsonSerdesFacts.EmptyItemRejected | JsonSerdesFacts.DocumentRoundTrip |
| 3rd_party/tangle/inc/tangle/msg/hasher.h:120-134 | operator== compares through cstring, which stops at the first NUL, while hash() covers every byte | the keys "a" NUL "c" and "a" NUL "d" compare equal but hash apart | equal keys hash equally, so equality is byte-wise over the whole length | medium, not executed | Hashing.EqualKeysHashApart | Hashing.SameKeysHashEqually |
| 3rd_party/tangle/src/base_parser.cpp:52-55 | report_read returns prev - position when position > prev, which wraps in size_t | the head "a: b", CRLF, CRLF fed in one chunk reports 2^64 - 6 bytes read instead of 6 | position - prev, the bytes of the latest chunk that were consumed | high, not executed | HeaderParserFacts.ReportReadWraps | HeaderParser.ReportRead |
| 3rd_party/tangle/src/uri.cpp:181-183 | the guard `i < in_len - 2` wraps in size_t when in_len < 2 | a one-byte range "%" followed in memory by "41" decodes to "A" | an escape is decoded only when both hex digits lie inside the range | high, not executed | UriCodecFacts.DecodeAsWrittenReadsPast | UriCodecFacts.DecodeEncode |
| inc/shade/model/light_source.h:172-173 | range_equal returns !rhs_item on the first null on the left, without looking at the rest of the lists | the lists [null, a] and [null, b] with a != b compare equal | a null pair is skipped and the comparison goes on | high, not executed | ShadeLight.NullHidesRest | ShadeLight.RangeEqFixed |
| src/storage.cc:270-280 | bridge_config creates a bridge for an unknown id without binding it to this client's host | bridge_config for a new id, then bridge_connected for it, dereferences a null current host | a new bridge is bound to the client, as bridge_located and bridge_named do | medium, not executed | ShadeStorage.ConfigAsWrittenBreaksConnect | ShadeStorage.ConfigThenConnect |
