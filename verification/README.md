# A verified model of the remote HDF5 connector and plugin

The repository accesses HDF5 data over HTTP with two programs: a REST VOL connector
(`src/vol-rest/src`) and an XRootD plugin (`src/H5Plugin_Xrd`). This project models the
algorithms in them that carry their own logic and proves what they guarantee. Check it with
`dafny verify dfyconfig.toml` (Dafny 4.11).

## What is modelled

- **JSON tokenizer** (`Rfc8259`, `JsmnSpec`, `JsmnStructure`, `JsmnRestart`, `JsmnGrammar`,
  `JsmnLexemes`, `JsmnTwoPass`, `JsmnParser`). The stack-free tokenizer `jsmn.h` as compiled (neither `JSMN_STRICT` nor
  `JSMN_PARENT_LINKS`), as a class whose methods update `pos`, `toknext`, `toksuper` and the
  caller's array, proved against a step function. `Rfc8259` is the grammar of RFC 8259,
  sections 2 to 7, as syntax trees that keep every blank; its rendering is the text. The
  tokenizer is proved against the grammar for all JSON, and against a lexer with a stack of
  brackets for all texts.
- **Datatypes as JSON** (`SectionEnd`, `JsonReader`, `JsonReaderExact`, `Datatype`,
  `DatatypeText`, `DatatypeReader`, `DatatypeSpacing`, `DatatypeSearch`, `DatatypeRoundTrip`,
  `DatatypeAccepted`, `DatatypePrinter`).
  The printer, the brace scanner, and the parser that mixes a JSON tree with text search, on texts
  with any whitespace. The round trip is not an identity: its normal form and the exact condition
  under which it is reached are stated and proved both ways. What the printer's unwritten memory
  holds is a parameter.
- **Conversion buffers** (`Background`): the analysis whether a conversion needs the old bytes of
  its destination, against a byte-by-byte account of what the conversion writes.
- **Thread pool** (`ThreadPool`, `ThreadPoolObject`): critical sections as atomic steps, blocking
  and waking explicit, wake-ups without a signal allowed.
- **LRU cache** (`LruSpec`, `LruCache`): the doubly linked list as a class over heap nodes,
  refining a recency sequence; the trace theorems are about the sequence.
- **Domain references** (`DomainRefs`, `DomainRefsObject`): who holds a file object, when it is
  freed, and exactly which calls break the count.
- **Transfers** (`Base64`, `Retry`, `RetryTiming`, `RetryLoop`, `Buffers`, `PipeTransfer`):
  base64 against RFC 4648, the multi-transfer loop with its back-off after 503, the upload and
  response buffers, the pipe between child and parent process and the chunks of the response.
- **Intermediate groups** (`Groups`): creating a group and all that is missing on the way.

`Wrappers.dfy` holds what several of them share (`Wrappers`, `Numbers`, `Texts`).

Where the source is imperative there is a class or a method with loops, proved equal to a
function; lemmas about that function then say what it is good for. Step systems (thread pool,
reference counts, retry loop, pipe) are functions over a state and an environment's choices, and
their theorems quantify over all runs.

## What the proofs show about the code

Some properties one would expect do not hold. For each of them the model keeps the code as it
is, gives a concrete input, and proves when the property does hold.

- Enum values are printed through a zero-filled eight-byte buffer read in host order, so negative
  values in narrow bases and values in big-endian bases change on the way
  (`Datatype.LittleEndianSurvives`, `Datatype.BigEndianSurvives`).
- A compound with a member named `type` cannot be read back (`DatatypeRoundTrip.PrintParse`).
- An enum without members is printed from a mapping buffer nothing has been written to, and so is
  a compound without members under an array (`Datatype.PrintsTheText`,
  `DatatypeRoundTrip.EmptyEnum`, `DatatypeRoundTrip.ArrayOfEmptyCompounds`).
- `RV_base64_decode` drops the last byte of text that ends in one padding character, because
  it tests for two first; and it cannot read what `RV_base64_encode` writes when that contains
  `+` or `/` (`Base64.UrlSafeComesBack`, `Base64.StandardComesBack`).
- `threadpool_add` accepts tasks after shutdown; what is accepted after the last worker's exit
  never runs (`ThreadPool.StrandedTasks`).
- `RV_curl_multi_perform` ends with success as soon as nothing is under way, also when a denied
  transfer is still waiting for its retry, and also when everything finishes in the first round,
  whose reports it then does not read (`Retry.SuccessMeans`, `Retry.SingleTransferIsNeverRetried`).
- A lookup that fails after it has replaced the domain releases one reference too many, and group
  information by name through a file handle releases the file's own reference
  (`DomainRefs.CallKeepsBalance`).
- Creating a group in an anonymous group, and committing a datatype that cannot be copied, clean up
  an object whose fields have not all been set (`DomainRefs.GroupUnderAnonymousGroup`,
  `DomainRefs.CallKeepsBalance`).
- The comment on `BACKOFF_MAX_BEFORE_FAIL` says 30 seconds; its value is 3 seconds, and the model
  follows the value.
- A response whose size is a multiple of the chunk size has an empty chunk before the one that
  ends it (`PipeTransfer.SendChunks`).

## Model

| member | source | states |
|---|---|---|
| JsmnGrammar.JsonIsTokenized | src/H5Plugin_Xrd/jsmn.h:268-453 | Main result. Every JSON text of RFC 8259 (any value, any nesting, any insignificant whitespace, blanks around it) is accepted when the array has a slot for each node; the tokens are exactly the pre-order list of the nodes with their spans, child counts and key size 1, the position is the end of the text and `toksuper` is back at -1 |
| JsmnGrammar.ValueLeads | src/H5Plugin_Xrd/jsmn.h:275-441 | From any point inside a text where a value starts, the loop passes the value, appends exactly its token list and adds one child to the enclosing token; a string, number or literal leaves `toksuper` where it was, an array or object leaves it at the innermost open container |
| JsmnGrammar.ArrayLeads | src/H5Plugin_Xrd/jsmn.h:280-360 | The same for an array: opening bracket, elements, closing bracket found by searching back for the open token |
| JsmnGrammar.ObjectLeads | src/H5Plugin_Xrd/jsmn.h:280-360 | The same for an object |
| JsmnGrammar.ItemsLead | src/H5Plugin_Xrd/jsmn.h:379-396 | Elements separated by commas: after each one the enclosing array is the parent again, with one child more |
| JsmnGrammar.MembersLead | src/H5Plugin_Xrd/jsmn.h:361-396 | Members separated by commas: each key is a child of the object, each value a child of its key |
| JsmnGrammar.KeyLeads | src/H5Plugin_Xrd/jsmn.h:361-378 | A key and its colon make the key token the parent of the value that follows |
| JsmnGrammar.QuotedLeads | src/H5Plugin_Xrd/jsmn.h:193-263 | Any string of the grammar, escapes and \u digits included, is one string token spanning its body |
| JsmnGrammar.LexemeLeads | src/H5Plugin_Xrd/jsmn.h:135-188 | A number or literal is one primitive token spanning its characters |
| JsmnGrammar.ScanBody | src/H5Plugin_Xrd/jsmn.h:203-260 | The string scanner finds the closing quote of every valid string body, whatever escapes it holds |
| JsmnGrammar.ScanLexeme | src/H5Plugin_Xrd/jsmn.h:142-165 | The primitive scanner stops exactly at the end of every valid lexeme that a delimiter or the end of the text follows |
| JsmnGrammar.TokensAreClosed | src/H5Plugin_Xrd/jsmn.h:443-450 | The token list of a value has no open token, so the final search for one finds none |
| JsmnStructure.AcceptedTokensFormForest | src/H5Plugin_Xrd/jsmn.h:268-453 | Main result, for every text whatsoever: if the parser returns r >= 0, then r is the number of tokens, starts strictly increase, all spans lie in the text, the characters around each span are the brackets or quotes of its kind, any two spans are nested or disjoint (and only containers contain others), and the sizes add up to the number of tokens created under a parent |
| JsmnStructure.RunKeepsStructure | src/H5Plugin_Xrd/jsmn.h:275-441 | Ordered, delimited, nested-or-disjoint spans and the sum of sizes hold wherever a call stops, also when it fails |
| JsmnStructure.StepKeepsStructure | src/H5Plugin_Xrd/jsmn.h:275-441 | One iteration of the main loop keeps the structure of the spans |
| JsmnStructure.CloseKeepsStructure | src/H5Plugin_Xrd/jsmn.h:308-360 | A closing bracket that matches the innermost open token closes it without crossing any other span |
| JsmnStructure.StepSizes | src/H5Plugin_Xrd/jsmn.h:280-433 | One iteration changes the sum of the sizes by one exactly when it creates a token under a parent |
| JsmnRestart.RetryIsOneShot | src/H5Plugin_Xrd/jsmn.h:106-119 | Main result: any sequence of restarts after `JSMN_ERROR_NOMEM` with growing arrays ends with the result, position and tokens of one call with the last array |
| JsmnRestart.ResumeAfterNoMem | src/H5Plugin_Xrd/jsmn.h:172-187 | A call that ran out of tokens stopped in a state from which a larger array continues as if it had been there from the start |
| JsmnRestart.MoreRoomSameOutcome | src/H5Plugin_Xrd/jsmn.h:207-221 | More room than needed changes nothing |
| JsmnRestart.CountingAgrees | src/H5Plugin_Xrd/jsmn.h:268-453 | Main result: when tokenising succeeds the call without tokens returns the same count, and an array of the counted size is never exhausted |
| JsmnRestart.StepCounts | src/H5Plugin_Xrd/jsmn.h:275-441 | An iteration that goes on advances the counting mode to the same place, with the same number of tokens |
| JsmnRestart.StopCounts | src/H5Plugin_Xrd/jsmn.h:172-221 | One that stops for lack of a slot would have counted a token more than the array holds |
| JsmnRestart.CountThenParse | src/H5Plugin_Xrd/jsmn.h:268-453 | Counting, allocating that many tokens and parsing gives the count, or an error that counting cannot see, but never `JSMN_ERROR_NOMEM` |
| JsmnRestart.RunCodes | src/H5Plugin_Xrd/jsmn.h:268-453 | A call returns a count or one of the three error codes, nothing else |
| JsmnTwoPass.TwoPassesAgree | src/H5Plugin_Xrd/jsmn.h:268-453 | Main result, for every text and every number of slots: result, tokens and last parent are those of a tokenizer in two passes, which first cuts the text into lexemes and then builds the tokens with a stack of open brackets where the source searches backwards |
| JsmnTwoPass.AcceptsExactly | src/H5Plugin_Xrd/jsmn.h:268-453 | Main result: with a slot for every value a text is accepted if and only if it can be cut into lexemes to its end and every bracket is closed by one of its kind; the result is then the number of its values |
| JsmnTwoPass.CountIsExact | src/H5Plugin_Xrd/jsmn.h:268-453 | Without tokens the result is the number of values of every text that can be cut into lexemes, matching brackets or not, and the lexer's error otherwise |
| JsmnTwoPass.StepAgrees | src/H5Plugin_Xrd/jsmn.h:275-441 | One iteration of the loop is a blank skipped or one lexeme put, for each kind of character and with the same refusals |
| JsmnTwoPass.OpenAtClosed | src/H5Plugin_Xrd/jsmn.h:337-358 | Closing the innermost open token pops the stack, and the second search finds the new top |
| JsmnLexemes.StringFoundExactly | src/H5Plugin_Xrd/jsmn.h:203-262 | A string ends at a place if and only if a quote is there and only ordinary characters and whole escapes lie before it |
| JsmnLexemes.StringRefusedExactly | src/H5Plugin_Xrd/jsmn.h:223-259 | A string is INVAL if and only if after ordinary characters and whole escapes comes a backslash that makes no escape |
| JsmnLexemes.PrimitiveFoundExactly | src/H5Plugin_Xrd/jsmn.h:142-165 | A primitive ends at a place if and only if that is the first delimiter or end of the text, with only printable ASCII characters before it |
| JsmnSpec.Step | src/H5Plugin_Xrd/jsmn.h:275-441 | An iteration that goes on strictly advances the position inside the text, loses no token and stays within the array |
| JsmnSpec.Run | src/H5Plugin_Xrd/jsmn.h:268-453 | A call ends; a count it returns is the number of tokens, none of them open, with the whole text consumed |
| JsmnSpec.CountRun | src/H5Plugin_Xrd/jsmn.h:268-453 | A counting call ends, and its count never goes down on the way |
| JsmnSpec.ScanString | src/H5Plugin_Xrd/jsmn.h:203-262 | A found end is a quote inside the text; otherwise the code is INVAL or PART |
| JsmnSpec.ScanPrimitive | src/H5Plugin_Xrd/jsmn.h:142-165 | A found end is a delimiter or the end of the text; otherwise the code is INVAL |
| JsmnSpec.ScanHex | src/H5Plugin_Xrd/jsmn.h:239-252 | Never passes the end of the text, and fails only with INVAL |
| JsmnSpec.LastOpen | src/H5Plugin_Xrd/jsmn.h:337-358 | The index found is open and no later token is |
| JsmnSpec.LastOpenContainer | src/H5Plugin_Xrd/jsmn.h:386-393 | The index found is an open container and no later token is one |
| JsmnParser.Parser.ParseTokens | src/H5Plugin_Xrd/jsmn.h:268-453 | The loop on the parser's fields and the caller's array computes exactly the outcome of the specification; slots beyond `toknext` are untouched |
| JsmnParser.Parser.CountTokens | src/H5Plugin_Xrd/jsmn.h:268-453 | The loop without tokens computes exactly the counting specification and leaves `toknext` alone |
| JsmnParser.Parser.Iterate | src/H5Plugin_Xrd/jsmn.h:275-441 | One iteration on the fields is one step of the specification |
| JsmnParser.Parser.PushToken | src/H5Plugin_Xrd/jsmn.h:106-130 | Takes and fills the next slot, or reports that there is none and changes nothing |
| JsmnParser.Parser.ParsePrimitive | src/H5Plugin_Xrd/jsmn.h:135-188 | One primitive token, or an error with the position put back |
| JsmnParser.Parser.ParseString | src/H5Plugin_Xrd/jsmn.h:193-263 | One string token, or an error with the position put back |
| JsmnParser.Parser.SkipEscape | src/H5Plugin_Xrd/jsmn.h:223-259 | Leaves the position where the specification's scan continues after an escape |
| JsmnParser.Parser.SkipHex | src/H5Plugin_Xrd/jsmn.h:239-252 | Leaves the position after the digits the specification reads |
| JsmnParser.Parser.OpenContainer | src/H5Plugin_Xrd/jsmn.h:281-307 | An opening bracket: one open token, one child more for the parent, and the token becomes the parent |
| JsmnParser.Parser.FindOpen | src/H5Plugin_Xrd/jsmn.h:337-358 | The backward search finds the innermost open token |
| JsmnParser.Parser.CloseContainer | src/H5Plugin_Xrd/jsmn.h:308-360 | A closing bracket: end set on the innermost open token, or INVAL when there is none of its kind |
| JsmnParser.Parser.Comma | src/H5Plugin_Xrd/jsmn.h:379-396 | A comma after a value hands the parent role back to the innermost open container |
| JsmnParser.Parser.StringLeaf | src/H5Plugin_Xrd/jsmn.h:361-370 | A string in the main loop: one token, the parent's size counted up, or the error of the scan |
| JsmnParser.Parser.PrimitiveLeaf | src/H5Plugin_Xrd/jsmn.h:423-433 | The same for a number or literal |
| JsmnParser.Parser.CountLeaf | src/H5Plugin_Xrd/jsmn.h:361-433 | The same without tokens: only the position moves |
| JsmnParser.Parser.constructor | src/H5Plugin_Xrd/jsmn.h:459-463 | Position 0, no tokens, no parent |
| SectionEnd.SectionIsObject | src/vol-rest/src/rest_vol.h:237-283 | Main result: from the opening brace of any RFC 8259 object, in any surrounding text, the scan stops exactly one past its matching brace, for all nesting and all string escapes |
| SectionEnd.FindSectionEnd | src/vol-rest/src/rest_vol.h:239-283 | The loop over `depth_counter`, `suspend_processing` and `advancement_ptr` computes the scan |
| SectionEnd.EndIsPastABrace | src/vol-rest/src/rest_vol.h:247-280 | In any text, an end that is found is one past a closing brace |
| SectionEnd.ScanOfPrefix | src/vol-rest/src/rest_vol.h:239-283 | In any text, the scan depends on the text up to the end it finds and on nothing more; every text cut before that, or without an end, is refused |
| SectionEnd.SkipValue | src/vol-rest/src/rest_vol.h:247-280 | Any value inside the section is passed without changing depth or the in-string flag |
| SectionEnd.SkipQuoted | src/vol-rest/src/rest_vol.h:266-275 | Any string, braces and escaped quotes included, is passed without changing the depth |
| SectionEnd.SkipMembers | src/vol-rest/src/rest_vol.h:247-280 | Any member list is passed without changing depth or the in-string flag |
| JsonReader.ReadRender | src/vol-rest/src/rest_vol_datatype.c:1460 | The JSON tree that stands for `yajl_tree_parse` is unambiguous: every rendering, with blanks around it, reads back as the tree it came from |
| JsonReaderExact.ReadIsExact | src/vol-rest/src/rest_vol_datatype.c:1460 | A text reads as a tree if and only if the tree is valid JSON and the text is its rendering with whitespace around it: nothing else is taken |
| DatatypeRoundTrip.PrintParse | src/vol-rest/src/rest_vol_datatype.c:1440-2107 | Main result: for every supported, well-formed datatype, printing gives a text that parses to the packed, string-normalised form of the type, whatever was in the memory the printer leaves unwritten, if and only if every enum has a member, no compound is empty or has a member named `type`, the sizes are ones the parser knows, and every enum value survives; and then printing the result gives the identical text |
| DatatypeRoundTrip.EmptyEnum | src/vol-rest/src/rest_vol_datatype.c:1072-1080 | An enum without members is well-formed and its specified text would be read back, but the printer formats a buffer nothing has been written to, so it does not round-trip |
| DatatypeRoundTrip.ArrayOfEmptyCompounds | src/vol-rest/src/rest_vol_datatype.c:939-1042 | An array of compounds without members cannot be printed, though such a compound alone can: nested, its buffer has not been cleared by the leading key |
| DatatypeRoundTrip.ParseInside | src/vol-rest/src/rest_vol_datatype.c:618-691 | The truncating caller cuts a type out of any longer text, with any whitespace inside, when no "type" comes before it, and makes its normal form if and only if it is readable |
| DatatypeRoundTrip.ConvertsWrapped | src/vol-rest/src/rest_vol_datatype.c:1440-2107 | The same for a type wrapped in braces and its key, with any whitespace around the colon and inside |
| DatatypeRoundTrip.Converts | src/vol-rest/src/rest_vol_datatype.c:1440-2107 | Main result: any text with the tokens of a printed type, whatever the whitespace between and around them, converts to the normal form if and only if the type is readable: known sizes, no compound empty or with a member named `type`, enum values that survive |
| DatatypeRoundTrip.ConvertsLeaf | src/vol-rest/src/rest_vol_datatype.c:1470-1732 | Integer, float, string and reference types: normal form if and only if the size is known |
| DatatypeRoundTrip.ConvertsCompound | src/vol-rest/src/rest_vol_datatype.c:1736-1865 | Compounds: normal form if and only if there is a member and all members convert and are not named `type` |
| DatatypeRoundTrip.ConvertsFields | src/vol-rest/src/rest_vol_datatype.c:1805-1853 | The loop over members cuts exactly each member's printed type and places the members one after the other, if and only if none is named `type` and all convert |
| DatatypeRoundTrip.ConvertsArray | src/vol-rest/src/rest_vol_datatype.c:1866-1947 | Arrays: normal form if and only if the element type's is |
| DatatypeRoundTrip.ConvertsEnum | src/vol-rest/src/rest_vol_datatype.c:1948-2029 | Enums: same type back if and only if the base size is known and every value survives the eight-byte buffer and saturation |
| DatatypeRoundTrip.MemberHere | src/vol-rest/src/rest_vol_datatype.c:1805-1846 | The search for "type" and its section from any earlier point finds exactly the next member's printed type |
| DatatypeRoundTrip.NamedType | src/vol-rest/src/rest_vol_datatype.c:1805-1833 | When a member is named `type` the search stops at the value of its name, and the text cut out from there is no JSON |
| DatatypeRoundTrip.BaseOf | src/vol-rest/src/rest_vol_datatype.c:1903-1934 | The text cut for an array's or enum's base is exactly the printed base type |
| DatatypeSearch.SectionOfMember | src/vol-rest/src/rest_vol_datatype.c:1805-1821 | The brace section after a key is the value of that member, whatever the whitespace |
| DatatypeSearch.SkipWord | src/vol-rest/src/rest_vol_datatype.c:1807-1809 | A quoted string that is not the word sought is passed by the text search |
| DatatypeSpacing.SameAnswers | src/vol-rest/src/rest_vol_datatype.c:1460-1475 | Every lookup in the JSON tree gives the same for two texts that differ only in whitespace |
| DatatypeRoundTrip.IntNameRead | src/vol-rest/src/rest_vol_datatype.c:1481-1590 | The printed name of an integer type reads back as that type if and only if its size is 1, 2, 4 or 8 |
| DatatypeRoundTrip.FloatNameRead | src/vol-rest/src/rest_vol_datatype.c:1612-1650 | The printed name of a float type reads back as that type if and only if its size is 4 or 8 |
| DatatypeRoundTrip.DimsRead | src/vol-rest/src/rest_vol_datatype.c:1878-1891 | Printed dimensions read back as themselves |
| DatatypeRoundTrip.MappingRead | src/vol-rest/src/rest_vol_datatype.c:2013-2028 | Printed enum members read back as their values passed through the printer's buffer and the parser's saturation |
| DatatypeAccepted.AcceptedIsCanonical | src/vol-rest/src/rest_vol_datatype.c:1440-2107 | Main result, for every text, whoever wrote it: if it is accepted, its class is one of the seven the parser knows, the type is of that class, and it is canonical: known sizes, ASCII strings, packed compounds with members of different names, enum values in range, positive dimensions |
| DatatypeAccepted.AcceptedComesBack | src/vol-rest/src/rest_vol_datatype.c:714-2107 | Main result: what has been parsed from any text, if it is supported and well-formed, is printed and parsed back as the very same type if and only if every enum has a member, no compound member is named `type` and every enum value survives |
| DatatypeAccepted.StringTypeExactly | src/vol-rest/src/rest_vol_datatype.c:1654-1732 | Which objects are string types: ASCII and NUL-terminated with a text for length, or ASCII and NUL-padded with a positive integer, and no others |
| DatatypeAccepted.RefTypeExactly | src/vol-rest/src/rest_vol_datatype.c:2030-2057 | Which objects are reference types |
| DatatypeAccepted.IntNamedExactly | src/vol-rest/src/rest_vol_datatype.c:1496-1590 | An integer name means a type if and only if it agrees with the printed name of the type in the sign letter, the first digit of the width and the order letter; all other characters are ignored |
| DatatypeAccepted.FloatNamedExactly | src/vol-rest/src/rest_vol_datatype.c:1612-1650 | The same for floats: first digit of the width and order letter |
| DatatypeAccepted.DimsExactly | src/vol-rest/src/rest_vol_datatype.c:1878-1891 | Dimensions are accepted if and only if all are positive integers, and they are those |
| DatatypeAccepted.MappingExactly | src/vol-rest/src/rest_vol_datatype.c:2011-2028 | An enum has a member for every entry of its mapping, in order, if and only if all values are integers and no name is empty |
| Datatype.LittleEndianSurvives | src/vol-rest/src/rest_vol_datatype.c:1068-1131 | In a little-endian base an enum value survives if and only if it is not negative or the base has all eight bytes, and its magnitude is below 2^63, which is as far as yajl reads an integer |
| Datatype.BigEndianSurvives | src/vol-rest/src/rest_vol_datatype.c:1068-1131 | In a big-endian base an enum value survives if and only if its bytes read the same backwards, apart from the largest value of a short base, which survives by saturation; negative values survive only in eight bytes |
| Datatype.SupportedExactly | src/vol-rest/src/rest_vol_datatype.c:714-1389 | A type has a text if and only if no part of it is of a class without a branch, of size zero, or too large for the twenty-byte buffers of names and dimensions, given as numbers |
| Datatype.PrintsTheText | src/vol-rest/src/rest_vol_datatype.c:714-1389 | The printer gives the specified text whatever was in the memory it leaves unwritten, if and only if every enum has a member and every compound under an array has one (or the type has no text at all) |
| Datatype.BigEndianSwaps | src/vol-rest/src/rest_vol_datatype.c:1131 | A concrete loss: the value 1 in a big-endian two-byte base is printed, and comes back, as 256 |
| Datatype.NormPrintsTheSame | src/vol-rest/src/rest_vol_datatype.c:939-1042 | Packing compounds and normalising strings does not change the printed text |
| Datatype.PackPrintsTheSame | src/vol-rest/src/rest_vol_datatype.c:976-1024 | Packing the members of a compound does not change their printed text |
| Datatype.NumTextRead | src/vol-rest/src/rest_vol_datatype.c:1115-1131 | A printed number is a JSON number and reads back as itself if and only if its magnitude is below 2^63 |
| DatatypeText.TreeText | src/vol-rest/src/rest_vol_datatype.c:714-1389 | The printed text is the rendering of a JSON tree built from the type |
| DatatypeText.TreeValid | src/vol-rest/src/rest_vol_datatype.c:714-1389 | That tree is valid JSON for every well-formed type: names need no escape |
| DatatypePrinter.ConvertDatatypeToJson | src/vol-rest/src/rest_vol_datatype.c:714-1389 | The printer with its recursive calls computes `PrintFrom` for any contents of unwritten memory; `Datatype.PrintsTheText` says exactly when that is the specified text, and it fails on every type the source has no branch for |
| DatatypePrinter.PrintFields | src/vol-rest/src/rest_vol_datatype.c:976-1024 | The loop over compound members; without members and without a leading key the result is whatever was in memory |
| DatatypePrinter.PrintMapping | src/vol-rest/src/rest_vol_datatype.c:1079-1145 | The loop over enum members, with the comma after all but the last; without members the result is whatever was in memory |
| DatatypePrinter.PrintDims | src/vol-rest/src/rest_vol_datatype.c:1217-1232 | The loop over array dimensions, failing exactly when a number does not fit its buffer |
| DatatypeReader.SectionAfter | src/vol-rest/src/rest_vol_datatype.c:1812-1821 | A section found lies in the text, after the point where the search started |
| DatatypeReader.MemberText | src/vol-rest/src/rest_vol_datatype.c:1807-1846 | The search for the next member starts inside the text |
| Background.NeedBkgIsExact | src/vol-rest/src/rest_vol_datatype.c:2329-2511 | Main result: whenever the analysis does not fail, it asks for a filled background buffer if and only if some byte of the destination element is not written by a name-matched source member (through compounds and arrays, gaps included), or the destination is in the file and a reached vlen or reference is overwritten |
| Background.FieldsExact | src/vol-rest/src/rest_vol_datatype.c:2395-2461 | The loop over members with its running size is exact from any point on |
| Background.NoGapIffSizesAddUp | src/vol-rest/src/rest_vol_datatype.c:2452-2461 | Members that do not overlap cover the whole compound if and only if their sizes add up to its size |
| Background.CompoundGap | src/vol-rest/src/rest_vol_datatype.c:2377-2465 | What the answer for a compound means in terms of bytes |
| Background.ArrayGap | src/vol-rest/src/rest_vol_datatype.c:2466-2490 | An array has an unwritten byte if and only if its element type has |
| Background.ComputeNeedBkg | src/vol-rest/src/rest_vol_datatype.c:2329-2511 | The recursive function with its loop and out-parameters computes the answer that `Background.AnswerIsExact` characterises, and the destination size |
| Background.AnswerIsExact | src/vol-rest/src/rest_vol_datatype.c:2329-2511 | Main result: the whole answer, from the two types alone. It fails if and only if they cannot be analysed; a buffer is needed exactly for compounds, and for vlens and references in the file, through arrays; it is to be filled exactly if a byte is not written or a vlen or reference in the file is replaced |
| Background.FailsExactly | src/vol-rest/src/rest_vol_datatype.c:2329-2511 | The analysis fails if and only if something it looks at has no size, an array stands against a source without elements, or a member the source has by name has no type there; members after the first that calls for the old bytes are not looked at |
| Background.FieldsFailExactly | src/vol-rest/src/rest_vol_datatype.c:2395-2461 | The same for the loop over members, from any point on |
| Background.NeedIsExact | src/vol-rest/src/rest_vol_datatype.c:2329-2511 | Whenever the analysis does not fail, which destinations need a background buffer, and that one to be filled is one that is needed |
| Background.SameTypeIsAnalysable | src/vol-rest/src/rest_vol_datatype.c:2329-2511 | The analysis of a type against itself does not fail, if its parts have sizes and its members different names |
| Background.InitConversion | src/vol-rest/src/rest_vol_datatype.c:2526-2602 | Conversion and background buffers are never the same storage, each holds all elements, a background buffer is there exactly if the destination needs one, it is zeroed, and the caller's buffer is reused exactly where it is large enough; the call fails if and only if the source has no size or the types cannot be analysed |
| ThreadPool.FifoExactlyOnce | src/vol-rest/src/thread_pool.c:41-135 | Main result: in every reachable state the accepted tasks are the dispatched ones followed by the ring contents, in order; each accepted task is finished, in exactly one worker's hands, or in the ring |
| ThreadPool.NoLostWakeup | src/vol-rest/src/thread_pool.c:41-135 | Main result: before shutdown at least min(count, workers) workers are not blocked, after shutdown none is; with tasks pending somebody can always go on |
| ThreadPool.DrainsInEverySchedule | src/vol-rest/src/thread_pool.c:74-140 | Main result: after shutdown, whatever the schedule, the workers take at most `StepsLeft` steps, one can always go on until all have exited, and then every accepted task has been dispatched, provided none was accepted after a worker's exit |
| ThreadPool.ShutdownDrains | src/vol-rest/src/thread_pool.c:8-140 | Main result, from the created pool: after any run that shuts down and takes no task after that, every schedule of the workers ends within `StepsLeft` steps, they can always go on until all have exited, and then every accepted task has been dispatched |
| ThreadPool.RunKeepsNothingAfterExit | src/vol-rest/src/thread_pool.c:41-140 | In a run that takes no task after the shutdown no task is accepted after a worker's exit |
| ThreadPool.StrandedTasks | src/vol-rest/src/thread_pool.c:41-65 | Once all workers have exited, the tasks that never run are exactly those accepted after the last exit |
| ThreadPool.TaskAcceptedTooLate | src/vol-rest/src/thread_pool.c:50-63 | A concrete run: a task added after shutdown is accepted and never dispatched, since `threadpool_add` does not look at `shutdown` |
| ThreadPool.StepKeepsInv | src/vol-rest/src/thread_pool.c:8-140 | Every atomic step keeps the invariant: ring position, FIFO equation, tasks accounted for, awake workers, nobody blocked after shutdown |
| ThreadPool.RunKeepsInv | src/vol-rest/src/thread_pool.c:8-140 | So does every run |
| ThreadPool.AddKeepsInv | src/vol-rest/src/thread_pool.c:41-72 | Adding with a signal that wakes one blocked worker, if there is one |
| ThreadPool.EnterKeepsInv | src/vol-rest/src/thread_pool.c:116-135 | A worker's pass through the lock: take the head, block, or exit |
| ThreadPool.ShutdownKeepsInv | src/vol-rest/src/thread_pool.c:74-86 | Setting the flag and waking everybody |
| ThreadPool.FinishKeepsInv | src/vol-rest/src/thread_pool.c:134 | A task that ends keeps the invariant |
| ThreadPool.WakeKeepsInv | src/vol-rest/src/thread_pool.c:119-121 | A wake-up without a signal keeps it too |
| ThreadPool.TakeKeepsInv | src/vol-rest/src/thread_pool.c:127-134 | Taking the head task moves it from the ring to the worker's hands |
| ThreadPool.InitialInv | src/vol-rest/src/thread_pool.c:8-39 | A created pool satisfies the invariant |
| ThreadPool.WorkerStepDecreases | src/vol-rest/src/thread_pool.c:116-140 | After shutdown each worker step lowers `StepsLeft` and accepts nothing |
| ThreadPool.SlotIsMod | src/vol-rest/src/thread_pool.c:48 | The ring position, at most one turn ahead, is the remainder the source computes |
| ThreadPool.RingPush | src/vol-rest/src/thread_pool.c:56-59 | Storing at `tail` appends to the ring |
| ThreadPool.RingPop | src/vol-rest/src/thread_pool.c:127-130 | Taking at `head` removes the first of the ring |
| ThreadPoolObject.PoolObject.Add | src/vol-rest/src/thread_pool.c:41-72 | The locked section on the ring array is exactly the step of the model; -1 if and only if the ring is full |
| ThreadPoolObject.PoolObject.PutTask | src/vol-rest/src/thread_pool.c:48-63 | The task goes to the slot at `tail`, which moves on, and the count goes up |
| ThreadPoolObject.PoolObject.WorkerSection | src/vol-rest/src/thread_pool.c:116-139 | The worker's locked section is exactly the step of the model |
| ThreadPoolObject.PoolObject.TakeTask | src/vol-rest/src/thread_pool.c:127-130 | The head of the ring goes to the worker |
| ThreadPoolObject.PoolObject.BeginShutdown | src/vol-rest/src/thread_pool.c:81-86 | The locked part of the shutdown is exactly the step of the model |
| ThreadPoolObject.PoolObject.constructor | src/vol-rest/src/thread_pool.c:8-39 | A new pool with its empty ring and idle workers |
| LruSpec.CacheIsStackPrefix | src/vol-rest/src/h5read_cache.c:46-101 | Main result: after any trace of look-ups followed by an insertion on a miss, the cache holds exactly the longest prefix of the recency stack that fits its capacity |
| LruSpec.Inclusion | src/vol-rest/src/h5read_cache.c:46-101 | Main result: at every point of such a trace the smaller cache's list is a prefix of the larger one's |
| LruSpec.LookupReturnsLatest | src/vol-rest/src/h5read_cache.c:46-122 | After any operations a look-up of a key that has an entry returns the data of the latest set of that key, not deleted since; any other look-up returns NULL |
| LruSpec.HitIsExact | src/vol-rest/src/h5read_cache.c:46-101 | Main result: after any trace of look-ups followed by an insertion on a miss, a look-up hits if and only if the key lies in the longest part of the recency stack that fits, and returns what the client stores for it |
| LruSpec.SetThenGet | src/vol-rest/src/h5read_cache.c:46-101 | What has just been set, after any operations, is found again if and only if the key was there before or the entry fits into the cache |
| LruSpec.GetIsExact | src/vol-rest/src/h5read_cache.c:46-59 | A look-up returns the data of the entry and moves it in front of the others, whose order stays; without an entry it returns NULL and changes nothing |
| LruSpec.SetIsExact | src/vol-rest/src/h5read_cache.c:61-101 | Setting a key that is there replaces its entry and evicts nothing; setting another keeps the longest prefix that fits, the new entry first |
| LruSpec.DeleteIsExact | src/vol-rest/src/h5read_cache.c:103-122 | A delete leaves the entries of the other keys, in their order |
| LruSpec.EntriesAreLatest | src/vol-rest/src/h5read_cache.c:46-122 | Keys stay distinct and every entry is the latest set of its key |
| LruSpec.FitIsLongestPrefix | src/vol-rest/src/h5read_cache.c:96-137 | What eviction leaves is a prefix that fits, and no longer prefix fits |
| LruSpec.HitKeepsPrefix | src/vol-rest/src/h5read_cache.c:31-59 | A hit moves the same entry to the front of cache and stack |
| LruSpec.MissKeepsPrefix | src/vol-rest/src/h5read_cache.c:75-101 | A miss inserts in front and evicts exactly what falls out of the longest fitting prefix |
| LruSpec.NothingMoreFits | src/vol-rest/src/h5read_cache.c:96-98 | After a miss no further entry of the stack would have fitted |
| LruSpec.FitOfLarger | src/vol-rest/src/h5read_cache.c:124-137 | A larger capacity keeps at least as much |
| LruSpec.GetMembers | src/vol-rest/src/h5read_cache.c:46-59 | A look-up loses and adds no entry |
| LruSpec.SetMembers | src/vol-rest/src/h5read_cache.c:61-101 | A set leaves the new entry and old entries of other keys only |
| LruSpec.DeleteMembers | src/vol-rest/src/h5read_cache.c:103-122 | A delete removes exactly the entries of its key |
| LruSpec.ToFrontKeepsDistinct | src/vol-rest/src/h5read_cache.c:31-44 | Moving to the front keeps keys distinct |
| LruCache.Cache.Get | src/vol-rest/src/h5read_cache.c:46-59 | On the linked list: returns the data of the node of the key, NULL only if there is none, and moves the node to the front; all links stay consistent |
| LruCache.Cache.Set | src/vol-rest/src/h5read_cache.c:61-101 | On the linked list: updates in place without evicting, or inserts in front and evicts to the longest fitting prefix |
| LruCache.Cache.Delete | src/vol-rest/src/h5read_cache.c:103-122 | Unlinks the node of the key, size and total size follow |
| LruCache.Cache.Evict | src/vol-rest/src/h5read_cache.c:124-137 | Removes the tail, counts down the sizes |
| LruCache.Cache.CutTail | src/vol-rest/src/h5read_cache.c:124-137 | The list ends at the node before the old tail |
| LruCache.Cache.MoveToHead | src/vol-rest/src/h5read_cache.c:31-44 | Relinks a node to the front, from the head, the middle or the tail |
| LruCache.Cache.Unlink | src/vol-rest/src/h5read_cache.c:108-111 | Takes a node out of the list and joins its neighbours |
| LruCache.Cache.LinkFront | src/vol-rest/src/h5read_cache.c:86-91 | Puts a node in front of the list |
| LruCache.Cache.FindItem | src/vol-rest/src/h5read_cache.c:48-56 | Finds the first node of a key by walking from the head |
| LruCache.Cache.Insert | src/vol-rest/src/h5read_cache.c:77-98 | New node in front, then the eviction loop, which terminates |
| LruCache.Cache.Store | src/vol-rest/src/h5read_cache.c:65-73 | Overwrites data and size of a node in place and moves it to the front |
| LruCache.Cache.Update | src/vol-rest/src/h5read_cache.c:67-70 | Data, size and the total size follow, the links do not change |
| LruCache.Cache.UnlinkAndLink | src/vol-rest/src/h5read_cache.c:31-44 | The relinking when the node is not the head |
| LruCache.Cache.constructor | src/vol-rest/src/h5read_cache.c:3-15 | An empty cache |
| DomainRefs.CallKeepsBalance | src/vol-rest/src/rest_vol_file.c:891-917 | Main result: a legal call keeps every count equal to the number of holders and touches no freed or unwritten memory if and only if it is not one of: an open or group information whose lookup fails after the domain swap; group information through a file handle that ends in another domain; group create under a group that has no path; datatype commit of a type that cannot be copied |
| DomainRefs.RunStaysBalanced | src/vol-rest/src/rest_vol.c:2608-2648 | The same over whole runs: balanced throughout if and only if no call of the run breaks the count |
| DomainRefs.DomainsLiveExactlyAsLongAsHeld | src/vol-rest/src/rest_vol_file.c:870-925 | Main result: after any run from the empty heap without a breaking call a domain is in memory exactly as long as its file handle is open or an object points to it, no object points to freed memory, and when all is closed nothing is left |
| DomainRefs.CallDoesItsJob | src/vol-rest/src/rest_vol_group.c:388-407 | Main result: apart from the breaking calls, a create or open that succeeds yields an object in the parent's domain or in the one found and nothing else does, a close takes exactly its object away, a file is open until it is closed even while objects keep its domain, group information moves exactly the group asked through, and all other handles stay |
| DomainRefs.HandlesDetermineTheHeap | src/vol-rest/src/rest_vol_file.c:870-925 | The application's handles determine the rest: two balanced heaps with the same objects and open files have the same domains in memory with the same counts |
| DomainRefs.OpenDoesItsJob | src/vol-rest/src/rest_vol_group.c:372-407 | Group and datatype open: for every outcome of the lookup, which object there is afterwards and in which domain |
| DomainRefs.DomainGoneAstray | src/vol-rest/src/rest_vol.c:2608-2651 | What the failure after the swap leaves: one reference too few on the parent's domain (or a freed domain that is still pointed to) and a new domain nobody holds |
| DomainRefs.FailedExternalOpenFreesTheFile | src/vol-rest/src/rest_vol_group.c:402-407 | A concrete run in which a failed open through an external link frees the file while its handle is open |
| DomainRefs.InfoThroughFileStrandsObjects | src/vol-rest/src/rest_vol_group.c:561-570 | A concrete run in which asking for group information through a file handle leaves an attribute pointing to freed memory |
| DomainRefs.GroupUnderAnonymousGroup | src/vol-rest/src/rest_vol_group.c:86-98 | A concrete run: a group created anonymously has no path, and creating a group in it cleans up an object whose type and domain have not been set; opening one in it is refused without harm |
| DomainRefs.OpenFileKeeps | src/vol-rest/src/rest_vol_file.c:364-375 | A file starts with one reference, its own handle |
| DomainRefs.CloseFileKeeps | src/vol-rest/src/rest_vol_file.c:891-917 | Closing a handle keeps the domain while objects point to it |
| DomainRefs.AddKeeps | src/vol-rest/src/rest_vol_group.c:388-389 | A new object adds one reference to its parent's domain |
| DomainRefs.AddExternalKeeps | src/vol-rest/src/rest_vol.c:2608-2648 | A successful open in another domain leaves the old domain as it was and gives the new one its single reference |
| DomainRefs.CloseKeeps | src/vol-rest/src/rest_vol_group.c:722-728 | Closing an object frees its domain exactly when nothing else holds it |
| DomainRefs.MoveKeeps | src/vol-rest/src/rest_vol_group.c:561-570 | Group information through a group moves that group to the other domain, count and all |
| DomainRefs.NameKeeps | src/vol-rest/src/rest_vol.c:4120-4130 | Noting that a new group has no path leaves the counts alone |
| DomainRefs.OpenKeepsBalance | src/vol-rest/src/rest_vol_group.c:372-407 | Group and datatype open, for every outcome of the lookup |
| DomainRefs.InfoKeepsBalance | src/vol-rest/src/rest_vol_group.c:561-570 | Group information by name, for every outcome of the lookup |
| DomainRefsObject.Connector.FileClose | src/vol-rest/src/rest_vol_file.c:891-917 | Counts down and frees at zero |
| DomainRefsObject.Connector.FileOpen | src/vol-rest/src/rest_vol_file.c:364-478 | A new file, closed again if anything fails |
| DomainRefsObject.Connector.HandleClose | src/vol-rest/src/rest_vol_file.c:870-925 | The application closes its file handle |
| DomainRefsObject.Connector.ObjectCreate | src/vol-rest/src/rest_vol_attr.c:119-120 | Create and attribute open: count up first, close the half-made object on failure, a group without a name gets no path |
| DomainRefsObject.Connector.Lookup | src/vol-rest/src/rest_vol.c:2608-2651 | The lookup callback: new domain, release of the old one, and success or failure after it |
| DomainRefsObject.Connector.ObjectOpen | src/vol-rest/src/rest_vol_group.c:388-407 | Group and datatype open step by step: afterwards there is an object if and only if the lookup found one, the rest went well and the parent has a path, and it points to the parent's domain or the one found; group open under a group without a path changes nothing |
| DomainRefsObject.Connector.FinishOpen | src/vol-rest/src/rest_vol_group.c:402-407 | What is done with the lookup's outcome: an object with the domain found if and only if lookup and the rest succeeded, otherwise the close of the half-made one |
| DomainRefsObject.Connector.ObjectClose | src/vol-rest/src/rest_vol_datatype.c:581-586 | Close releases the domain the object points to |
| DomainRefsObject.Connector.GroupInfo | src/vol-rest/src/rest_vol_group.c:561-570 | Group information by name, without a reference of its own |
| DomainRefsObject.UndoSwapped | src/vol-rest/src/rest_vol.c:2644-2647 | Closing the half-made object after the swap undoes the call if and only if its domain pointer had been updated |
| Base64.Base64Encode | src/vol-rest/src/rest_vol.c:3248-3296 | The encoding loop and the padding loop write exactly the encoding of section 4 of RFC 4648, for every input |
| Base64.DecodeEncode | src/vol-rest/src/rest_vol.c:3248-3296 | A reference decoder restores every input from it, in either alphabet |
| Base64.EncodeLength | src/vol-rest/src/rest_vol.c:3281-3289 | The length is four characters for every started group of three bytes |
| Base64.CharIsInTable | src/vol-rest/src/rest_vol.c:3221 | The characters are those of the two tables of RFC 4648, in order |
| Base64.TestVectors | src/vol-rest/src/rest_vol.c:3248-3296 | The seven vectors of section 10 of RFC 4648 |
| Base64.Base64Decode | src/vol-rest/src/rest_vol.c:3344-3432 | The decoding loop computes the specified reading and ends it with a zero byte |
| Base64.GroupExactly | src/vol-rest/src/rest_vol.c:3368-3394 | For any four characters: without padding at the end they are read as the three bytes they encode, with padding as one byte, and otherwise not at all |
| Base64.DecodedAppend | src/vol-rest/src/rest_vol.c:3344-3432 | Any text is read group by group, and is unreadable if and only if one of its groups is |
| Base64.DecodedUrlSafe | src/vol-rest/src/rest_vol.c:3344-3432 | In the decoder's own alphabet it restores the input, except that the last byte is missing when one padding character ends the text, because the two-character case is tested first |
| Base64.UrlSafeComesBack | src/vol-rest/src/rest_vol.c:3356-3394 | Main result: text in the decoder's alphabet comes back if and only if its length leaves no single padding character |
| Base64.StandardComesBack | src/vol-rest/src/rest_vol.c:3319-3394 | Main result: the connector's own encoding comes back if and only if, besides, it holds neither `+` nor `/` |
| Base64.ForeignCharacters | src/vol-rest/src/rest_vol.c:3319 | Every encoding with `+` or `/` in it is unreadable |
| Base64.SameWithoutTheLastTwo | src/vol-rest/src/rest_vol.c:3319 | Without them the two alphabets write the same text |
| Retry.TransfersAreNeverLostInside | src/vol-rest/src/rest_vol.c:3724-3918 | Main result: in every run no success callback runs twice; unless the loop has given up, every transfer is in exactly one of: under way, reported but unread, waiting, closed, answered 201; at most 15 denials; less than 9 seconds and 15 nanoseconds of back-off in all |
| Retry.SuccessMeans | src/vol-rest/src/rest_vol.c:3764-3918 | Main result: the loop's success means that every transfer has succeeded if and only if it is not its first round, no transfer was waiting or answered 201, and all reports of the last round are 200; a transfer denied when nothing else is under way is not retried |
| Retry.SingleTransferIsNeverRetried | src/vol-rest/src/rest_vol.c:3764-3918 | With a single transfer the first 503 ends the loop without a retry and without the callback |
| Retry.DeniedTransferReportsSuccess | src/vol-rest/src/rest_vol.c:3780-3824 | A concrete run: one transfer, one 503, and the loop reports success |
| Retry.BackoffEnds | src/vol-rest/src/rest_vol.c:33-35 | Five denials never end the loop, sixteen always do; the accepted waiting time is bounded |
| Retry.Limits | src/vol-rest/src/rest_vol.c:33-35 | Both numbers are the best possible: the longest back-offs pass the limit at the sixth denial, the shortest not before the sixteenth |
| Retry.BackoffBounds | src/vol-rest/src/rest_vol.c:3808-3822 | Whatever the random numbers, a back-off lies between the shortest and the longest for its number of denials |
| Retry.NextBackoff | src/vol-rest/src/rest_vol.c:3808-3818 | Between one and a half times and three times the last back-off, or between the first and twice the first |
| Retry.RoundKeeps | src/vol-rest/src/rest_vol.c:3764-3918 | One round keeps every transfer in exactly one place |
| Retry.PerformKeeps | src/vol-rest/src/rest_vol.c:3764-3766 | cURL finishing transfers moves them from under way to reported |
| Retry.ReadKeeps | src/vol-rest/src/rest_vol.c:3768-3891 | Acting on a report moves the transfer to waiting, closed or answered, or ends the loop |
| Retry.ReadAllClean | src/vol-rest/src/rest_vol.c:3768-3891 | Reading all reports leaves a waiting transfer exactly if there was one before or a report was a denial |
| Retry.AddDueKeeps | src/vol-rest/src/rest_vol.c:3902-3912 | Adding the due transfers again moves them from waiting to under way |
| RetryTiming.HandedBackExactlyWhenDue | src/vol-rest/src/rest_vol.c:3902-3912 | Main result: in a round that does not fail, a transfer that waits once the reports are read is handed to cURL again if and only if its back-off is over by the clock of the round; otherwise it goes on waiting, unchanged |
| RetryTiming.NotBeforeItsTime | src/vol-rest/src/rest_vol.c:3902-3912 | Over any run: a transfer denied at clock t with back-off d stays out of cURL in every round before t + d |
| RetryTiming.RetriedAtItsTime | src/vol-rest/src/rest_vol.c:3902-3912 | and it is handed back in the first round that reaches t + d |
| RetryTiming.ReportsAreActedOn | src/vol-rest/src/rest_vol.c:3768-3891 | Reading the reports gives up if and only if one of them ends the loop (another response code, a callback that fails, a back-off past the limit); otherwise every transfer becomes exactly what its report says and all others stay |
| RetryTiming.RoundReads | src/vol-rest/src/rest_vol.c:3764-3900 | When a round reads its reports at all, when it fails, and that it is the last if and only if nothing is under way before the due transfers are added |
| RetryTiming.EveryBackoff | src/vol-rest/src/rest_vol.c:3808-3818 | Every back-off between the shortest and the longest comes from some random number |
| RetryLoop.Loop.OneRound | src/vol-rest/src/rest_vol.c:3764-3918 | One turn of the loop on the arrays is exactly the specified round |
| RetryLoop.Loop.ReadOne | src/vol-rest/src/rest_vol.c:3769-3890 | One report, acted on in place |
| RetryLoop.Loop.AddDueHandles | src/vol-rest/src/rest_vol.c:3902-3912 | The loop over all transfers hands those to cURL again whose back-off is over by the clock, and leaves exactly the others waiting |
| RetryLoop.Loop.constructor | src/vol-rest/src/rest_vol.c:3724-3735 | Nothing denied, everything under way |
| Groups.Server.GroupCreate | src/vol-rest/src/rest_vol_group.c:128-182 | Main result: for a path without empty names the call succeeds if and only if the group is not there and, unless intermediate groups may be made, the one it goes in is; it then has created exactly the missing groups on the way and the target, outermost first; on failure nothing is created; it terminates for every path |
| Groups.Server.FindOrMake | src/vol-rest/src/rest_vol_group.c:139-181 | The group that holds the new one is found, or made by the recursive call on the shortened path |
| Groups.MissingIsExact | src/vol-rest/src/rest_vol_group.c:162-176 | The list of created groups holds exactly the places on the way that were not there |
| Groups.MissingDescends | src/vol-rest/src/rest_vol_group.c:162-176 | It lists them from the top, none twice |
| Groups.PathResolves | src/vol-rest/src/rest_vol.c:1593-1626 | Base name and directory name take a path apart: the path means the base name inside what the directory means |
| Groups.DirnameResolves | src/vol-rest/src/rest_vol_group.c:162-165 | The directory name with its trailing slash removed is what the recursion continues with, and means the same group |
| Groups.LastSlash | src/vol-rest/src/rest_vol.c:1593-1597 | The last slash, or none |
| Groups.PutIntoNew | src/vol-rest/src/rest_vol_group.c:167-176 | Creating the target after its missing parents completes the outcome |
| Groups.Server.Post | src/vol-rest/src/rest_vol_group.c:192-262 | A request to link a new group under a name: refused if the link exists, otherwise one group more |
| Groups.PutInto | src/vol-rest/src/rest_vol_group.c:192-262 | Creating the target in a group that is there |
| PipeTransfer.TransferArrives | src/H5Plugin_Xrd/H5PluginHandle.cc:820-870 | Main result: for every interleaving and every way writes and reads are split over a bounded pipe, bytes written are bytes read followed by the pipe's contents, no run is longer than twice the data, and a run that cannot go on is over with the parent holding exactly the child's data |
| PipeTransfer.StepKeeps | src/H5Plugin_Xrd/H5PluginHandle.cc:812-870 | Every step keeps the conservation of bytes and the announced size |
| PipeTransfer.SomebodyCanMove | src/H5Plugin_Xrd/H5PluginHandle.cc:820-870 | Child and parent are never both stuck before the end |
| PipeTransfer.RunKeeps | src/H5Plugin_Xrd/H5PluginHandle.cc:812-870 | So does every run, and each step uses up work |
| PipeTransfer.GotAll | src/H5Plugin_Xrd/H5PluginHandle.cc:859-870 | A parent with as many bytes as announced has the child's data |
| PipeTransfer.SizeComesBack | src/H5Plugin_Xrd/H5PluginHandle.cc:812-846 | The eight bytes of the size are read back as the size |
| PipeTransfer.SendChunks | src/H5Plugin_Xrd/H5PluginHandle.cc:937-950 | The chunks concatenate to the data, all but the last are full, and there is an empty chunk before the final one if and only if the size is a multiple of the chunk size |
| Buffers.UploadsOnceInOrder | src/vol-rest/src/rest_vol.c:1418-1441 | For any sequence of room the upload body is handed out once and in order, as much as there was room for |
| Buffers.PiecesFit | src/vol-rest/src/rest_vol.c:1427-1437 | No piece is longer than the room its call offers, all are as long while the body lasts, and together they are the first bytes of what was left, as many as there was room for |
| Buffers.EmptyPieceEndsUpload | src/vol-rest/src/rest_vol.c:1427-1430 | Nothing is handed out, given room, if and only if everything has been |
| Buffers.Upload.ReadCallback | src/vol-rest/src/rest_vol.c:1418-1441 | Hands out the next piece, no longer than the room offered and as long unless the body ends, and moves on by its length |
| Buffers.ResponseIsWhole | src/vol-rest/src/rest_vol.c:1458-1496 | However the response is cut into pieces, the buffer holds them one after the other, and its size is the starting size or the first doubling that holds all bytes and the NUL |
| Buffers.ResponseBuffer.Grow | src/vol-rest/src/rest_vol.c:1473-1486 | The loop that doubles the buffer, contents kept |
| Buffers.Fitted | src/vol-rest/src/rest_vol.c:1473-1486 | The doubling loop ends; if it grew, the size is less than twice what is needed |
| Buffers.FittedTwice | src/vol-rest/src/rest_vol.c:1473-1486 | Growing twice is growing once to the larger need |
| Buffers.FittedIsDoubled | src/vol-rest/src/rest_vol.c:1483 | The size is the starting size doubled, and one doubling less would not do |
| Buffers.ResponseBuffer.WriteCallback | src/vol-rest/src/rest_vol.c:1458-1496 | The contents are the old contents and the new bytes, a NUL follows, and the buffer has grown no more than needed |
| Buffers.ResponseBuffer.constructor | src/vol-rest/src/rest_vol.c:1458-1470 | An empty response |

## Left out

Deliberately weaker than the source, or outside the model:

- JsmnParser.Parser.ParseTokens: `pos`, `toknext` and token fields are unbounded, so texts and arrays beyond the range of `int` and `unsigned int` are not covered; resuming after `JSMN_ERROR_PART` with a longer text is not modelled; the variants with `JSMN_STRICT` or `JSMN_PARENT_LINKS` are not compiled and not modelled.
- JsonReader.ReadRender: the tree stands for what yajl builds; yajl's decoding of escapes, its limits and its error texts are not modelled.
- DatatypeRoundTrip.PrintParse: committed datatypes, names that need a JSON escape, dimensions and lengths that exceed a `long long`, enum bases wider than eight bytes, VAX byte order, integers and floats of non-standard precision or layout (whose names the printer takes from size, sign and order alone) and references other than to objects and regions are not covered; what unwritten memory comes to is one text or failure for each type; the parser is stated on values (slices of the text), so its temporary buffers and pointers are not modelled, and a nested text is converted only if it is shorter than the one it was cut from, which always holds for printed types.
- DatatypeAccepted.AcceptedIsCanonical: a dimension or fixed length that is not an integer is refused, where the source goes on with a number that has not been set; that HDF5 refuses strings of length 0, dimensions of 0, empty names and repeated names or values is taken as given.
- DatatypeReader.MemberText: the pointer that continues the search stays inside the text; the source may step one past the terminating NUL when a section ends the text.
- DatatypePrinter.ConvertDatatypeToJson: buffer growth and cursor arithmetic are replaced by concatenation; failures of HDF5 calls other than on unsupported classes are not modelled.
- Background.NeedBkgIsExact: on compounds whose members do not overlap, as HDF5 keeps them; failures of the HDF5 library other than missing sizes, members and super types are not modelled.
- Background.InitConversion: for at least one element; allocation failure is not modelled.
- ThreadPool.FifoExactlyOnce: the queue size is above 0; `started`, pthread error returns and allocation failure are not modelled, a task's function is only its start and its end, and only workers wait on the condition variable.
- ThreadPool.DrainsInEverySchedule: weaker than a drain for all runs, which is false: it needs that no task is accepted after a worker's exit (`ThreadPool.ShutdownDrains` gives that from creation when no task is added after the shutdown; `ThreadPool.StrandedTasks` says what happens otherwise).
- LruCache.Cache.Set: sizes and capacity are unbounded, where the source compares an `int` capacity with a `size_t`; keys have any length, where the source copies a key of more than 255 characters past the end of its field; freeing is not modelled, so neither is the data leaked by an update nor the data freed when the entry just inserted is larger than the capacity; `max_size` and the lock are unused or outside.
- LruSpec.Inclusion: for traces in which a miss is followed by a set with a fixed size per key and data other than NULL; a set that updates an entry in place does not evict.
- DomainRefs.CallKeepsBalance: files and objects are entries of two maps keyed by address, so memory is freed by removing an entry; property lists and type-info tables are not modelled, and of paths only whether a group has one; calls refused for their arguments before an object is allocated, and allocation failures, are left out; lookups report their outcome as a parameter; attribute iteration, which copies objects for its callback, is not modelled.
- Base64.Base64Decode: texts whose length is no multiple of four (the source then reads past the last group) and NUL characters inside the text are excluded; a character outside the alphabet gives no result, where the source computes with the null pointer `strchr` returns; buffer growth and the encoder's terminating NUL are not modelled.
- Retry.NextBackoff: the floating-point product is any whole number from the base to twice the base; decompression, which replaces a buffer before the callback, and failures of cURL calls are not modelled.
- Retry.TransfersAreNeverLostInside: nothing is said about how many rounds the loop takes, since that is up to the network.
- Groups.Server.GroupCreate: the server is a set of places, lookups of paths ignore empty names, and leading blanks or dots, soft links and refusals by the server other than for an existing link are not modelled.
- PipeTransfer.TransferArrives: no errors on the pipe and no child that exits early; the eight bytes of the size are written and read at once.
- PipeTransfer.SendChunks: without compression, for any chunk size.
- Buffers.ResponseBuffer.WriteCallback: allocation failure and pointer overflow are not modelled.

Parts of the repository without a model here:

- cURL, yajl, HDF5, zstd, zlib, lz4 and XRootD themselves, and fork, shared memory and file calls.
- Datasets, links, objects and hash tables (`rest_vol_dataset.c`, `rest_vol_link.c`, `rest_vol_object.c`, `util/`).
- `RV_need_tconv` and `RV_detect_vl_vlstr_ref`: one recursion each that restates its own definition.
- The waiter for `tasks_completed` and the multi-threaded copy of the transfer loop, whose waiting side is in the dataset source.
- Authentication, configuration, environment reading, URL and header assembly, HTTP status tables.
- The plugin's token walks and text converters (`Xrd_create_dataset`, `Xrd_convert_*_to_json`) and its whole-dataset answer, which passes a pointer between processes.
- Attribute reading, writing, iteration and renaming, debug tables, examples and scripts.
