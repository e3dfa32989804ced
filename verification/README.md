# Verified models

Dafny models of the parts of the program whose correctness is not obvious from reading, with proofs.
`dafny verify dfyconfig.toml` checks all of them.

**The JSON library** (`json_lib`). The value tree with its ordered map (`JsonValue`), its total order
(`JsonOrder`) and what that order means (`JsonRanking`), and its arrays, which may have missing slots
(`JsonArray`). The reader as a class with cursor, node stack, error list and depth counter (`JsonReader`),
proved equal to functions for its tokens (`JsonLexer`) and its grammar (`JsonParser`). What those functions
accept is given independently, byte by byte (`JsonGrammar`): the texts of RFC 8259 and exactly those beyond
them that the reader takes as well. Tokens are the lexical elements of that grammar (`JsonLexemes`), every
text is read as the tree it writes down (`JsonReading`), and nothing else is accepted (`JsonSoundness`).
Decimal integers in 64 bits (`JsonNumber`), string literals and UTF-8 (`JsonString`). FastWriter
(`JsonFastWriter`) and the three styled writers, one class with a style (`JsonStyledWriter`), whose lines and
indentation are described from the tree (`JsonStyledText`) and read off the output bytes
(`JsonStyledLines`). What is written spells the tokens of its tree (`JsonTokens`) and so is a text of what the
tree is read back as (`JsonPrintable`, `JsonRoundTrip`, `JsonStyledRoundTrip`); which trees survive when nulls
are written as nothing is in `JsonDroppedNulls`. Reading is local to the bytes a value occupies
(`JsonWindow`), from which the properties of the recorded offsets follow (`JsonOffsets`); `JsonParsedTree`
describes the trees the reader builds.

**The AMF0 codec** (`librtmp/amf.cpp`). Trees and their encoding, in full and in too little room
(`Amf`), the encoders on a bounded buffer (`AmfEncoder`), the decoder (`AmfDecoder`), exactly which trees
survive the round trip (`AmfRoundTrip`), and the format byte by byte (`AmfFormat`).

**Hole punching**. The manager's tables as a state machine and as a class (`PunchSteps`) with what every
run keeps and what it needs from its environment (`PunchSafety`), and how the role of a peer reaches its
control sockets (`PunchRoles`); the rendezvous of two peers over
relayed channels, any action of which may fail (`Rendezvous`); and the analysis of port differences
(`PortDelta`).

**Smaller parts**. The batch allocator (`BatchAllocator`) and the log queue with its byte counter
(`LogQueue`).

Some properties one would expect do not hold of the code. The model keeps the code as it is and states
when they hold:

- The reader accepts more than JSON: a text may be followed by anything; digits may be missing after a minus,
  a dot or an exponent letter, so that a lone minus is the number 0; a string may hold control characters, and
  a high surrogate may be followed by any escape; after a comment any token but a closing brace passes for the
  comma between two members; a comma may follow a member with the empty name. It does not accept a comment in
  an empty array or between a name and its colon. The grammar says exactly which texts are accepted.
- A double printed without a fraction or an exponent is read back as an integer.
- Equality of values is reflexive exactly on trees without NaN, while `compare` always reports 0 for a
  tree against itself.
- Shrinking a sparse array with `resize` gives the size asked for exactly when the slot that would be
  last is present; the assertion after the loop fails otherwise. Removing the last slot of a sparse
  array lowers the size by one only when the slot before it is present.
- Two of the three styled writers cut member names at a zero byte. Their output without white space is
  FastWriter's text, and is read back as the same tree, exactly when there is nothing to cut.
- A builder whose null symbol is empty writes nothing for a null, so that an array of one null reads back
  as an empty array. A tree survives such a builder exactly when it holds no null and no missing slot.
- AMF properties that are null or unnamed are written without a name. A tree is rebuilt for every
  continuation exactly when it has none of those and its lengths fit sixteen bits. An unnamed number
  beginning with the bytes 00 09 ends the decoding of a message body.
- A punching request whose description carries another id than the peer's can leave a peer socket filed
  under an id nobody waits for. Every peer socket keeps a description exactly as long as no announcement
  meets a description with the id of a peer that has none.
- A control socket left over from one connection keeps its role when the peer becomes pending in the other
  role. Roles agree all the way exactly when no peer becomes pending while such a socket is there.
- A second announcement for a peer whose connection is under way makes a later table lookup fail: with
  fresh sockets a run is safe exactly when every announcement in it is harmless. A punching request and an
  announcement commute exactly when the peer is already pending; a request that
  comes after the announcement leaves it waiting until another announcement.
- The histogram overlooks differences after the first four. Its choice is right exactly when none of
  them is more frequent than all of those four; the only caller passes four samples, which give at most
  three differences.
- An allocator page whose size is no multiple of the block size never looks full. All blocks lie in the
  memory reserved exactly when blocks divide a page or no more blocks were carved out of a page than it
  counts objects. The page allocator for array values, with blocks of 8 and pages of 255, is of this kind.
- A log record larger than a chunk stays at the front of the queue for ever: enough successful sends empty
  the queue exactly when every record fits. A chunk whose first send fails is lost, and no other. The final
  drain does not repeat short sends, so everything arrives exactly when every record fits and each send
  takes its whole chunk.

## Model

| member | source | states |
|---|---|---|
| JsonNumber.UIntToString | json_lib/json_tool.h:49-69 | the digits written backwards are exactly the decimal text of the value, followed by the terminating zero, and all writes stay inside the 25-byte buffer with four bytes to spare |
| JsonNumber.DecTextFits | json_lib/json_tool.h:49-53 | no 64-bit value needs more than 20 digits, so the buffer size is enough |
| JsonNumber.ValueToStringSigned | json_lib/json_writer.cpp:67-78 | prints the decimal text of every signed 64-bit value, the most negative one included, by wrapping negation |
| JsonNumber.ValueToStringUnsigned | json_lib/json_writer.cpp:80-86 | prints the decimal text of every unsigned 64-bit value |
| JsonNumber.DecodeNumber | json_lib/json_reader.cpp:548-586 | the digit loop, with its threshold test and without ever leaving 64 bits, yields what exact arithmetic prescribes on every token text |
| JsonNumber.TooLarge | json_lib/json_reader.cpp:566-577 | wherever the loop gives up, the whole digit string really exceeds the maximum |
| JsonNumber.NegationWraps | json_lib/json_reader.cpp:579-580 | negating any accepted magnitude up to 2^63 through the signed conversion is exact |
| JsonNumber.DecodeExact | json_lib/json_reader.cpp:548-586 | for an optional minus and any non-empty digit string, leading zeros and any length included: the exact integer with its tag if and only if it fits 64 bits, otherwise a double |
| JsonNumber.DecodeInvertsText | json_lib/json_reader.cpp:579-584 | decoding the printed text of any signed or unsigned 64-bit value gives it back, tagged signed up to 2^31-1 and unsigned above |
| JsonString.ValueToQuotedStringN | json_lib/json_writer.cpp:202-277 | the C-string fast path and the escape loop produce the same quoted text for every byte string, zero bytes included |
| JsonString.EscapedForms | json_lib/json_writer.cpp:213-262 | byte by byte: seven two-character escapes, four digits in upper case for other control characters, everything else as it is |
| JsonString.ContainsEscapable | json_lib/json_writer.cpp:57-65 | the two scans together find a byte exactly when one needs escaping |
| JsonString.ValueToQuotedString | json_lib/json_writer.cpp:139-200 | quotes exactly the part before the first zero byte |
| JsonString.DecodeUnicodeEscapeSequence | json_lib/json_reader.cpp:725-753 | four hexadecimal digits of either case are folded into their number; too few digits or another character give the error at the place the source reports |
| JsonString.DecodeUnicodeCodePoint | json_lib/json_reader.cpp:695-723 | surrogate pairs are combined and every malformed second half reported |
| JsonString.DecodeString | json_lib/json_reader.cpp:645-693 | the decoding loop computes the decoded text or the first error of any literal |
| JsonString.LiteralDecodes | json_lib/json_reader.cpp:645-693 | a literal that mixes bytes as they are, the eight two-character escapes of section 7 of RFC 8259 and four-digit escapes with surrogate pairs decodes to what its pieces stand for, and its token ends at the quote behind them |
| JsonString.DecodedLiteral | json_lib/json_reader.cpp:645-693 | whatever the decoder accepts consists of such pieces for the string it returns |
| JsonString.LiteralRefused | json_lib/json_reader.cpp:645-753 | what it refuses consists of pieces before a broken escape, and the message and place of the error are those of what is wrong with that escape |
| JsonString.EscapedTextReadsBack | json_lib/json_reader.cpp:432-442 | wherever the quoted form of any byte string stands in a document, the scanner stops right after its closing quote and the decoder returns the string |
| JsonString.QuotedReadsBack | json_lib/json_reader.cpp:645-693 | every byte string is recovered from its quoted form |
| JsonString.Utf8Correct | json_lib/json_tool.h:18-44 | the encoder's output reads back by the syntax of section 4 of RFC 3629 as the same code point for Unicode scalar values, and is malformed for surrogates |
| JsonString.SurrogateBytes | json_lib/json_tool.h:18-44 | an unpaired surrogate is written by the pattern of three bytes, which spell its number |
| JsonString.ScalarEscapesDecode | json_lib/json_reader.cpp:695-753 | any sequence of Unicode scalars written as escapes or surrogate pairs (section 7 of RFC 8259), each digit in either case, decodes to its UTF-8 form |
| JsonValue.BytesTrichotomy | json_lib/json_value.cpp:272-294 | of two member names exactly one is smaller or they are equal |
| JsonValue.BytesTransitive | json_lib/json_value.cpp:272-283 | the length-aware byte order of names is transitive |
| JsonValue.FindAfterSet | json_lib/json_value.cpp:919-933 | after assigning under a key, looking up any key gives the new value there and the old answer elsewhere |
| JsonValue.FindAfterErase | json_lib/json_value.cpp:913-915 | after erasing a key, it is missing and every other lookup is unchanged |
| JsonValue.SetSorted | json_lib/json_value.cpp:919-933 | insertion keeps the map ordered and its keys of one kind |
| JsonOrder.Trichotomy | json_lib/json_value.cpp:501-595 | of two NaN-free trees exactly one is smaller or they are equal, through the size-first map comparison and the order of keys |
| JsonOrder.Transitive | json_lib/json_value.cpp:501-545 | the order of NaN-free trees is transitive |
| JsonOrder.Irreflexive | json_lib/json_value.cpp:501-545 | no tree is below itself, NaN or not |
| JsonOrder.EqualMeansSameTree | json_lib/json_value.cpp:553-595 | equality holds exactly between NaN-free trees that agree up to offsets |
| JsonOrder.CompareAgrees | json_lib/json_value.cpp:493-499 | compare returns 0 exactly on equal NaN-free trees and changes sign when its arguments swap |
| JsonOrder.ReflexiveIffNaNFree | json_lib/json_value.cpp:493-595 | a tree equals itself exactly when it holds no NaN, although compare always reports 0 for it |
| JsonRanking.LessMeans | json_lib/json_value.cpp:501-545 | on NaN-free trees the order is: types as enumerated, numbers by size, false before true, a string before another of which it is a proper beginning or that has the larger byte at the first difference, a container before one with more entries or one whose first differing entry is larger by key or else by value |
| JsonRanking.CompareMeans | json_lib/json_value.cpp:493-499 | compare is -1, 1 or 0 as the first tree comes before the second in that sense, behind it, or is the same |
| JsonArray.Node.Subscript | json_lib/json_value.cpp:919-933 | creates a missing slot as null and touches no other slot |
| JsonArray.Node.Assign | json_lib/json_value.cpp:919-933 | writing inside or at the end of an array refines the update or extension of the sequence read, and density survives exactly up to the first free index |
| JsonArray.Node.Append | json_lib/json_value.cpp:1067 | append refines appending to the sequence read, dense or sparse |
| JsonArray.Node.Resize | json_lib/json_value.cpp:902-917 | reads as padding with nulls or cutting off; the new size is the one asked for exactly when the array grows, is emptied, or still has the slot that would be last |
| JsonArray.Node.RemoveIndex | json_lib/json_value.cpp:1121-1142 | fails exactly on a missing slot, without change; otherwise every later index reads one lower; on a dense array this removes one element from the sequence |
| JsonArray.Node.ShiftLeft | json_lib/json_value.cpp:1133-1137 | the shifting loop gives every slot what the next one reads |
| JsonArray.SizeIs | json_lib/json_value.cpp:865-871 | the size is the one number with the highest present slot just below it |
| JsonArray.Dropped | json_lib/json_value.cpp:1121-1142 | what shifting and erasing the last slot means for reads, size and density |
| JsonParsedTree.DocumentSound | json_lib/json_reader.cpp:500-536 | every tree a successful parse returns is well formed and has dense arrays only |
| JsonParsedTree.DenseFromIsDense | json_lib/json_reader.cpp:510-513 | keys counted up from 0 leave no slot missing |
| JsonReader.Reader.SkipSpaces | json_lib/json_reader.cpp:310-318 | moves the cursor past exactly the white space |
| JsonReader.Reader.Match | json_lib/json_reader.cpp:320-329 | the backward comparison succeeds exactly when the text stands at the cursor, which moves only then |
| JsonReader.Reader.ReadComment | json_lib/json_reader.cpp:331-352 | both comment forms end where the lexer functions say |
| JsonReader.Reader.ReadNumber | json_lib/json_reader.cpp:410-430 | the pointer juggling ends after digits, fraction and exponent |
| JsonReader.Reader.ReadString | json_lib/json_reader.cpp:432-442 | ends at the first quote that no backslash hides, or fails at the end |
| JsonReader.Reader.ReadToken | json_lib/json_reader.cpp:239-308 | yields the next token and leaves the cursor at its end |
| JsonReader.Reader.RecoverFromError | json_lib/json_reader.cpp:765-776 | skips to the wanted token or the end and restores the error list |
| JsonReader.Reader.DecodeNumber | json_lib/json_reader.cpp:538-546 | a number token fills the current value with its offsets, or one error is added and the value kept |
| JsonReader.Reader.DecodeString | json_lib/json_reader.cpp:634-643 | the same for a string token |
| JsonReader.Reader.ReadValue | json_lib/json_reader.cpp:145-227 | cursor, node stack, errors and depth counter end as the grammar functions say; only the top of the stack changes |
| JsonReader.Reader.ReadScalar | json_lib/json_reader.cpp:171-219 | the scalar cases and the syntax error, which leaves the depth counter raised |
| JsonReader.Reader.ReadObject | json_lib/json_reader.cpp:444-498 | the member loop with its recovery and its taste in comments |
| JsonReader.Reader.ReadArray | json_lib/json_reader.cpp:500-536 | the element loop with its recovery |
| JsonReader.Reader.Parse | json_lib/json_reader.cpp:103-143 | terminates on every document; unless the stack limit throws, returns true exactly when no error is recorded, leaves one node on the stack and restores the depth counter on success |
| JsonParser.ParseValue | json_lib/json_reader.cpp:145-227 | a regular return moves forward inside the document, succeeds exactly without errors, and on success restores the depth and records where the value ends |
| JsonLexemes.NumberIsOneToken | json_lib/json_reader.cpp:410-430 | an optional minus, digits, an optional dot with digits and an optional exponent, with the end or no number character behind it, is one token that spans exactly this text |
| JsonLexemes.NumberRun | json_lib/json_reader.cpp:410-430 | the scan of a number ends where the longest number text ends |
| JsonLexemes.GapSkipped | json_lib/json_reader.cpp:331-352 | from anywhere inside white space and comments the next token that is no comment is the same; a block comment ends at its first closing pair, a line comment at the end of its line |
| JsonReading.TextReads | json_lib/json_reader.cpp:145-227 | every text of the grammar within the depth limit, fractions, exponents, escapes, white space and comments included, is read as the tree it writes down, a later member taking the place of an earlier one with its name |
| JsonReading.OrderedReadsBack | json_lib/json_reader.cpp:444-498 | when the names of every object are in order, what is read back is the tree itself |
| JsonReading.DeepTextThrows | json_lib/json_reader.cpp:150-151 | a text of a tree that nests more than the limit throws |
| JsonReading.DocumentReads | json_lib/json_reader.cpp:103-143 | for a document that begins with a text: thrown exactly when it nests more than 1000 deep, otherwise its tree, failing only for a scalar root in strict mode |
| JsonSoundness.ReadIsText | json_lib/json_reader.cpp:145-536 | whatever is read as a value is a text of the grammar, of a tree that is read back as that value and nests within the limit |
| JsonSoundness.AcceptedIffText | json_lib/json_reader.cpp:103-143 | a document is accepted as some tree if and only if it begins with a text that is read back as this tree, nests at most 1000 deep and has a container at its root where that is demanded |
| JsonSoundness.ErrorsOfDocument | json_lib/json_reader.cpp:765-776 | a failed reading records exactly one error, whatever recovery meets, whose message fits the token it names; a strict root adds one more |
| JsonSoundness.RecoveryFinds | json_lib/json_reader.cpp:755-776 | recovery stops behind the first token of the wanted kind, or behind the end of the document |
| JsonRoundTrip.RoundTrip | json_lib/json_writer.cpp:296-356 | printing a tree without null strings whose doubles print as numbers and reading it back throws exactly above 1000 nested reads; otherwise gives the tree with missing slots null, integers re-tagged and each double as its text denotes it; the text of that is the same again if each double's is |
| JsonFastWriter.FastWriter.Write | json_lib/json_writer.cpp:296-302 | the text of the filled tree and the line feed unless omitted |
| JsonFastWriter.FastWriter.WriteValue | json_lib/json_writer.cpp:304-356 | appends the text of any value, array and object loops included |
| JsonFastWriter.FastWriter.WriteElements | json_lib/json_writer.cpp:329-337 | the loop over subscripts prints the filled array, nulls for missing slots |
| JsonFastWriter.FastWriter.WriteMembers | json_lib/json_writer.cpp:338-355 | the loop over member names and lookups prints the members in order |
| JsonStyledWriter.StyledWriter.Write | json_lib/json_writer.cpp:364-373 | for the three styles alike: the output spells the tokens of the tree and, where every leaf prints as something, is exactly its layout in lines followed by the ending, and keeps the rules of white space that can be read off its bytes; indentation is back to empty and nothing is collected any more |
| JsonStyledWriter.StyledWriter.WriteValue | json_lib/json_writer.cpp:375-432 | while children are collected the value is a leaf and exactly its text is collected; otherwise the output grows by the layout of the value at the current indentation, which spells its tokens |
| JsonStyledWriter.StyledWriter.WriteObjectValue | json_lib/json_writer.cpp:604-648 | braces around the members, each on a line of its own one unit further in; indent and unindent balance |
| JsonStyledWriter.StyledWriter.WriteArrayValue | json_lib/json_writer.cpp:926-971 | the one-line form exactly when the array holds only leaves and stays inside the margin, otherwise a line for each element |
| JsonStyledWriter.StyledWriter.IsMultilineArray | json_lib/json_writer.cpp:477-503 | several lines exactly when three columns for each element, a container that is not empty, or the whole line reaches the margin of 74; afterwards nothing is collected or all slots are and are leaves, always so when one line suffices |
| JsonStyledWriter.StyledWriter.WriteIndent | json_lib/json_writer.cpp:512-521 | a line feed and the indentation, which the string writer leaves out after a space and shortens after a line feed, and a builder without indentation drops |
| JsonStyledText.OneLineFits | json_lib/json_writer.cpp:488-500 | a one-line array, its brackets included, is shorter than the margin of 74 |
| JsonStyledText.BuilderStyleValid | json_lib/json_writer.cpp:1089-1116 | whatever a builder is set to, its colon symbol is a colon with white space and its null symbol the word or nothing |
| JsonStyledLines.StyledIsLaidOut | json_lib/json_writer.cpp:457-537 | read off the output bytes: each line feed outside literals is followed by exactly one unit of indentation for each bracket open there, a closing bracket at the start of a line not counted; a comma is followed by a line feed or, in an array on one line, by a space; no other white space stands outside literals than the colon symbol and one space inside each bracket of an array on one line; a member's bracket has its own line in the stream writers only; a builder without indentation writes no line feed |
| JsonStyledWriter.TakesLinesBySlots | json_lib/json_writer.cpp:477-503 | the decision on the filled tree is the decision on the slots, missing ones counting as nulls |
| JsonTokens.SpellsConcat | json_lib/json_writer.cpp:375-432 | texts that spell token lists concatenate to one that spells the joined list |
| JsonTokens.SpelledDocument | json_lib/json_reader.cpp:239-308 | a document that spells the tokens of a printable tree, with any white space between them, is a text of the tree as it is read back |
| JsonTokens.YamlConcat | json_lib/json_writer.cpp:339-356 | in YAML mode FastWriter's text is the tokens with one space after each colon |
| JsonTokens.SpelledTreeErases | json_lib/json_writer.cpp:304-356 | erasing white space outside string literals from any such text gives the compact text |
| JsonStyledRoundTrip.StyledErases | json_lib/json_writer.cpp:417-418 | the erased output of a styled writer is FastWriter's text of the tree exactly when the writer does not cut names or no name holds a zero byte |
| JsonStyledRoundTrip.StyledRoundTrip | json_lib/json_writer.cpp:364-373 | for a writer that prints nulls, reading styled output throws exactly for too deep a tree and otherwise gives the tree as shown and read back; this is what reading FastWriter's output gives exactly when the writer does not cut names or no name holds a zero byte |
| JsonDroppedNulls.SurvivesIff | json_lib/json_writer.cpp:866-961 | under any null symbol, the empty one included, a tree is read back from styled output as it would be from FastWriter's with its nulls, if and only if it nests within the limit, its root is allowed, no name is cut, and the symbol is not empty or the tree has no null and no missing slot |
| JsonDroppedNulls.LoneNullReadsEmpty | json_lib/json_writer.cpp:954-968 | not surviving need not mean being refused: with an empty symbol an array of one null is read back as an empty array |
| JsonWindow.ValueInWindow | json_lib/json_reader.cpp:145-227 | a value read inside a window is read with the same payload when everything around the window is cut off, at any smaller depth |
| JsonOffsets.DocumentPlaced | json_lib/json_reader.cpp:162-199 | after a successful parse every node's offsets lie inside its parent's, array elements follow one another with a gap, no two members of an object overlap, replaced ones included, and every node's slice reads back as the node |
| JsonOffsets.SliceIsDocument | json_lib/json_reader.cpp:103-143 | such a slice is a document that parses to the node |
| Amf.CutObjectTruncates | librtmp/amf.cpp:803-828 | what is encoded when room is short is a truncation of the tree |
| Amf.FullEncodingIffRoom | librtmp/amf.cpp:803-828 | the whole tree is encoded exactly when it has no refused type and more bytes are left than its encoding has |
| AmfFormat.EncodedForms | librtmp/amf.cpp:163-370 | byte by byte after sections 2.2 to 2.7 of the AMF0 specification: marker and contents of numbers, booleans, short strings, nulls and objects, and names with their lengths, the most significant byte first |
| AmfFormat.ScalarKept | librtmp/amf.cpp:325-370 | exactly how much room a property that is no object needs, with its name of at least three bytes to spare |
| AmfFormat.ObjectKept | librtmp/amf.cpp:803-828 | exactly when an object value is written, with the properties kept inside it |
| AmfFormat.KeptGreedily | librtmp/amf.cpp:812-820 | properties are written into the room the earlier ones left, up to the first that does not fit |
| AmfEncoder.EncodeString | librtmp/amf.cpp:163-176 | writes the encoding or nothing, inside the buffer |
| AmfEncoder.EncodeNumber | librtmp/amf.cpp:178-235 | writes marker and eight bytes or nothing |
| AmfEncoder.EncodeBoolean | librtmp/amf.cpp:237-247 | writes two bytes or nothing |
| AmfEncoder.EncodeProp | librtmp/amf.cpp:325-370 | a property's header and value, or a null pointer; no byte outside the buffer |
| AmfEncoder.EncodeProps | librtmp/amf.cpp:812-820 | the loop stops at the first property that does not fit |
| AmfEncoder.EncodeObject | librtmp/amf.cpp:803-828 | object marker, fitting properties and end mark, or a null pointer |
| AmfEncoder.Encode | librtmp/amf.cpp:803-828 | never a byte outside the buffer; a null pointer or the encoding of a truncation, which is the whole tree exactly when it is encodable and fits |
| AmfDecoder.AMFPropDecode | librtmp/amf.cpp:539-573 | name and size checks, then the switch |
| AmfDecoder.DecodeSwitch | librtmp/amf.cpp:574-617 | numbers, booleans, strings, objects and nulls, and the types that fail |
| AmfDecoder.AMFDecode | librtmp/amf.cpp:972-1011 | the loop with its search for an end mark after an error computes the decoding of the bytes |
| AmfFormat.PropsIff | librtmp/amf.cpp:972-1011 | data is decoded as properties with some rest if and only if, byte by byte, they stand there: each name and value in turn, up to an end mark, the end of the data, or a property in error with everything behind it passed over to the next end mark |
| AmfFormat.TypedIff | librtmp/amf.cpp:574-617 | data is taken for a value if and only if it begins with the bytes of one; any non-zero byte is true, and three types are read as null |
| AmfFormat.SearchFinds | librtmp/amf.cpp:980-1007 | the search after an error ends behind the first end mark |
| AmfFormat.EncodingIsFormat | librtmp/amf.cpp:803-828 | the encoding of a recoverable tree is, byte by byte, its properties and an end mark |
| AmfRoundTrip.RoundTrip | librtmp/amf.cpp:972-1011 | a tree whose properties are all named and not null, with lengths below 65536, is rebuilt from its encoding and exactly that consumed, whatever follows; with anything following, no other tree is |
| AmfRoundTrip.PropsConsume | librtmp/amf.cpp:972-1011 | whatever the decoder accepts with bytes to spare, it consumed at least the named encoding of its result |
| AmfRoundTrip.AccidentAtTheEnd | librtmp/amf.cpp:980-1007 | with nothing following, a missing end mark is accepted, and one unnamed zero is rebuilt by accident |
| AmfRoundTrip.MessageRoundTrip | librtmp/amf.cpp:972-1011 | a body of unnamed properties is decoded to them exactly when no number among them begins with the bytes of an end mark |
| PunchSteps.Manager.TcpPunchConnection | stunt_mgr.cpp:625-759 | the tables after a punching request, with the returns that skip the server |
| PunchSteps.Manager.AcceptCheckNat | stunt_mgr.cpp:761-831 | the tables after the tracker's notice, dialling at once when the announcement came first |
| PunchSteps.Manager.HandleLog | stunt_mgr.cpp:185-219 | the tables after the server's announcement |
| PunchSteps.Manager.HandleCtrl | stunt_mgr.cpp:221-555 | the tables after a message on a control socket, or after the receiving, binding, listening or connecting failed |
| PunchSteps.Manager.ConnectToCtrl | stunt_mgr.cpp:833-948 | the three tables a dial fills |
| PunchSafety.AgreeFromStart | stunt_mgr.cpp:185-293 | in every run, whatever is sent and whatever fails, the list has no duplicates and equals the keys of the descriptions, control sockets agree between their two tables, and only non-punchers wait to connect unless a puncher's socket has failed |
| PunchSafety.DescribedIffNeverMisfiled | stunt_mgr.cpp:191-219 | for any run: every peer socket has a description all the way if and only if no announcement in it dials for a peer whose description carries the id of a peer that has none |
| PunchSafety.MismatchBreaks | stunt_mgr.cpp:671-678 | the witness: a punching request whose description carries another id, and the announcement that follows, leave a peer socket under an id without description |
| PunchSafety.MatchingKeepsDescriptions | stunt_mgr.cpp:671-678 | as long as punching requests carry the peer's own id, no announcement does that, however often peers are announced, and every peer socket has a description |
| PunchSafety.AnnouncementStep | stunt_mgr.cpp:185-219 | from a state where control sockets and peers correspond, an announcement keeps that and does not stop the program exactly when it is harmless: the peer described is pending without a connection under way, or, before the tracker's notice, no other announcement waits |
| PunchSafety.SafeIffHarmless | stunt_mgr.cpp:220-293 | with fresh sockets and working servers, a run keeps control sockets and peers in correspondence and never fails a lookup, all the way, if and only if every announcement in it is harmless |
| PunchSafety.OrderlyRunFromStart | stunt_mgr.cpp:220-293 | when each pending peer is announced once, sockets are fresh and punching requests carry the peer's own id, no lookup ever fails and the socket-to-peer table stays injective |
| PunchSafety.SecondAnnouncementFails | stunt_mgr.cpp:258-293 | a second announcement during a connection, in either phase and for either side, makes the message after its end fail |
| PunchRoles.RunRecords | stunt_mgr.cpp:671-826 | in every run a description is a puncher's exactly when its peer became pending by a punching request, and not by the tracker's notice |
| PunchRoles.RolesIffNeverMisassigned | stunt_mgr.cpp:862-873 | while punching requests carry own ids, every control socket of a described peer has the peer's role all the way if and only if no peer becomes pending with a control socket left over from the other role |
| PunchRoles.LeftOverMisassigns | stunt_mgr.cpp:862-948 | the witness: two announcements, the end of the first connection, and a notice for the peer that had punched |
| PunchRoles.SafeRunsKeepRoles | stunt_mgr.cpp:862-873 | in a safe run with own ids no socket is left over and the roles agree all the way |
| PunchRoles.FirstMessageByRole | stunt_mgr.cpp:340-408 | in such a run the first message that succeeds on a control socket removes the peer from every table exactly when it became pending by a punching request, and leaves it waiting to connect to the address received exactly when it became pending by a notice |
| PunchRoles.StopsExactly | stunt_mgr.cpp:185-555 | from a linked state the program stops exactly on a second waiting announcement, a message on an unknown socket, or a failing server, dial, answer or peer socket, and for that reason |
| PunchSafety.ArrivalRace | stunt_mgr.cpp:789-826 | notice and announcement in either order give the same tables and one dial with the same description |
| PunchSafety.PunchCommutesIffKnown | stunt_mgr.cpp:650-678 | a punching request and an announcement in either order give the same state exactly when the peer was pending before |
| PunchSafety.PunchOverlooksAnnouncement | stunt_mgr.cpp:650-678 | a punching request that comes after the announcement leaves it waiting and dials nobody until another announcement, which dials |
| Rendezvous.NextKeepsInvariant | Client.cpp:693-725 | every move, successful or failing, keeps the channels, the learned addresses, the hole and the verdicts in step |
| Rendezvous.ConnectIsSafe | Client.cpp:708-725 | the listening side connects only after the other has punched and listened on the announced port, and is still listening unless it failed; the address dialled is the announced one |
| Rendezvous.SameVerdict | Client.cpp:711-715 | both sides reach the same hairpin verdict, and no message is taken for another |
| Rendezvous.NoDeadlock | Client.cpp:485-517 | while nothing failed, some side can go on until both are done |
| Rendezvous.RunsEnd | Client.cpp:310-318 | every run, failures included, ends within as many moves as the scripts have actions |
| Rendezvous.FailureIsSeen | Client.cpp:310-318 | when the connecting side fails before the other has found the connection, or the listening side before it has dialled, the other side is never connected |
| Rendezvous.SuccessfulRun | Client.cpp:828-877 | a run without failures ends with both sides connected through the hole, or both refusing when their global addresses agree |
| PortDelta.Fingerprint.AnalyzeNature | Client.cpp:1437-1483 | the histogram loops choose the last most frequent of the first four distinct differences, random when it occurs once, 0 without differences |
| PortDelta.Record | Client.cpp:1448-1469 | one difference is counted in its slot, a new one in the first empty slot, and zero matching an empty slot does no harm |
| PortDelta.FirstFourInOrder | Client.cpp:1437-1469 | the histogram holds the differences that occur first, in the order in which they do |
| PortDelta.TiesGoToTheLast | Client.cpp:1471-1483 | of several most frequent differences in the histogram the last is chosen, or random when it occurs once |
| PortDelta.RightIffFirstFourDominate | Client.cpp:1437-1483 | for any number of ports: the choice is random exactly when every difference occurs once and otherwise a most frequent one, if and only if every difference occurs at most as often as one of the first four distinct ones |
| PortDelta.MostFrequentChosen | Client.cpp:1437-1483 | with at most four distinct differences the choice is right |
| PortDelta.FewSamplesSuffice | Client.cpp:1288 | up to five samples, and so the four the only caller passes, always give the right choice |
| PortDelta.FifthOverlooked | Client.cpp:1458-1468 | a fifth difference may occur any number of times and the choice is still random, wrongly from two times on |
| PortDelta.PredictionIsTrue | Client.cpp:976-984 | for a constant difference the prediction is the true next port across wrap-around exactly from three samples on, or by luck for difference 1 with two and 0 with fewer |
| BatchAllocator.Allocator.constructor | json_lib/json_batchallocator.h:32-43 | an empty dummy batch, nothing live, nothing free, for any page size the source accepts |
| BatchAllocator.Allocator.Allocate | json_lib/json_batchallocator.h:54-76 | returns the head of the free list, or a block never carved out before; never a live one |
| BatchAllocator.Allocator.FindBatch | json_lib/json_batchallocator.h:62-64 | the search for a batch with room ends without one |
| BatchAllocator.Allocator.AddPage | json_lib/json_batchallocator.h:66-71 | a new page becomes head and current, and every block stays accounted for |
| BatchAllocator.Allocator.Release | json_lib/json_batchallocator.h:81-85 | the block moves from the live ones to the front of the free list, which stays acyclic |
| BatchAllocator.Allocator.LiveBlocksDisjoint | json_lib/json_batchallocator.h:73-75 | live blocks lie in the used parts of their batches and overlap neither one another nor free ones, whatever the page size |
| BatchAllocator.Allocator.InReservedIff | json_lib/json_batchallocator.h:61-110 | in every reachable state, all blocks ever carved out lie in the memory reserved for their batches if and only if blocks divide a page or no more of them were carved out of any page than it counts objects |
| BatchAllocator.Overrun | json_lib/json_batchallocator.h:61-75 | for every block size that does not divide the page, one allocation more than the page counts objects hands out a live block outside its memory |
| BatchAllocator.ArrayPagesOverrun | json_lib/json_internalarray.inl:142 | blocks of 8 do not divide pages of 255, so the page allocator for array values is of this kind |
| LogQueue.CounterIsRight | logger_client.cpp:1696-1735 | in every run, whatever the socket answers and also after sends that block or fail, the counter equals the sizes of the queued records all the way, so that the queue is never read empty and the counter never negative, if and only if every mode logged agrees; the program's own modes do, the two that add another record's size because all three records are bare headers |
| LogQueue.RestartIffNotTaken | logger_client.cpp:1765-1813 | in every run a restart is asked for exactly when some send was not taken: it blocked, found the socket closed, or failed |
| LogQueue.NothingLost | logger_client.cpp:1701-1791 | for records that fit, bytes sent, in transit and queued are together the chunks of all records in order, exactly when no send that starts a chunk has failed; sends that block or take a part lose nothing |
| LogQueue.DrainsUpToOversized | logger_client.cpp:1683-1813 | as many successful calls as bytes outstanding send every record before the first that does not fit a chunk, and nothing behind it |
| LogQueue.DrainsIffAllFit | logger_client.cpp:1683-1813 | as many successful calls as bytes outstanding empty the queue onto the wire exactly when every record fits a chunk |
| LogQueue.OversizedBlocks | logger_client.cpp:1707-1713 | a record that does not fit a chunk stays at the front through any number of calls, whatever the socket answers |
| LogQueue.DrainIsComplete | logger_client.cpp:1592-1648 | the final drain sends the chunks of all records exactly when every record fits and each send takes its whole chunk; otherwise it sends strictly less |
| LogQueue.LoggerClient.NonblockSend | logger_client.cpp:1765-1795 | the bytes taken move to the wire and the rest stays to be sent |
| LogQueue.LoggerClient.HandlePktOut | logger_client.cpp:1683-1813 | one call sends the next piece of a chunk or starts the next record, also after an earlier send blocked or failed |
| LogQueue.LoggerClient.FinishChunk | logger_client.cpp:1571-1587 | the loop before the drain puts the rest of the chunk in transit on the wire, or stops with a restart asked for at the first send that fails |
| LogQueue.LoggerClient.SendAll | logger_client.cpp:1592-1648 | the drain puts on the wire what each send takes of its chunk, and ends when the queue is empty, a send fails, or a record overruns the chunk |
| LogQueue.LoggerClient.LogExit | logger_client.cpp:1562-1648 | stops before the drain exactly when a send of the chunk in transit fails; otherwise what is on the wire is that chunk and what each later send took, and it is everything if and only if all records fit and every send of the drain takes its whole chunk |

## Left out

- `OurReader`, `CharReaderBuilder`, `StreamWriterBuilder` and `Path`: copies of the reader, plumbing for settings, and unfinished code.
- The reader's features for dropped nulls and numeric keys, and the collection and printing of comments; comments are skipped as tokens.
- JSON doubles are real numbers with NaN and infinities, compared but not computed with; reading and printing them is a parameter that may fail or return any text. NaN, which is printed as the word null, is outside the round trips.
- Reading one character past the end of a document yields the terminating zero of a C string.
- Sizes and indices of 2^31 and more, where the source mixes signed and unsigned counters.
- The reader's node stack holds the contents of the values under construction, and a finished value is stored in its container when it is popped; the source holds pointers into the containers and writes through them. The state after the stack-limit exception is unspecified.
- `JsonString.ValueToQuotedString`: quotes the text up to its terminator with the counted version's loop, where the source repeats the loop.
- `JsonStyledRoundTrip.StyledRoundTrip`: covers writers that print nulls. `JsonDroppedNulls.SurvivesIff` covers empty null symbols too, but where a tree does not survive one, it does not say whether the text is refused or which other tree is read.
- `JsonStyledWriter.StyledWriter.Write`: for the string writer, the exact lines are stated for trees in which every leaf prints as something; after a null string it finds itself behind a space and starts no line, and only the tokens are stated.
- Ownership and duplication of strings and keys, and the allocation of memory in general.
- AMF dates, ECMA and strict arrays, long strings and AMF3: decoding them leads outside the model, for there is no encoder to invert. Numbers are eight opaque bytes. The growth of property arrays by sixteen is a sequence that grows.
- After a failed AMF encoding the bytes between the two pointers are unspecified.
- The punching manager's sockets, the exchange with the STUNT servers and the messages' parsing: their results are arguments of the steps, and a failure stops the model as the PAUSE macro stops the program. Whether a peer socket works is one yes or no for each message. The comparison of iterators of two different maps in `accept_check_nat` is taken as the lookup it stands for.
- The rendezvous starts with both control connections made; delays and time limits appear only as actions that fail.
- The probing loop that collects port samples, the detection of port preservation and of changing global addresses: the sampled ports are arguments.
- The log modes that differ only in the record they fill are one mode with a body; record headers and chunks are laid out by a parameter.
- Sockets, timers, signals, files, restart, user interface and the RTMP and RTSP servers.
