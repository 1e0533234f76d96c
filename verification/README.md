# Verified model of the voodoo compiler and its runtime

The repository compiles `.voodoom` interface files into C++ that talks over message pipes. This
project models what the generated code does on the wire, the compiler passes whose results must
agree with each other, and the small runtime state machines underneath, and proves what callers
rely on.

- **Wire codec** (`Ast`, `Bytes`, `Schema`, `WireOrder`, `Codec`, `WireFormat`, `Evolution`, `RoundTrip`,
  `Routing`, `Skew`, `Soundness`, `WireWriter`, `WireReader`): a schema and value datatype, a pure encoder and decoder, the
  generated writer (append, then patch the frame) and reader (moving offset and handle index) as
  methods proved to compute them, and one theorem for every compatible pair of schemas and every
  handle list from which round trips, both directions of version skew and the routing of handles
  follow; and the format itself, in bytes and numbers.
- **Messages** (`Messages`): the 48-byte header, building, and normalizing older headers.
- **Compiler graphs** (`Graph`, `Embeds`, `ByValue`, `CycleCheck`, `EmissionOrder`, `Filtering`,
  `Selection`, `HandleContext`, `UnionTags`): the by-value cycle check and what it protects, the
  emission order, `[EnableIf]` filtering and what it selects, the handle-context fixed point and union
  tags.
- **Keys and types** (`Names`, `TypeKeys`, `Signatures`, `Lexer`, `LexicalRules`, `Resolution`,
  `TypeParser`, `Grammar`, `References`, `KeyRoundTrip`): what an interned key identifies, which text
  is which token, which tokens are which type, what a name refers to, and when printing and parsing
  are inverses.
- **Imports** (`Paths`, `Loader`, `ImportPlaces`): path normalization, where an import is looked for,
  and the import graph.
- **Inheritance and tags** (`Forest`, `TagRanges`): interface forests and V8 tag ranges.
- **SHA-256** (`Sha256`, `Sha256Standard`): the scrambler's digest against FIPS 180-4.
- **Watchers and connectors** (`Watching`, `Connecting`, `ConnectorInvariant`, `ConnectorHistory`,
  `ConnectorMessages`, `ConnectorRuns`, `Connectors`): trap watchers and the connector as state machines
  over every interleaving, and the objects that take their steps.

Code that computes values is modelled by functions; code that works by changing things step by
step is a method or a class, each proved against such a function or a stated property.

## How the model reads the code

- A struct value lists its members in wire order; `StructField.initial` is the value a C++ member
  starts with. Floats are carried as bit patterns. A bool byte above 1 reads as true. Offsets are
  unbounded; counts and sizes are held to 32 bits.
- A handle index past the end of the handle vector, which the generated code does not check, is an
  outcome of its own (`NoHandle`), apart from `return false`.
- `Message::payload` pointers are 64-bit addresses that wrap. `WrapWireBytes` writes the byte count
  through a pointer taken before the payload is inserted
  (WASMCadidumBindings/src/message.cc:138-153). Inserting anything into the full 48-byte vector moves
  it to a new block, so in the model the write reaches the message only when there is no payload.
- Ready sets are modelled as sets; where only the count matters (`CycleCheck`) any ready name is
  taken. A stable sort is the function `WireFields`, characterized up to equality.
- What a file's text parses to is a parameter of the loader: the imports of its header, and whether
  its body parses after the files loaded before it.
- The parser's tables of declared names come to it as they are after its pre-scan, with this file's
  entries before loaded ones. `std::stol` is taken to be 64 bits wide in a literal's escapes.
- In the connector a trap event and the task it posts are one step; a watcher is known by a number
  no other watcher has. Everything the application can call may happen at any point, also inside a
  delivery, the error handler or a nested task.
- A trap fires once each time it is armed (WASMHolePunch/src/system/core.cc:430-445 and 996).
- Words of SHA-256 are integers below 2^32; only the bitwise functions go through bit vectors.

## Where code and comments disagree

The model follows the code.

- A nullable struct or union member makes no complete-type edge (src/ast.h:217), although the comment
  at src/cpp_generator.cc:2155 says an optional one does.
- An extensible enum keeps the raw value (src/cpp_generator.cc:752-776), although src/ast.h:396-398
  says `[Default]` is substituted.
- Skipping unknown bytes does not move the handle index (src/cpp_generator.cc:1527 and 1685); when
  something skipped carries a handle, later handles are misrouted.
- A struct's enum fields are checked as of the version in that struct's header.
- The directory of a file right under the root is empty, so its imports are looked for in the current
  directory and not in the root (src/module_loader.cc:13-24).
- `TypeKey` drops the container of a struct or union (src/type_intern.cc:90-95), so two types nested in
  different interfaces of one module under one name share a key.
- src/module_loader.h:102-104 says that a file with an unresolvable import is left out in per-file
  mode; the code keeps the file and clears that import (src/module_loader.cc:247-260).
- src/ast.h:518-519 describes union tags as all explicit or all implicit; the parser mixes them, and
  accepts the same written tag twice.
- A wrapped message's byte count is the one its bytes came with unless it has no payload
  (WASMCadidumBindings/src/message.cc:151-153), although WASMCadidumBindings/src/message.cc:55 keeps it
  current everywhere else.
- A connector that is started while paused loses its closing watcher to the first closing event
  (WASMCadidumBindings/src/connector.cc:187-192); with nothing buffered it reports nothing when it is
  resumed. With a message still buffered, the next read reports it.
- The comment at WASMCadidumBindings/src/connector.cc:182-186 promises one last drain before the error;
  a receiver that pauses during that drain loses what is still buffered.
- The comment at WASMCadidumKernel/src/simple_watcher.cc:115-118 relies on a re-watch changing the trap
  handle; WASMHolePunch/src/system/core.cc:311-322 hands out freed handles again, so it may not.

## Model

| member | source | states |
|---|---|---|
| `Evolution.Reads` | src/cpp_generator.cc:701-844 | The main codec theorem: for any two compatible schemas, any bytes around and every handle list, reading with one what the other's writer appended gives exactly the projected value with the handles found from the reader's index on, or the refusal of an unknown enum value, or an index past the handles; a success stops at the end of the encoding. |
| `Evolution.ReadsStruct` | src/cpp_generator.cc:1485-1529 | A struct reader of another version reads the leading fields its writer's header version allows, leaves the rest at their initial values, and lands on the recorded end whatever it skipped. |
| `Evolution.ReadsUnion` | src/cpp_generator.cc:1629-1687 | A union reader takes the payload of a tag both sides know, substitutes for an unknown tag only in an extensible union, and lands on the recorded end. |
| `Evolution.ReadsHandle` | src/cpp_generator.cc:633-699 | A handle or endpoint read after its write keeps its ids and version; an in-message one is whatever handle the index is at, and moves the index by one. |
| `RoundTrip.RoundTrip` | src/cpp_generator.cc:515-621 | Reading under the writer's own schema succeeds exactly on values whose enums are known as of their struct's version (or extensible); it then stops at the encoding's end with exactly the attached handles taken, and the value is the written one exactly when no union holds the unknown tag in place of a [Default] field and no absent endpoint has a version. |
| `RoundTrip.ParamsRoundTrip` | src/cpp_generator.cc:950-1156 | The same for a whole parameter list: from byte 0 and handle 0 the reader uses up every byte and every handle, in order, each once, and absent nullable handles take none. |
| `RoundTrip.FrameSizeIsExact` | src/cpp_generator.cc:1478-1482 | The size recorded in a struct's or union's frame is its exact length in bytes. |
| `RoundTrip.EmplaceLoss` | src/cpp_generator.cc:831-836 | Emplacing entries into a map keeps every entry exactly when the keys are distinct, and loses one otherwise. |
| `RoundTrip.EnumReads` | src/cpp_generator.cc:1226-1244 | A number written for an enum that is not extensible is read exactly when some value declares it, with no earlier value of that number, and is no newer than the struct it was written in; otherwise the read is refused. |
| `RoundTrip.ExtensibleEnumReads` | src/cpp_generator.cc:752-776 | An extensible enum keeps every number. |
| `RoundTrip.StructOfEnumsReadsBack` | src/cpp_generator.cc:1485-1529 | A struct whose enums all hold numbers its own version knows reads back as it was written. |
| `WireFormat.ByteOrder` | WASMCadidumBindings/include/mojo/public/cpp/bindings/lib/wire_primitives.h:27-57 | The lowest byte of a scalar comes first. |
| `WireFormat.ScalarRanges` | WASMCadidumBindings/include/mojo/public/cpp/bindings/lib/wire_primitives.h:27-57 | The values a scalar type has, in numbers. |
| `WireFormat.ScalarFormat` | WASMCadidumBindings/include/mojo/public/cpp/bindings/lib/wire_primitives.h:27-57 | How many bytes each scalar type takes up on the wire, and that they are its two's complement. |
| `WireFormat.BoolReads` | WASMCadidumBindings/include/mojo/public/cpp/bindings/lib/wire_primitives.h:67-80 | Every byte but zero reads as true. |
| `WireFormat.HandleFormat` | src/cpp_generator.cc:452-510 | What each kind of handle or endpoint leaves in the payload and in the handle list. |
| `WireFormat.NullableHandleFormat` | src/cpp_generator.cc:515-596 | A nullable one has a byte in front; it is absent exactly when its id is 0, or 0xFFFFFFFF for an associated endpoint, and then leaves nothing else. |
| `WireFormat.OptionalReads` | src/cpp_generator.cc:701-732 | In front of an optional value or handle any byte but zero says that it is there; an absent one is nothing, or the invalid handle. |
| `WireFormat.StructFormat` | src/cpp_generator.cc:1465-1483 | A struct is its length, its version and its fields in wire order. |
| `WireFormat.UnionFormat` | src/cpp_generator.cc:1604-1627 | A union is its length, its tag and the value of that tag's type; the unknown tag is -1 with no value. |
| `WireFormat.ListFormat` | src/cpp_generator.cc:551-621 | In any list of values each stands behind all those before it. |
| `WireFormat.CountedFormat` | src/cpp_generator.cc:551-621 | Strings, arrays and maps begin with their count, a fixed-size array does not; an entry's key stands before its value. |
| `WireFormat.EmptyStructReads` | src/cpp_generator.cc:1499-1528 | A struct without fields is read exactly when its size is at least 8 and ends inside the payload. |
| `WireFormat.UnknownTagReads` | src/cpp_generator.cc:1643-1686 | A union with a tag nobody declares is read exactly when it is extensible, its size is at least 4 and it ends inside the payload. |
| `WireFormat.UnknownTagBecomes` | src/cpp_generator.cc:1667-1685 | It becomes the last field marked [Default], holding the value that field starts with, or the unknown tag if none is marked. |
| `Codec.Decode` | src/cpp_generator.cc:701-732 | Reading any type from any bytes ends, and a successful read stays inside the payload and never moves the offset or handle index back; the recursion is justified by bytes left, then type depth. |
| `Codec.DecodeStruct` | src/cpp_generator.cc:1499-1528 | On every byte string a struct read that succeeds ends at least 8 bytes on and inside the payload. |
| `Codec.DecodeUnion` | src/cpp_generator.cc:1643-1686 | On every byte string a union read that succeeds ends at least 4 bytes on and inside the payload. |
| `Codec.ScalarImageInverse` | WASMCadidumBindings/include/mojo/public/cpp/bindings/lib/wire_primitives.h:27-57 | Every scalar in its width's range survives the cast to the wire and back, negative ones included. |
| `Bytes.LoadStore` | WASMCadidumBindings/include/mojo/public/cpp/bindings/lib/wire_primitives.h:27-57 | What fits a width is read back unchanged from its little-endian bytes. |
| `WireOrder.ReadCountSplits` | src/cpp_generator.cc:1510-1526 | In wire order the fields a version has are exactly a leading run of the fields. |
| `WireOrder.WireIsStableSort` | src/cpp_generator.cc:39-49 | The wire order is a rearrangement of the fields, by version, with declaration order kept inside each version. |
| `WireOrder.StableSortUnique` | src/cpp_generator.cc:39-49 | Nothing else is left open: any two such orders are equal. |
| `WireOrder.CutReadCounts` | src/cpp_generator.cc:1510-1526 | Between a struct and its cut to any past version, in either role, the reader finds exactly the cut's fields, which lead the wire order. |
| `Skew.OlderIsCompatible` | src/cpp_generator.cc:1446-1530 | A schema and one that has some of its structs and unions, each cut to a past version, can talk both ways. |
| `Skew.OldReaderOfNewStruct` | src/cpp_generator.cc:1510-1527 | An old reader of a new struct gets the old fields, each read in turn, and stops at the end of the whole struct. |
| `Skew.NewReaderOfOldStruct` | src/cpp_generator.cc:1510-1527 | A new reader of an old struct gets the old fields and the initial values of exactly the fields added since. |
| `Skew.NewFieldsTrail` | src/cpp_generator.cc:39-49 | The fields a cut drops are exactly the newer ones, and they come last on the wire. |
| `Skew.UnknownTagIsSkipped` | src/cpp_generator.cc:1667-1685 | A tag the reader does not have is skipped whole in an extensible union and refused otherwise. |
| `Skew.HandlesInSync` | src/cpp_generator.cc:633-699 | With any handles, a successful read across versions ends at the end of the encoding with the handle index moved by the handles of the parts it read; that is where the writer's was exactly when no skipped part carried a handle, and the writer's own handles never run out. |
| `Skew.RightHandles` | src/cpp_generator.cc:1527-1527 | With the writer's handles the read succeeds exactly when it would with each part's own, and gives the value with each part's own handle when the kept parts' handles lead the attached ones; only then, when maps are keyed by scalars, strings or enums. |
| `Skew.HandleGoesAstray` | src/cpp_generator.cc:1485-1529 | An inner struct's new handle field is skipped by an old reader, which takes that handle for the outer struct's next field. |
| `Routing.KeptFits` | src/cpp_generator.cc:1510-1527 | The handles of the parts a reader does not jump over are at most the attached ones, as many exactly when no skipped part carries one, and then the same. |
| `Routing.TakesKept` | src/cpp_generator.cc:633-699 | A receipt moves the index by exactly those handles, and runs out of handles only when there are fewer. |
| `Routing.ReceiveAlike` | src/cpp_generator.cc:633-699 | Two supplies of enough handles are both refused or both accepted; the values agree when the taken windows do, and only then with plain map keys. |
| `Soundness.DecodeTyped` | src/cpp_generator.cc:701-844 | On every byte string and handle list a value the reader accepts is a value of its type, if members start out typed: distinct map keys, ranges, declared tags and all. |
| `Soundness.ReceivedIsTyped` | src/cpp_generator.cc:701-844 | What a reader of another version makes of a value is a value of its own schema, so it can be written again. |
| `Skew.SkewedRead` | src/cpp_generator.cc:1446-1530 | For any type, under either schema, what the other one wrote is read as the receipt says, for every handle list. |
| `Skew.SkippedHandleIsMisrouted` | src/cpp_generator.cc:1527-1527 | For every value, the handle parameter behind it gets the handle the kept parts leave the index at: its own exactly when no skipped part carried a handle, wherever the skipped parts are. |
| `WireWriter.WriteValue` | src/cpp_generator.cc:515-621 | The generated writer appends exactly the bytes and handles the pure encoder gives, and changes nothing else of the message. |
| `WireWriter.WriteStruct` | src/cpp_generator.cc:1465-1483 | Reserving a header, appending the fields and patching the header leaves the same bytes as knowing the sizes in advance. |
| `WireWriter.WriteUnion` | src/cpp_generator.cc:1604-1627 | The same for a union's size word. |
| `WireWriter.FramePatchedTwice` | WASMCadidumBindings/include/mojo/public/cpp/bindings/lib/wire_primitives.h:88-96 | A patch of a reserved header touches nothing before or behind it. |
| `WireWriter.WriteString` | WASMCadidumBindings/include/mojo/public/cpp/bindings/lib/wire_primitives.h:104-109 | A string is its length and then its bytes. |
| `WireWriter.WriteHandle` | src/cpp_generator.cc:452-510 | What a direct handle adds to the payload and to the handle list. |
| `WireReader.ReadValue` | src/cpp_generator.cc:701-732 | The generated reader, moving its offset and handle index, computes the decoder: same value, offset and handle index, or the same failure. |
| `WireReader.ReadStruct` | src/cpp_generator.cc:1485-1529 | Field by field behind version checks, the struct reader computes the decoder's struct. |
| `WireReader.ReadUnion` | src/cpp_generator.cc:1629-1687 | The tag switch computes the decoder's union. |
| `WireReader.ReadEntries` | src/cpp_generator.cc:813-838 | The emplace loop computes the decoder's map. |
| `WireReader.ReadElements` | src/cpp_generator.cc:787-812 | The element loop, with or without a length prefix, computes the decoder's array. |
| `WireReader.ReadScalar` | WASMCadidumBindings/include/mojo/public/cpp/bindings/lib/wire_primitives.h:67-80 | A scalar read succeeds exactly when enough bytes are left, and a failed one leaves the offset alone. |
| `WireReader.ReadHandle` | src/cpp_generator.cc:633-699 | The handle reader takes the next handle, or the ids in the payload. |
| `Messages.Message.constructor` | WASMCadidumBindings/src/message.cc:30-42 | A new message has a well-formed v2 header with the given routing fields and an empty payload. |
| `Messages.Message.WritePayload` | WASMCadidumBindings/src/message.cc:52-57 | Appends to the payload, keeps the byte count right and every other header field. |
| `Messages.Message.PatchPayload` | WASMCadidumBindings/src/message.cc:73-75 | Overwriting payload bytes in place changes only those bytes. |
| `Messages.WrapWireBytes` | WASMCadidumBindings/src/message.cc:105-156 | The field-by-field header rewrite, with its last write going to the block the header was built in, computes the normal form, or the null message exactly for the bytes it rejects. |
| `Messages.AcceptedBytes` | WASMCadidumBindings/src/message.cc:105-136 | Which bytes are rejected, and where the payload of the others starts, by version and payload pointer, in numbers; a v2 pointer counts from byte 32, backwards too. |
| `Messages.NormalizeKeeps` | WASMCadidumBindings/src/message.cc:138-152 | An accepted v0, v1 or v2 message of any size keeps name, flags, interface id, trace nonce and request id (0 for v0) behind a v2 header, and its payload exactly when that is below 2^32 bytes. |
| `Messages.CountIsRight` | WASMCadidumBindings/src/message.cc:138-153 | The byte count of a wrapped message is its length exactly when it has no payload or the bytes came with that count. |
| `Messages.OlderCountGoesStale` | WASMCadidumBindings/src/message.cc:151-153 | A v0 or v1 message with a payload comes out with the count it came with, which is short of its length. |
| `Messages.StaleCountExample` | WASMCadidumBindings/src/message.cc:151-153 | A v0 header with one byte behind it becomes 49 bytes whose header says 24. |
| `Messages.BuiltIsNormal` | WASMCadidumBindings/src/message.cc:30-57 | Wrapping the bytes of a message built here, with a payload below 2^32 bytes, returns the same bytes. |
| `Messages.NormalizeIdempotent` | WASMCadidumBindings/src/message.cc:105-156 | Wrapping twice is wrapping once, on all bytes, accepted or rejected. |
| `Messages.NormalForms` | WASMCadidumBindings/src/message.cc:105-156 | The bytes wrapping leaves as they are, exactly. |
| `CycleCheck.CheckCompleteTypeAcyclic` | src/parser.cc:1482-1555 | Accepts a module exactly when no struct or union contains itself by value, through any chain. |
| `CycleCheck.CountOrdered` | src/parser.cc:1526-1539 | The worklist counts every name exactly when the graph has no cycle. |
| `CycleCheck.MentionCycles` | src/parser.cc:1501-1524 | The counted mentions have a cycle exactly when the types do. |
| `ByValue.CompleteTypesAre` | src/ast.h:202-224 | A type needs a declaration complete exactly when taking off fixed-size array layers, and nothing else, ends at a non-null struct or union of this module of that generated name. |
| `ByValue.NoValueOnCycle` | src/parser.cc:1482-1555 | On a circle of structs that contain each other, directly or in fixed-size arrays, no struct has a value at all. |
| `ByValue.StructCycleIsRejected` | src/parser.cc:1482-1555 | Every such circle is one the check rejects. |
| `EmissionOrder.SortEmbeds` | src/cpp_generator.cc:2159-2214 | Throws exactly on a dependency cycle; otherwise emits each declaration once, after its complete-type dependencies, in the least such order by file position. |
| `EmissionOrder.GreedyIsLeast` | src/cpp_generator.cc:2190-2207 | Always taking the least ready declaration gives the least topological order of all. |
| `EmissionOrder.EarlierFirst` | src/cpp_generator.cc:2190-2207 | Of two declarations emitted one after the other, the first is needed by the second, stands earlier in the file, or is listed earlier. |
| `Filtering.CompileOrder` | src/cpp_generator.cc:2208-2212 | Every module the parser accepts can be ordered, before and after filtering under every flag set, whatever its names; with distinct names it accepts exactly those. |
| `Filtering.AcyclicFeeds` | src/cpp_generator.cc:2208-2212 | No by-value cycle of names leaves no circle of positions, duplicate names included. |
| `Filtering.DuplicateNames` | src/parser.cc:1526-1554 | Two declarations with one generated name: a module the parser rejects and the generator can order. |
| `Filtering.FilteredThins` | src/parser.cc:2271-2292 | Filtering keeps names and order and only removes declarations and members. |
| `Selection.EnabledIsWanted` | src/parser.cc:2179-2206 | A declaration is kept exactly when its [EnableIf] asks for any of its flags and one is on, or for all of them and they are on and not none, and its [EnableIfNot] is not met in the same way. |
| `Selection.ModuleBecomes` | src/parser.cc:2271-2292 | Filtering leaves exactly the wanted declarations and members, each once and in order, at every level of the module; a union also goes when no field of it is wanted. |
| `Filtering.FeedsIsNeeds` | src/cpp_generator.cc:2159-2189 | A circle of positions in the generator's graph is a by-value cycle of names. |
| `Embeds.OrdersSame` | src/parser.cc:1519-1524 | Parser and generator visit the same declarations. |
| `Embeds.OrderHas` | src/cpp_generator.cc:2412-2418 | These are the structs and unions of the module and of its interfaces, with all their fields' types, and no others. |
| `HandleContext.BuildHandleCtx` | src/cpp_generator.cc:88-126 | The passes end with exactly the structs and unions from which a handle is reachable through elements, map values and references. |
| `HandleContext.LeastFixedPoint` | src/cpp_generator.cc:88-126 | That set is below every other set the passes could stop at. |
| `HandleContext.CompilesIffPlain` | src/cpp_generator.cc:597-620 | With the context the passes end with, constness and handle arguments agree in all emitted writers and readers exactly when no map key type needs the context. |
| `HandleContext.NoContextNoHandles` | src/cpp_generator.cc:777-786 | In every module whose emitted code fits together, what is written without handle arguments attaches no handle, whatever the value. |
| `HandleContext.KeyWithHandle` | src/cpp_generator.cc:811-838 | A map keyed by a struct with a handle, which the parser allows: the emitted writer passes a const key to a writer that changes it, and the reader passes handle arguments it does not have, so the code cannot compile. |
| `UnionTags.AssignTags` | src/parser.cc:1400-1458 | Written tags stay; each untagged field gets the least number not written anywhere and not given before. |
| `UnionTags.TagsAreDistinct` | src/parser.cc:1444-1458 | All tags differ exactly when the written ones do; the parser does not compare them. |
| `UnionTags.TagsAreUnique` | src/parser.cc:1444-1458 | The rule fixes the tags. |
| `Signatures.KeyUnique` | src/type_intern.cc:43-132 | Two keys at the front of the same text are the same key of the same qualified type: a key's end and meaning need nothing more. |
| `Signatures.TypeKeyIdentity` | src/type_intern.cc:43-132 | Two type keys are equal exactly when the types are, with references compared by fully qualified dotted name (and enums by their container too). |
| `Signatures.ContainerInKey` | src/type_intern.cc:84-95 | References to one name of one owner share a key whatever they are nested in, exactly unless they are enums of different containers. |
| `Signatures.MethodKeyIdentity` | src/type_intern.cc:139-151 | Two method keys are equal exactly when qualified interface, name, parameter types and response agree. |
| `Signatures.TypeIntern.InternKey` | src/type_intern.cc:153-160 | A known key gives its id, a new one the next id; earlier ids keep their keys. |
| `Signatures.TypeIntern.Key` | src/type_intern.cc:176-180 | Key inverts InternKey, and is empty for ids never given. |
| `Signatures.InternTwoMethods` | src/type_intern.cc:171-174 | In one table two methods get the same id exactly when they have the same signature. |
| `TypeKeys.ClassifyWord` | src/type_intern.cc:47-129 | The text before the first bracket tells which kind of type a key is of. |
| `TypeKeys.ReferenceTexts` | src/type_intern.cc:84-100 | How references are spelled in a key. |
| `TypeKeys.MethodTexts` | src/type_intern.cc:139-151 | How a method's key begins and how it shows an answer. |
| `Lexer.Tokenize` | src/lexer.cc:19-221 | The scanning loop computes the recursive reading of the text, string literals and failures included. |
| `Lexer.ScanLiteral` | src/lexer.cc:139-190 | The loop over a string literal computes its value and end, escapes and failures included. |
| `Lexer.LexQuoted` | src/lexer.cc:139-190 | Any text on one line, with quotes and backslashes escaped and put in quotes, is one literal with that text as its value. |
| `Lexer.LexName` | src/lexer.cc:55-60 | A name in front of anything that cannot continue it is one token. |
| `Lexer.LexDecimal` | src/lexer.cc:78-116 | A printed number in front of a closing bracket is one number token. |
| `LexicalRules.NameRule` | src/lexer.cc:55-60 | Letters, digits and underscores that do not begin with a digit are one name. |
| `LexicalRules.SpaceRule` | src/lexer.cc:31-39 | White space separates tokens and is none. |
| `LexicalRules.LineCommentRule` | src/lexer.cc:40-43 | A line comment is skipped up to its line's end. |
| `LexicalRules.BlockCommentRule` | src/lexer.cc:44-53 | A block comment is skipped up to its first end. |
| `LexicalRules.OpenCommentRule` | src/lexer.cc:44-53 | One without an end is an error. |
| `LexicalRules.PunctuationRule` | src/lexer.cc:197-214 | Each of the 17 single characters is a token. |
| `LexicalRules.OtherRule` | src/lexer.cc:215-217 | Every other printing character is an error outside comments and literals. |
| `LexicalRules.NumberRule` | src/lexer.cc:61-116 | Digits with no fraction and no exponent behind them are one number, and an error if a zero leads them; zero alone is a number. |
| `LexicalRules.FloatRule` | src/lexer.cc:80-110 | Digits with a fraction, an exponent with or without a sign, or both are one floating number. |
| `LexicalRules.PointRule` | src/lexer.cc:117-138 | So is a fraction alone. |
| `LexicalRules.HexRule` | src/lexer.cc:63-77 | 0x and hexadecimal digits are one number, and an error without digits. |
| `LexicalRules.DecimalEscapeRule` | src/lexer.cc:160-174 | A decimal escape in a literal is the character of that code modulo 256, and an error above the range of long. |
| `LexicalRules.HexEscapeRule` | src/lexer.cc:175-186 | The same for a hexadecimal one. |
| `LexicalRules.OpenLiteralRule` | src/lexer.cc:139-152 | A literal that meets the end of its line or of the text is an error. |
| `Names.DecimalInverse` | src/parser.cc:1761-1761 | Reading back a printed number gives the number. |
| `TypeParser.Parser.ParseTypeSpec` | src/parser.cc:1733-1741 | The cursor-moving parser accepts what the grammar accepts, returns the same type and leaves the same tokens. |
| `TypeParser.Parser.ParseTypeSpecInner` | src/parser.cc:1743-1873 | The same for one type without its question mark, every keyword branch included. |
| `TypeParser.Parser.TakeSegments` | src/parser.cc:1995-2006 | The dotted-name loop takes every segment up to the last dot. |
| `TypeParser.ParseType` | src/parser.cc:1733-1741 | Reading a type consumes at least one token. |
| `Grammar.SimpleWords` | src/parser.cc:1733-1748 | The words of the scalar types and of strings, whatever follows. |
| `Grammar.MarkRule` | src/parser.cc:1733-1741 | A question mark behind a type makes it nullable. |
| `Grammar.FixedArrayRule` | src/parser.cc:1749-1774 | The size of a fixed-size array is a plain decimal from 1 to 2^31 - 1, and anything else an error. |
| `Grammar.MapRule` | src/parser.cc:1775-1792 | Both spellings of a map; a key that is nullable, floating, an array, a map, a handle or an endpoint is an error. |
| `Grammar.HandleRule` | src/parser.cc:1796-1832 | The handle subtypes there are, Mach ports standing for platform handles, and an error for every other word. |
| `Grammar.PendingRule` | src/parser.cc:1852-1872 | The four endpoint types of an interface, named as in its own module or with the module in front. |
| `Grammar.AssociatedRule` | src/parser.cc:1835-1851 | The short form of the associated ones, a receiver exactly with '&'. |
| `References.BareReference` | src/parser.cc:1953-1964 | A bare declared name is a struct of that name if there is one, else a union, else an enum, with its container, in the module it was loaded from or in none if this file declares it. |
| `References.ImportedReference` | src/parser.cc:1904-1931 | A name loaded from another module, with that module in front, is its declaration there. |
| `References.OwnModuleReference` | src/parser.cc:1908-1931 | With this file's module in front, a name that comes from no other module is this file's. |
| `References.NestedReference` | src/parser.cc:1932-1951 | Container.Name is what the container holds, an enum before a struct before a union, in the container's module. |
| `References.OtherReference` | src/parser.cc:1972-1993 | Every other dotted name is a declaration of the module in front, or of this file if it declares the name, and an undeclared one a struct of that module. |
| `References.UndeclaredReference` | src/parser.cc:1966-1969 | A bare name nothing declares is taken for a struct. |
| `KeyRoundTrip.PrintParse` | src/parser.cc:1733-1870 | For every type the grammar can write, its key can be tokenized exactly when it refers to no struct, union or enum; parsing then leaves only the end token and gives the type with its interfaces looked up anew, the type itself exactly when each interface is found again in its module. |
| `KeyRoundTrip.ColonDoesNotLex` | src/lexer.cc:197-217 | A text with a colon, outside comments and string literals, is rejected. |
| `KeyRoundTrip.LexesType` | src/type_intern.cc:43-132 | The key of such a type lexes as the tokens of the type, in front of anything that can follow it. |
| `KeyRoundTrip.ParsesType` | src/parser.cc:1733-1870 | Those tokens parse as the type, and the rest is left. |
| `KeyRoundTrip.Reparse` | src/parser.cc:1733-1870 | The same equivalences through the tokenizer's loop and the parser's cursor. |
| `Paths.NormalizePath` | src/module_loader.cc:34-79 | The find-and-push loop computes a fold over the path's segments. |
| `Paths.NormalizeIsCanonical` | src/module_loader.cc:34-79 | Normalizing is idempotent on every string, and its fixed points are exactly the canonical forms. |
| `Paths.NormalizedIsForm` | src/module_loader.cc:34-79 | A normal form has no empty or "." segment and ".." only as a leading run of a relative path; its prefix is the path's, but for kept segments that spell a drive. |
| `Paths.NormalizeKeepsPlace` | src/module_loader.cc:26-33 | A path names the same place before and after, from every directory, exactly when it is not a relative path whose kept segments spell a drive. |
| `Paths.DriveExample` | src/module_loader.cc:39-49 | One that does: ./C:/x becomes C:/x. |
| `Paths.Roots` | src/module_loader.cc:39-49 | What counts as an absolute path: a slash of either kind in front, or a letter, a colon and a slash. |
| `Paths.OneSegment` | src/module_loader.cc:50-79 | What one segment does: nothing for an empty one or '.', one step back for '..', one step on for a name. |
| `Loader.ResolveImport` | src/module_loader.cc:90-104 | The first readable candidate, the importer's own directory first. |
| `ImportPlaces.BesidePlace` | src/module_loader.cc:90-97 | A relative import of a file d/f is looked for first where it leads from d, from every current directory and with either slash, exactly when d is not empty; a drive spelled by the joined path is excepted. |
| `ImportPlaces.BesidePlain` | src/module_loader.cc:13-17 | That of a file without a directory is looked for where it leads from the current one. |
| `ImportPlaces.ImportIsFound` | src/module_loader.cc:90-104 | A readable file there is what the import means, whatever the import directories hold; otherwise it is the first readable one in the import directories. |
| `Loader.LoadModuleGraph` | src/module_loader.cc:287-309 | A graph lists the files reached from the entry, less those left out as bad, each once and after its imports, the entry last if it loaded; strict mode leaves nothing out and resolves every import; in per-file mode loading fails on a readable entry exactly when its imports have a cycle. |
| `Loader.Loading.LoadFileInto` | src/module_loader.cc:206-283 | Terminates on every finite file system; keeps the finished files in dependency order, the graph well formed, and reports only real errors: a cycle is a chain of imports from the entry back to a file on it. |
| `Loader.Loading.GiveUp` | src/module_loader.cc:216-225 | A bad file counts as finished and failed; without per-file mode it is an error. |
| `Loader.AllReached` | src/module_loader.cc:206-283 | When loading returns, exactly the reachable files are finished and no chain from the entry is a cycle. |
| `Loader.NoCycleIn` | src/module_loader.cc:209-214 | No import cycle runs through a list in which every import comes first. |
| `Loader.ResolvedPath` | src/module_loader.cc:90-104 | A resolved path is readable and never empty, so the empty path can stand for no path. |
| `Forest.CheckBaseChain` | WASMBruja/src/resolver.cc:55-76 | Accepts a base chain exactly when it ends at an interface without a base, and otherwise tells an undeclared base from a cycle. |
| `Forest.CheckBaseChains` | WASMBruja/src/resolver.cc:110-117 | The module passes exactly when every chain ends. |
| `Forest.BuildContext` | WASMBruja/src/cpp_generator.cc:25-39 | The children map lists each base's direct subinterfaces in declaration order. |
| `Forest.DescendantsInclusive` | WASMBruja/src/cpp_generator.cc:43-57 | The stack walk ends and outputs exactly the descendants, each once, the interface itself first. |
| `TagRanges.TagWalk.Assign` | WASMBruja/src/cpp_generator_v8.cc:199-212 | The recursive walk numbers a subtree with consecutive indices, and one interface's range holds another's index exactly when the other descends from it; siblings are numbered in declaration order. |
| `TagRanges.TagWalk.Compute` | WASMBruja/src/cpp_generator_v8.cc:214-221 | The walks from the roots number the whole module 0 to n - 1, roots and siblings in declaration order. |
| `TagRanges.IndicesAreDistinct` | WASMBruja/src/cpp_generator_v8.cc:214-221 | No two interfaces share an index. |
| `TagRanges.ContainsIsInRange` | WASMSafeSpace/include/v8-internal.h:60-63 | One wraparound comparison decides a range, even for a block that wraps past the last tag. |
| `TagRanges.TagRangesEqualDescendants` | WASMBruja/src/cpp_generator_v8.cc:481-491 | The range test agrees with descent for every pair exactly when the interfaces fit the 16 bits of a tag, wherever the block starts. |
| `TagRanges.TooManyTags` | WASMBruja/src/cpp_generator_v8.cc:481-491 | With one interface too many some range accepts a value that does not descend from it. |
| `Sha256.Sha256` | src/mojovm.cc:112-142 | The digest of every message is that of its padded blocks (sections 5 and 6.2 of FIPS 180-4). |
| `Sha256.Sha256Block` | src/mojovm.cc:61-110 | The in-place rotation of eight registers and the schedule array compute the next hash value of section 6.2.2. |
| `Sha256.Rotates` | src/mojovm.cc:84-101 | Each rotation keeps the registers equal to the last four values of the two sequences the rounds define. |
| `Sha256.ScheduleWords` | src/mojovm.cc:74-83 | The schedule array holds the message schedule. |
| `Sha256.Finish` | src/mojovm.cc:121-135 | The tail is padded in one block or in two, as its length asks. |
| `Sha256.Padding` | src/mojovm.cc:122-134 | One byte 0x80, the fewest zero bytes that leave room for the length, and the length. |
| `Sha256.PaddedBytes` | src/mojovm.cc:121-135 | Every message is followed by 0x80, zeros and eight more bytes, as few as fill whole blocks of 64. |
| `Sha256.LengthField` | src/mojovm.cc:131-134 | Below 2^61 bytes the padded message ends in its exact length in bits. |
| `Sha256.PaddingIsInjective` | src/mojovm.cc:121-135 | Below 2^61 bytes the padded message determines the message. |
| `Sha256Standard.ScheduleSum` | src/mojovm.cc:74-83 | Words of the schedule: the block's own, most significant byte first, then the sums of section 6.2.2. |
| `Sha256Standard.RoundSum` | src/mojovm.cc:84-101 | One round, on the eight variables as section 6.2.2 has them, with sums modulo 2^32. |
| `Sha256Standard.HashSum` | src/mojovm.cc:102-110 | The next hash value adds the variables after the last round. |
| `Sha256Standard.InitialRoots` | src/mojovm.cc:112-114 | The initial hash value: the fractional parts of the square roots of the first eight primes. |
| `Watching.NoStaleCallbacks` | WASMCadidumKernel/src/simple_watcher.cc:112-137 | In every run in which no Watch is given the trap handle of a task still posted with a callback, every callback that runs was posted under the Watch still in force. |
| `Watching.ReuseRunsStale` | WASMCadidumKernel/src/simple_watcher.cc:112-137 | The converse, after every run: given such a handle, the watcher runs that task's old callback when the task's turn comes. |
| `Watching.ReuseDecides` | WASMCadidumKernel/src/simple_watcher.cc:112-137 | After a run without a reuse, the next call leads to a stale callback exactly when it is one. |
| `Watching.QuietAfterCancel` | WASMCadidumKernel/src/simple_watcher.cc:65-81 | After Cancel (until another Watch succeeds) or destruction no posted task runs a callback, whatever the handles. |
| `Watching.StaleRunsIffReused` | WASMCadidumKernel/src/simple_watcher.cc:119-127 | A task left from an earlier call runs its callback exactly when the trap now in place has its handle. |
| `Watching.ReusedHandleRunsOldCallback` | WASMCadidumKernel/src/simple_watcher.cc:119-127 | A run in which a reused handle brings an old callback back. |
| `Watching.SimpleWatcher.Watch` | WASMCadidumKernel/src/simple_watcher.cc:33-63 | The method takes the machine's Watch step, failed setups included. |
| `Watching.SimpleWatcher.BeginTask` | WASMCadidumKernel/src/simple_watcher.cc:123-130 | A posted task up to its callback takes the machine's step. |
| `Watching.SimpleWatcher.EndTask` | WASMCadidumKernel/src/simple_watcher.cc:131-135 | After the callback only an unchanged automatic watcher arms again. |
| `Watching.AlwaysListens` | WASMCadidumKernel/src/simple_watcher.cc:112-137 | In every run an automatic watcher that is watching and has nothing posted or running is armed. |
| `Watching.PostedRuns` | WASMCadidumKernel/src/simple_watcher.cc:112-137 | In every run a callback posted under the call in force runs when its task's turn comes. |
| `Watching.HoldsLastCallback` | WASMCadidumKernel/src/simple_watcher.cc:33-81 | In every run a watcher that is not destroyed holds the callback of the last Watch, and none after Cancel. |
| `Watching.ManualArms` | WASMCadidumKernel/src/simple_watcher.cc:83-98 | Only Arm arms a watcher that is not automatic. |
| `ConnectorRuns.DeliversInOrder` | WASMCadidumBindings/src/connector.cc:197-234 | In every run deliveries are a prefix of what the peer wrote, and the error handler ran at most once. |
| `ConnectorRuns.NoDeliveryAfterError` | WASMCadidumBindings/src/connector.cc:77-91 | Deliveries are never taken back and none starts after an error. |
| `ConnectorRuns.NothingIsMissed` | WASMCadidumBindings/src/connector.cc:39-62 | With nothing posted or running, a receiving connector has delivered everything written, and one that watches for closing has not missed it. |
| `ConnectorRuns.PeerGoneAfterAll` | WASMCadidumBindings/src/connector.cc:181-195 | An error for the peer's being gone comes after everything it wrote was delivered. |
| `ConnectorRuns.CauseHappened` | WASMCadidumBindings/src/connector.cc:77-91 | In any run an error has the event its cause names behind it: a pause, a close, a raise, a refused or unreadable message, a bad event, a failed write or the peer's closing. |
| `ConnectorRuns.ClosingDeliversAll` | WASMCadidumBindings/src/connector.cc:181-195 | In every run in which nothing but the peer's closing can raise an error, an error comes after everything written was delivered. |
| `ConnectorRuns.CleanRunSettles` | WASMCadidumBindings/src/connector.cc:39-62 | In such a run a started connector comes to rest with everything delivered, and with an error exactly when the peer is gone. |
| `ConnectorRuns.PausedIff` | WASMCadidumBindings/src/connector.cc:64-75 | In every run a connector is paused exactly when a pause has no resuming behind it. |
| `ConnectorRuns.NothingStarted` | WASMCadidumBindings/src/connector.cc:39-75 | In a run without a start or a pause the connector watches nothing and delivers nothing, whatever else happens. |
| `ConnectorRuns.ResumedReceives` | WASMCadidumBindings/src/connector.cc:69-75 | After every run whose pauses were all resumed, a connector that was started or paused at all receives, if its pipe is open and there is no error. |
| `ConnectorRuns.ResumedRunSettles` | WASMCadidumBindings/src/connector.cc:39-75 | At rest it has then delivered everything the peer wrote, and unless it was started while paused it has not missed the peer's closing. |
| `ConnectorRuns.HandlerRunsOnce` | WASMCadidumBindings/src/connector.cc:77-91 | In every run the error handler ran exactly once if it was set before the error, and otherwise not at all. |
| `ConnectorRuns.TroubleIsAnError` | WASMCadidumBindings/src/connector.cc:19-37 | After a raise, a failed write, a refused message or a bad event in any run, the connector has its error. |
| `ConnectorRuns.DeliveredCanBeRead` | WASMCadidumBindings/src/connector.cc:205-220 | In every run only messages that can be read are delivered; one that cannot, once taken, is behind an error. |
| `ConnectorRuns.ClosingIsNoticed` | WASMCadidumBindings/src/connector.cc:39-62 | In every run that never starts a paused connector, one that rests receiving has not missed the peer's closing. |
| `ConnectorRuns.StartedPausedMisses` | WASMCadidumBindings/src/connector.cc:181-190 | The condition is needed after every run: a resting paused connector that is started, and resumed after its peer closed, stays receiving without an error. |
| `ConnectorRuns.StartDecides` | WASMCadidumBindings/src/connector.cc:39-62 | After any run without a paused start that rests on an open, empty pipe, the next event can lead, without another paused start, to a missed closing exactly when it is a paused start. |
| `ConnectorRuns.PausedBeforeStarting` | WASMCadidumBindings/src/connector.cc:181-190 | The shortest such run. |
| `ConnectorHistory.StepBlamed` | WASMCadidumBindings/src/connector.cc:77-91 | Every event keeps the account of what can have caused an error. |
| `ConnectorHistory.StepAttentive` | WASMCadidumBindings/src/connector.cc:181-190 | Every event but the start of a paused connector keeps a spent closing watcher inside its drain. |
| `ConnectorRuns.ClosingDrain` | WASMCadidumBindings/src/connector.cc:181-195 | In any run, when a delivery of the drain that closing began returns, the error comes before the rest exactly when the message was refused, the next one cannot be read, or the connector was paused or closed. |
| `ConnectorRuns.PausingLosesTheRest` | WASMCadidumBindings/src/connector.cc:181-195 | A run in which pausing during that drain loses a buffered message behind the error. |
| `ConnectorInvariant.StepKeeps` | WASMCadidumBindings/src/connector.cc:170-234 | Every event, re-entrant ones included, keeps message order, the error state and the no-lost-wake-up invariant of both watchers. |
| `Connectors.Connector.StartReceiving` | WASMCadidumBindings/src/connector.cc:39-62 | The method takes the machine's step. |
| `Connectors.Connector.RaiseError` | WASMCadidumBindings/src/connector.cc:77-91 | The method takes the machine's step, the handler being called at most once. |
| `Connectors.Connector.ReadNext` | WASMCadidumBindings/src/connector.cc:197-220 | One turn of the read loop takes the machine's step. |
| `Connectors.Connector.ReceiverReturned` | WASMCadidumBindings/src/connector.cc:221-232 | What follows a delivery takes the machine's step. |
| `Connectors.Connector.HandlerReturned` | WASMCadidumBindings/src/connector.cc:88-91 | What follows the error handler takes the machine's step. |
| `Connectors.Connector.OnReadable` | WASMCadidumBindings/src/connector.cc:170-179 | The method takes the machine's step. |
| `Connectors.Connector.OnPeerClosed` | WASMCadidumBindings/src/connector.cc:181-195 | The method takes the machine's step. |
| `Connectors.Connector.ResumeIncomingMethodCallProcessing` | WASMCadidumBindings/src/connector.cc:69-75 | The method takes the machine's step. |
| `Connectors.Connector.Accept` | WASMCadidumBindings/src/connector.cc:19-37 | An outgoing message is accepted exactly on an open pipe without an error when the write succeeds; a failed write raises the error. |

## Left out

- Emission of C++ text, include lists, proxies and stubs, JavaScript headers and build files.
- Typemaps and `NativeTraits`, enum extensibility and handle context across files; one module is
  modelled, and extensibility is keyed by an enum's bare name as in the generator.
- Parameter versions and the dispatch code around parameter lists.
- Line numbers and error texts of the lexer and the parser.
- `Filtering.FilteredThins`: `ApplyEnableIf` is modelled on values, not by erasing in place, and
  without constants and features, which carry no types.
- `RoundTrip.RoundTrip`: encodings of 2^32 bytes and more, whose recorded sizes no longer fit.
- `HandleContext.CompilesIffPlain`: whether a key type has the comparison its map asks for.
- `Skew.RightHandles`: where maps are keyed by structs or unions only one direction is stated, since a
  lost entry may hide a handle.
- `Signatures.TypeIntern.InternKey`: tables of 2^32 - 1 keys and more, where ids would wrap.
- `TypeParser.Parser.ParseTypeSpecInner`: how the pre-scan fills the tables of declared names.
- `Loader.LoadModuleGraph`: the texts reported for skipped files, and what `[EnableIf]` does to a loaded
  module.
- `Paths.NormalizePath`: `isalpha` is taken as the ASCII letters.
- `ConnectorRuns.NothingIsMissed`: destroying a connector during a delivery, `SyncWaitFor`, timeouts and
  quotas are not part of the machine.
- The interface generator for other back ends, the thunk layer, the JavaScript wrappers, the browser and
  the scripts.
