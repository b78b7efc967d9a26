# Netife dispatcher: a verified model

This project models the parts of the Netife dispatcher that carry its logic and proves what they promise, in Dafny.
`dafny verify dfyconfig.toml` checks everything.

- **The message codec.** `Wire` holds varints, tags, length-delimited payloads and the tag loop of the Protocol Buffers
  Encoding document, and `WireGrammar` says without reading which bytes these are; `Fields` the kinds of field and the routines that write them; `UnknownFields` what any message
  does with records it has no field for; `NamedFields` what it takes from an input that names some of its fields.
  `ProbeRequest`, `PluginCommand` and `ScriptCommand` say which message a byte string stands for and what a message prints. `NetifeProbeRequest.Message`,
  `PluginCommand.NetifePluginCommandRequest` and `ScriptCommand.NetifeScriptCommandRequest` are the generated classes:
  their parse loops, printers, size computations, merges and copies change fields as the generated code does and are
  proved against those values.
- **The asynchronous call** (`ActiveCall`). The calling thread and the pool thread as a step machine over all
  interleavings, with the reference counts of the runnable and of the result holder.
- **Reference-counted handles** (`AutoPtr`). `Owners` is a ghost ledger of who owns what; every handle operation keeps
  each object's count equal to the ledger. `Step` says what a program's operations do to the ledger, raw references
  included, and `Run` that the objects follow.
- **The expiring cache** (`ExpireCache`). The data map and the strategy's two indexes, kept in step by events, against
  one timed table from keys to last value and last access.
- **The bidirectional stream buffer** (`StreamBuf`), **log rotation** (`ArchiveStrategy`), **the splitters**
  (`TextHelper`), **the quoted-argument tokenizer** (`QuotedArguments`).
- **The interception pipeline** (`ProcessProbe`). Plugins, scripts and the front end are arbitrary functions that may
  change, approve, veto, stay silent or throw; a run leaves a trace of every call, and the laws speak about traces.
  `ProbeOutcome` says from the answers of the plugins alone what is uploaded, written and decided.

Clocks, devices, the answers of plugins, scripts and servers, and whether parser input is at hand are arbitrary:
parameters, functions given to an object, or nondeterministic choices inside a method.

## Where the code differs from what it says

- `archive` promises that a number is appended to the *log's* new name when the stamped name is taken
  (`lib/Poco/ArchiveStrategy.h:92-107`). The code renumbers the existing archives and leaves the log where it is.
  `ArchiveStrategy.LogMovesExactlyWhenStampIsFree` gives the exact condition, `CollisionLeavesLog` an instance.
- A quoted argument of a single word keeps its closing quote and swallows what follows
  (`utils/TextHelper.cpp:66-77`): `QuotedArguments.ArgumentsInvertQuoting` holds exactly without such phrases,
  `SingleWordPhraseSwallows` is an instance.
- A line whose first word ends in a quote without starting with one appends to the back of an empty vector
  (`utils/TextHelper.cpp:72-76`): `QuotedArguments.UndefinedExactly`, with `ClosingQuoteFirst`.
- The address and port of a response are exchanged on the way to the caller
  (`gRpcServices/NetifeServiceImpl.cpp:258-263`): `ProcessProbe.ResponseIdentity`, with `ResponseIsCrossed`.
- At an end-of-file the putback characters have already been moved while the pointers stay
  (`lib/Poco/BufferedBidirectionalStreamBuf.h:96-99`): `StreamBuf.EofKeepsPutback` says when that is harmless,
  `EofDisturbsPutback` shows a stream where it is not.
- An explicitly encoded default overwrites on parse, while merging a default does nothing, so parsing onto a message
  is not always merging: `ParseIsMergeExactly` of each message has the exact condition,
  `ProbeRequest.ExplicitDefaultOverwrites` an instance. For printed right operands it always is.

## Model

| member | source | states |
|---|---|---|
| Wire.VarintRoundTrip | gRpcModel/NetifeMessage.pb.cc:931-934 | A printed varint is read back with its length, whatever bytes follow, within any limit that fits it |
| Wire.Int32RoundTrip | gRpcModel/NetifeMessage.pb.cc:1150-1154 | A negative int32 is sign-extended to 64 bits on the wire and truncated back to itself |
| Wire.VarintSizeIsLength | gRpcModel/NetifeMessage.pb.cc:1261-1277 | The computed size of a varint is the number of bytes printed |
| Wire.VarintSizeBounds | gRpcModel/NetifeMessage.pb.cc:1261-1277 | A varint takes k + 1 bytes exactly when it lies in the k-th 7-bit range |
| Wire.DecodeUses | gRpcModel/NetifeMessage.pb.cc:931-934 | A varint read takes at least the bytes its value needs, overlong ones more |
| Wire.NegativeInt32TakesTenBytes | gRpcModel/NetifeMessage.pb.cc:1284-1287 | Negative enum and int32 values take ten bytes |
| Wire.TagRoundTrip | gRpcModel/NetifeMessage.pb.cc:916-918 | A printed tag is read back by the tag reader, whatever follows |
| Wire.PayloadRoundTrip | gRpcModel/NetifeMessage.pb.cc:922-925 | Every payload kind is read back from its print, and nothing beyond it is consumed |
| Wire.LongChunkIsRefused | gRpcModel/NetifeMessage.pb.cc:923-924 | A length prefix of 2 GiB or more is refused, whatever follows |
| Wire.ParseOne | gRpcModel/NetifeMessage.pb.cc:915-1057 | One printed record is consumed by one turn of the loop |
| Wire.ParseEncoded | gRpcModel/NetifeMessage.pb.cc:915-1057 | Printed records in front of any input are folded in order, then parsing goes on with the input |
| Wire.ParseKeeps | gRpcModel/NetifeMessage.pb.cc:915-1057 | What every switch case keeps, the loop keeps on every input |
| Wire.ParseIsFold | gRpcModel/NetifeMessage.pb.cc:915-1057 | The one-pass loop completes exactly when the input splits into records and folding them succeeds, with the same message |
| Wire.RecordsRoundTrip | gRpcModel/NetifeMessage.pb.cc:1186-1189 | Splitting printed records gives the records back |
| WireGrammar.DecodeVarintExactly | gRpcModel/NetifeMessage.pb.cc:931-934 | A read succeeds exactly on bytes that continue until one below 128, within the limit, overlong or not, and gives the number their seven-bit groups add up to |
| WireGrammar.ToInt32Exactly | gRpcModel/NetifeMessage.pb.cc:931-934 | The int taken from a 64-bit value is the one congruent to it |
| WireGrammar.ReadPayloadExactly | gRpcModel/NetifeMessage.pb.cc:922-925 | Each payload is read exactly where its bytes stand, canonical or not |
| WireGrammar.RecordsOfExactly | gRpcModel/NetifeMessage.pb.cc:915-1057 | The inputs made of records are exactly the runs of record bytes, told without the readers |
| WireGrammar.StopsExactly | gRpcModel/NetifeMessage.pb.cc:1046-1050 | The loop stops early exactly at the first tag that is zero or ends a group, behind accepted records, with their message and the rest of the input |
| Utf8.IsUtf8Exactly | gRpcModel/NetifeMessage.pb.cc:1013-1022 | The check on named strings accepts exactly the encodings of texts of Unicode scalar values |
| UnknownFields.FoldUnnamed | gRpcModel/NetifeMessage.pb.cc:1046-1057 | Records no case names pass through any switch untouched and in order |
| UnknownFields.AcceptedInputs | gRpcModel/NetifeMessage.pb.cc:915-1057 | For any switch: accepted is exactly what splits into records it accepts, and the records it does not name are kept behind the old ones in order |
| NamedFields.FoldOver | gRpcModel/NetifeMessage.pb.cc:915-1057 | For any switch that takes named fields over: parsing onto a message puts the named fields of what the input stands for alone over it, and fails together with it |
| Fields.WriteText | gRpcModel/NetifeMessage.pb.cc:1073-1081 | An implicit-presence string is appended, or nothing when empty |
| Fields.WriteOptionalText | gRpcModel/NetifeMessage.pb.cc:1166-1184 | A string with presence is printed exactly when present, also when empty |
| Fields.WriteEnum | gRpcModel/NetifeMessage.pb.cc:1083-1102 | A nonzero enum is printed, sign-extended |
| Fields.WriteOptionalInt32 | gRpcModel/NetifeMessage.pb.cc:1150-1154 | A present int32 is printed, also when zero |
| Fields.WriteBool | gRpcModel/NetifeMessage.pb.cc:1144-1148 | A true bool is printed as one byte |
| Fields.WriteUnknown | gRpcModel/NetifeMessage.pb.cc:1186-1189 | Unknown records are printed in their order |
| Fields.UnknownSize | gRpcModel/NetifeMessage.pb.cc:1289 | Their size is the length of that print |
| Fields.Printed | gRpcModel/NetifeMessage.pb.cc:1067-1192 | For any message: printing one more field behind the earlier ones leaves exactly the later ones to print |
| Fields.FieldStep | gRpcModel/NetifeMessage.pb.cc:1194-1290 | For any message: its print is as long as one field and the print of the later ones |
| ProbeRequest.ParseSerialized | gRpcModel/NetifeMessage.pb.cc:912-1065 | Parsing the print of b followed by any input, on top of any m, is parsing that input on top of the merge of m and b |
| ProbeRequest.RoundTrip | gRpcModel/NetifeMessage.pb.cc:1067-1192 | Parsing the print of b onto m gives exactly the merge, presence and unknown fields included; onto a cleared message it gives b |
| ProbeRequest.SerializeInjective | gRpcModel/NetifeMessage.pb.cc:1067-1192 | Different messages print differently |
| ProbeRequest.ParseIsWellFormed | gRpcModel/NetifeMessage.pb.cc:912-1065 | The parser only builds messages the printer can represent |
| ProbeRequest.Reparse | gRpcModel/NetifeMessage.pb.cc:912-1065 | For every accepted byte string, printing the result and parsing again gives the same message |
| ProbeRequest.AcceptedInputs | gRpcModel/NetifeMessage.pb.cc:1046-1057 | An input is accepted exactly when it splits into records and every named string is UTF-8; unnamed records, known numbers with another wire type among them, are kept in order |
| ProbeRequest.TextByTag | gRpcModel/NetifeMessage.pb.cc:920-1045 | Each string field is set by its own tag byte, whatever the message and whatever follows |
| ProbeRequest.BadTextByTag | gRpcModel/NetifeMessage.pb.cc:1013-1022 | A named string that is not UTF-8 fails the parse |
| ProbeRequest.NumberByTag | gRpcModel/NetifeMessage.pb.cc:929-1011 | Each number field is set by its own tag byte from any 64-bit value, cut to 32 bits or tested for zero |
| ProbeRequest.SerializeIs | gRpcModel/NetifeMessage.pb.cc:1067-1192 | The print byte by byte: literal tags in the order of the field numbers, defaults and absent fields skipped, unknown records last |
| ProbeRequest.ParseTwoSerialized | gRpcModel/NetifeMessage.pb.cc:912-1065 | Two prints back to back merge left to right |
| ProbeRequest.MergeFromIsMerge | gRpcModel/NetifeMessage.pb.cc:1299-1350 | Merging field after field in print order is the merge of all fields at once |
| ProbeRequest.MergeIntoCleared | gRpcModel/NetifeMessage.pb.cc:1352-1357 | Merging into a cleared message copies |
| ProbeRequest.ParseIsOverlay | gRpcModel/NetifeMessage.pb.cc:912-1065 | For every accepted input and message: the fields the input names come from what it stands for alone, the others stay |
| ProbeRequest.ParseIsMergeExactly | gRpcModel/NetifeMessage.pb.cc:912-1065 | For every accepted input and message: parsing onto the message is merging what the input stands for exactly when no field without presence that the input names and leaves at its default has another value in the message |
| ProbeRequest.ExplicitDefaultOverwrites | gRpcModel/NetifeMessage.pb.cc:930-937 | An instance where it is not: an encoded zero resets an enum on parse, which merging a zero does not |
| NetifeProbeRequest.Message.Clear | gRpcModel/NetifeMessage.pb.cc:883-910 | Clearing leaves the default message, optional strings included |
| NetifeProbeRequest.MergeFields | gRpcModel/NetifeMessage.pb.cc:1306-1348 | The assignments under the presence bits give the merge of the two values |
| NetifeProbeRequest.Message.MergeImpl | gRpcModel/NetifeMessage.pb.cc:1299-1350 | The message becomes the merge, unknown fields appended |
| NetifeProbeRequest.Message.CopyFrom | gRpcModel/NetifeMessage.pb.cc:1352-1357 | After a copy the message equals the other, from any state and also onto itself |
| NetifeProbeRequest.Message.InternalSerialize | gRpcModel/NetifeMessage.pb.cc:1067-1192 | The printer appends exactly the print of the message's value |
| NetifeProbeRequest.Message.ByteSizeLong | gRpcModel/NetifeMessage.pb.cc:1194-1290 | The size, summed in another order, is the number of bytes the printer writes |
| NetifeProbeRequest.Message.ParseText | gRpcModel/NetifeMessage.pb.cc:920-928 | A string case consumes one chunk, sets the field and its presence bit, and fails exactly on a bad chunk or bad UTF-8 |
| NetifeProbeRequest.Message.ParseVarint | gRpcModel/NetifeMessage.pb.cc:929-955 | A varint case sets the field, with the presence of uuid_sub kept in the local bits |
| NetifeProbeRequest.Message.UnknownFieldParse | gRpcModel/NetifeMessage.pb.cc:1052-1056 | A record the switch does not name is appended whole to the unknown fields |
| NetifeProbeRequest.Message.ParseField | gRpcModel/NetifeMessage.pb.cc:915-1057 | A turn of the loop leaves as much to parse as the specification says |
| NetifeProbeRequest.Message.InternalParse | gRpcModel/NetifeMessage.pb.cc:912-1065 | On every input the loop ends, with the status, the position and the message of the specification |
| PluginCommand.ParseSerialized | gRpcModel/NetifeMessage.pb.cc:3131-3214 | Parsing a printed command before any input and on any message merges it |
| PluginCommand.RoundTrip | gRpcModel/NetifeMessage.pb.cc:3216-3274 | Parsing a print onto m gives the merge, onto a cleared message the command itself |
| PluginCommand.ParseTwoSerialized | gRpcModel/NetifeMessage.pb.cc:3339 | Two prints back to back have the parameters of the first followed by those of the second |
| PluginCommand.Reparse | gRpcModel/NetifeMessage.pb.cc:3131-3214 | Every accepted input survives printing and parsing again |
| PluginCommand.AcceptedInputs | gRpcModel/NetifeMessage.pb.cc:3131-3214 | Accepted is exactly what splits into records with UTF-8 in every named string; unnamed records are kept in order |
| PluginCommand.FieldByTag | gRpcModel/NetifeMessage.pb.cc:3131-3214 | Each field is set by its own tag byte; a parameter is appended |
| PluginCommand.SerializeIs | gRpcModel/NetifeMessage.pb.cc:3216-3274 | The print byte by byte, with every parameter under its tag in order |
| PluginCommand.ParseIsOverlay | gRpcModel/NetifeMessage.pb.cc:3131-3214 | For every accepted input and message: the fields the input names come from what it stands for alone, the others stay |
| PluginCommand.ParseIsMergeExactly | gRpcModel/NetifeMessage.pb.cc:3131-3214 | For every accepted input and message: parsing onto the message is merging what the input stands for exactly when no field without presence that the input names and leaves at its default has another value in the message |
| PluginCommand.FoldParams | gRpcModel/NetifeMessage.pb.cc:3158-3172 | Reading printed parameters appends them in order |
| PluginCommand.WriteParams | gRpcModel/NetifeMessage.pb.cc:3242-3250 | Every parameter is printed, empty ones too |
| PluginCommand.NetifePluginCommandRequest.ParseParams | gRpcModel/NetifeMessage.pb.cc:3158-3172 | Whatever DataAvailable answers, the fast loop leaves the parse where reading one record at a time would |
| PluginCommand.NetifePluginCommandRequest.InternalParse | gRpcModel/NetifeMessage.pb.cc:3131-3214 | Status, position and message are those of the one-record-at-a-time specification |
| PluginCommand.NetifePluginCommandRequest.InternalSerialize | gRpcModel/NetifeMessage.pb.cc:3216-3274 | The printer appends exactly the print of the value |
| PluginCommand.NetifePluginCommandRequest.ByteSizeLong | gRpcModel/NetifeMessage.pb.cc:3276-3322 | The size is the number of bytes printed |
| PluginCommand.NetifePluginCommandRequest.Clear | gRpcModel/NetifeMessage.pb.cc:3113-3129 | Clearing leaves the default command |
| PluginCommand.NetifePluginCommandRequest.MergeImpl | gRpcModel/NetifeMessage.pb.cc:3331-3357 | Parameters are appended, other fields merged |
| PluginCommand.NetifePluginCommandRequest.CopyFrom | gRpcModel/NetifeMessage.pb.cc:3359-3364 | After a copy the command equals the other, also onto itself |
| ScriptCommand.EntryRoundTrip | gRpcModel/NetifeMessage.pb.cc:5162 | A map entry, printed with both halves, is read back |
| ScriptCommand.ParseSerialized | gRpcModel/NetifeMessage.pb.cc:5130-5190 | In whatever order the entries are printed, parsing merges the message, before any further input |
| ScriptCommand.RoundTrip | gRpcModel/NetifeMessage.pb.cc:5192-5254 | Any entry order parses back to the same map; on another message it merges |
| ScriptCommand.ParseIsStorable | gRpcModel/NetifeMessage.pb.cc:5130-5190 | The parser only builds printable strings, keys and values, and keeps unnamed records unknown |
| ScriptCommand.ReparseBelowLimit | gRpcModel/NetifeMessage.pb.cc:5130-5190 | Every accepted input below 2 GiB, with its entries printed in any order, parses again to the same message |
| ScriptCommand.EntryPrintsShort | gRpcModel/NetifeMessage.pb.cc:5162 | A parsed entry prints in at most four bytes more than the chunk it came in |
| ScriptCommand.Reparse | gRpcModel/NetifeMessage.pb.cc:5156-5168 | For accepted inputs of any length and any entry order, printing and parsing again gives the same message exactly when every entry, with both halves written, stays below 2 GiB |
| ScriptCommand.UnfitInputExists | gRpcModel/NetifeMessage.pb.cc:5162 | The boundary: an input of 2 GiB and four bytes whose entry does not fit |
| ScriptCommand.AcceptedInputs | gRpcModel/NetifeMessage.pb.cc:5130-5190 | Accepted is exactly what splits into records with UTF-8 strings and well-formed entries; unnamed records are kept in order |
| ScriptCommand.FieldByTag | gRpcModel/NetifeMessage.pb.cc:5130-5190 | Each string field is set by its own tag byte, and an entry puts its value at its key; bad UTF-8 and bad entries fail the parse |
| ScriptCommand.ParseEntryExactly | gRpcModel/NetifeMessage.pb.cc:5162 | Which bytes are an entry and which: the last key and the last value count, in any order, a missing half is empty, other records are dropped |
| ScriptCommand.SerializeIs | gRpcModel/NetifeMessage.pb.cc:5192-5254 | The print byte by byte for a given order of the entries |
| ScriptCommand.ParseIsOverlay | gRpcModel/NetifeMessage.pb.cc:5130-5190 | For every accepted input and message: the fields the input names come from what it stands for alone, the others stay |
| ScriptCommand.ParseIsMergeExactly | gRpcModel/NetifeMessage.pb.cc:5130-5190 | For every accepted input and message: parsing onto the message is merging what the input stands for exactly when no field without presence that the input names and leaves at its default has another value in the message |
| ScriptCommand.UnfitIsRefused | gRpcModel/NetifeMessage.pb.cc:5162-5163 | A printed entry of 2 GiB or more fails the parse |
| ScriptCommand.MergeOverridesSharedKeys | gRpcModel/NetifeMessage.pb.cc:5305 | A merge has the keys of both, overrides exactly the shared ones and keeps the others |
| ScriptCommand.SameLengthInAnyOrder | gRpcModel/NetifeMessage.pb.cc:5264-5271 | Every entry order prints the same number of bytes |
| ScriptCommand.SortedOrderIsUnique | gRpcModel/NetifeMessage.pb.cc:5235-5239 | A set of keys has one sorted order, so deterministic output is determined |
| ScriptCommand.KeyLeExactly | gRpcModel/NetifeMessage.pb.cc:5235-5239 | Key order puts a prefix first and otherwise the key with the smaller byte at the first difference |
| ScriptCommand.PrintedIsParsed | gRpcModel/NetifeMessage.pb.cc:5218-5246 | Whatever the printer chose, the output parses to the merge, has one length, and is unique when deterministic |
| ScriptCommand.WriteEntries | gRpcModel/NetifeMessage.pb.cc:5235-5245 | The loops print every entry once, in key order when that is asked for |
| ScriptCommand.NetifeScriptCommandRequest.ParseParams | gRpcModel/NetifeMessage.pb.cc:5156-5168 | The fast loop over entries agrees with reading one record at a time |
| ScriptCommand.NetifeScriptCommandRequest.InternalParse | gRpcModel/NetifeMessage.pb.cc:5130-5190 | Status, position and message are those of the specification |
| ScriptCommand.NetifeScriptCommandRequest.InternalSerialize | gRpcModel/NetifeMessage.pb.cc:5192-5254 | The output is the message with its entries in some order, in key order when deterministic |
| ScriptCommand.NetifeScriptCommandRequest.ByteSizeLong | gRpcModel/NetifeMessage.pb.cc:5256-5288 | The size is right for every order the printer may choose |
| ScriptCommand.NetifeScriptCommandRequest.Clear | gRpcModel/NetifeMessage.pb.cc:5118-5128 | Clearing leaves the default message |
| ScriptCommand.NetifeScriptCommandRequest.MergeImpl | gRpcModel/NetifeMessage.pb.cc:5297-5313 | The message becomes the merge |
| ScriptCommand.NetifeScriptCommandRequest.CopyFrom | gRpcModel/NetifeMessage.pb.cc:5315-5320 | After a copy the message equals the other, also onto itself |
| ActiveCall.RunKeepsInv | lib/Poco/ActiveMethod.h:87-94 | Every step of either thread keeps the invariant tying both counts to their owners |
| ActiveCall.RunnableIsSafe | lib/Poco/ActiveRunnable.h:58-78 | In every interleaving nothing is used after it was freed; the runnable is freed at most once, exactly when starter copy, caller local and worker guard have let go |
| ActiveCall.AliveWhenUsed | lib/Poco/ActiveRunnable.h:58-78 | Whenever the next step of a thread uses the runnable, or anyone may use the holder, it has not been freed |
| ActiveCall.RunnableIsFreed | lib/Poco/ActiveStarter.h:37-41 | When both threads are through, also after a refused start, the runnable has been freed exactly once and only handed-out results hold the holder |
| ActiveCall.HolderLivesWithResults | lib/Poco/ActiveResult.h:244-262 | The holder's count is the number of live results and it is freed exactly when that is zero |
| ActiveCall.WaitMeansOutcome | lib/Poco/ActiveResult.h:62-87 | Once a wait has returned there is exactly one of data and error, that of the method, and one notification |
| ActiveCall.EnabledExactly | lib/Poco/ActiveResult.h:62-66 | In every reachable state a wait can return exactly when a result is held and the worker has notified; and when every other step can be taken |
| ActiveCall.UsersOnlyCount | lib/Poco/ActiveResult.h:244-262 | Copying and dropping a result change the count and nothing else, a returning wait only that it has returned |
| ActiveCall.WaitCanReturn | lib/Poco/ActiveResult.h:62-66 | From every reachable state with a result held or still to come the threads can go on until a wait returns with the outcome of the method |
| ActiveCall.OutcomeIsFinal | lib/Poco/ActiveResult.h:56-60 | After the notification data and error never change and there is no second notification |
| ActiveCall.RankDecreases | lib/Poco/ActiveMethod.h:87-94 | Every thread step uses up a finite number of steps that users of the result cannot raise |
| ActiveCall.ThreadStepsBounded | lib/Poco/ActiveMethod.h:87-94 | In every run the two threads together take at most as many steps as the rank the run starts with |
| ActiveCall.SomeThreadCanStep | lib/Poco/ActiveRunnable.h:58-78 | No deadlock: until both threads are through, one can step |
| ActiveCall.ThreadsFinish | lib/Poco/ActiveRunnable.h:58-78 | From every reachable state the threads can finish, and then the runnable is gone |
| ActiveCall.WorkerFirst | lib/Poco/ActiveStarter.h:37-41 | When the worker ends before its reference is taken the runnable is alive with a count of one |
| AutoPtr.RefCounted.Duplicate | lib/Poco/RefCountedObject.h:72-75 | The count goes up by one on an object not yet destroyed |
| AutoPtr.RefCounted.Release | lib/Poco/RefCountedObject.h:78-88 | The count goes down by one and the object is destroyed exactly at zero |
| AutoPtr.AutoPtr.constructor | lib/Poco/AutoPtr.h:69-71 | A raw reference is taken over: the count stays, its owner changes |
| AutoPtr.AutoPtr.Shared | lib/Poco/AutoPtr.h:73-76 | A shared construction adds a reference |
| AutoPtr.AutoPtr.Copy | lib/Poco/AutoPtr.h:78-81 | A copy adds a reference |
| AutoPtr.AutoPtr.Move | lib/Poco/AutoPtr.h:83-86 | A move construction empties its source and counts nothing |
| AutoPtr.AutoPtr.Destroy | lib/Poco/AutoPtr.h:94-97 | A destroyed handle leaves the ledger and every count stays right |
| AutoPtr.AutoPtr.AssignRaw | lib/Poco/AutoPtr.h:99-107 | A raw reference is taken over, except for the object already held |
| AutoPtr.AutoPtr.AssignShared | lib/Poco/AutoPtr.h:109-118 | A shared raw pointer adds a reference and drops the old one |
| AutoPtr.AutoPtr.Assign | lib/Poco/AutoPtr.h:120-129 | Releasing before duplicating is safe, also when both handles share the object and for self-assignment |
| AutoPtr.AutoPtr.AssignOther | lib/Poco/AutoPtr.h:131-141 | The same for a handle of another type, compared by object |
| AutoPtr.AutoPtr.Reset | lib/Poco/AutoPtr.h:143-150 | The handle is emptied and its reference released |
| AutoPtr.AutoPtr.MoveAssign | lib/Poco/AutoPtr.h:183-189 | A move between handles keeps the ledger; onto itself it releases once and leaves the handle empty |
| AutoPtr.AutoPtr.Swap | lib/Poco/AutoPtr.h:197-200 | A swap exchanges the objects and changes no count |
| AutoPtr.TwoHandles | lib/Poco/AutoPtr.h:120-129 | Two handles on one object account for two references |
| AutoPtr.MoveAll | lib/Poco/AutoPtr.h:183-189 | A move takes from each object exactly what the receiving handle held, also onto itself |
| AutoPtr.AutoPtr.ReleaseThenShare | lib/Poco/AutoPtr.h:124-126 | Release before duplicate keeps the ledger as long as another reference keeps a shared object alive |
| AutoPtr.DuplicateRaw | lib/Poco/ActiveStarter.h:40 | A reference taken through a raw pointer is one more owned outside the handles |
| AutoPtr.ReleaseRaw | lib/Poco/RefCountedObject.h:78-88 | A reference given up through a raw pointer is one less, and the object dies exactly with the last one of any kind |
| AutoPtr.CountIs | lib/Poco/RefCountedObject.h:59 | In every state of a program an object's count is the number of handles on it plus the raw references, and zero exactly if it is destroyed |
| AutoPtr.ReferencesConserved | lib/Poco/AutoPtr.h:65-200 | How many references each object gains or loses by each operation: moves, exchanges and raw references taken over create and lose none |
| AutoPtr.HandlesAfter | lib/Poco/AutoPtr.h:99-200 | Where every handle points after an operation between two handles, a handle and itself included |
| AutoPtr.FaultsExactly | lib/Poco/AutoPtr.h:65-200 | A program is at fault exactly with a handle that is not there, a reference it does not own, or an object with no reference left |
| AutoPtr.DeadStaysDead | lib/Poco/RefCountedObject.h:78-88 | No operation of such a program gives a destroyed object a reference again |
| AutoPtr.Run | lib/Poco/AutoPtr.h:65-200 | Over any program of object creations, handle constructions of every kind, assignments, moves, swaps, resets, destructions and duplicated and released raw references that spends only references it owns, each count is handles plus raw references and an object is destroyed exactly at zero |
| AutoPtr.NothingLeaks | lib/Poco/AutoPtr.h:94-97 | When no handle and no raw reference is left, every object has been destroyed |
| ExpireCache.InsertKeepsOk | lib/Poco/ExpireStrategy.h:60-72 | Adding a new key keeps key map and time index mutually inverse and the index sorted |
| ExpireCache.EraseKeepsOk | lib/Poco/ExpireStrategy.h:74-82 | So does removing a key |
| ExpireCache.ReplaceKeepsOk | lib/Poco/AccessExpireStrategy.h:58-65 | So does replacing a key's element, whichever of erasing and inserting comes first |
| ExpireCache.AccessExpireStrategy.OnAdd | lib/Poco/ExpireStrategy.h:60-72 | The key gets the present time, once in each index |
| ExpireCache.AccessExpireStrategy.OnRemove | lib/Poco/ExpireStrategy.h:74-82 | The key leaves both indexes, and an unknown key changes nothing |
| ExpireCache.AccessExpireStrategy.OnUpdate | lib/Poco/AbstractStrategy.h:43-48 | The default update gives the key the present time |
| ExpireCache.AccessExpireStrategy.OnGet | lib/Poco/AccessExpireStrategy.h:52-67 | A read access renews an entry that has not expired by then and no other |
| ExpireCache.AccessExpireStrategy.OnIsValid | lib/Poco/ExpireStrategy.h:95-107 | A key is valid exactly when known and not expired at the time of the check |
| ExpireCache.AccessExpireStrategy.OnReplace | lib/Poco/ExpireStrategy.h:109-120 | The keys collected include all that were expired at the start and only ones expired at the end |
| ExpireCache.AccessExpireStrategy.OnClear | lib/Poco/ExpireStrategy.h:89-93 | Both indexes are emptied |
| ExpireCache.AccessExpireCache.DoRemove | lib/Poco/AbstractCache.h:292-301 | The key leaves data and strategy together |
| ExpireCache.AccessExpireCache.DoReplace | lib/Poco/AbstractCache.h:355-368 | What was expired at the start is gone; only what is expired at the end is |
| ExpireCache.AccessExpireCache.Add | lib/Poco/AbstractCache.h:224-236 | The table gets the value at a time within the call, then a purge |
| ExpireCache.AccessExpireCache.Update | lib/Poco/AbstractCache.h:252-270 | The same as a table step, though the entry is overwritten in place |
| ExpireCache.AccessExpireCache.RemoveKey | lib/Poco/AbstractCache.h:114-121 | The table loses the key, and the clock has not gone back |
| ExpireCache.AccessExpireCache.HasKey | lib/Poco/AbstractCache.h:303-318 | A key found was there and not expired when the call began, a key not found was missing or expired when it ended; the table stays |
| ExpireCache.AccessExpireCache.GetValue | lib/Poco/AbstractCache.h:320-346 | A returned value is the last one put, was not expired when the call began, and its access time is renewed; otherwise the key is gone |
| ExpireCache.AccessExpireCache.ClearAll | lib/Poco/AbstractCache.h:348-353 | The table is emptied, and the clock has not gone back |
| ExpireCache.AccessExpireCache.Size | lib/Poco/AbstractCache.h:146-152 | The number of entries after a purge, at a time not before the call |
| ExpireCache.AccessExpireCache.GetAllKeys | lib/Poco/AbstractCache.h:165-177 | The keys after a purge, at a time not before the call |
| ExpireCache.AccessExpireCache.ForceReplace | lib/Poco/AbstractCache.h:154-163 | A purge and nothing else |
| ExpireCache.DeadStays | lib/Poco/AccessExpireStrategy.h:58-65 | No operation but a put revives a key that is absent or expired |
| ExpireCache.ExpiredStaysExpired | lib/Poco/AccessExpireStrategy.h:58-65 | In every run, from any point on at which a key is expired or gone and until it is put again, it stays so and every get and has says so |
| ExpireCache.GetReturnsLastPut | lib/Poco/AbstractCache.h:320-346 | In every run a value a get returns is the one put last for the key |
| ExpireCache.HeldIsAnswered | lib/Poco/AccessExpireStrategy.h:58-65 | By the clock: what was put or got less than the expiry time before an operation is over, and not removed since, is got with that value, found and listed |
| ExpireCache.GoneIsAnswered | lib/Poco/AccessExpireStrategy.h:58-65 | What was removed, or last put or got the expiry time or more before an operation begins, and not put since, is answered as absent; so is what was never put |
| ExpireCache.SizeBetween | lib/Poco/AbstractCache.h:146-152 | The size counts every key held by the clock and no key gone by it |
| ExpireCache.Perform | lib/Poco/AbstractCache.h:75-177 | Each public call does one step of the timed table and answers as it says, while time does not go back |
| ExpireCache.RunCalls | lib/Poco/AbstractCache.h:75-177 | Any sequence of calls, with any time passing in between, is a run of the timed table from the cache's table before to its table after, so the two laws above hold of the cache |
| StreamBuf.EofKeepsPutback | lib/Poco/BufferedBidirectionalStreamBuf.h:93-99 | The move at an end-of-file leaves the putback characters intact exactly when nothing was read since the refill or the refill kept none |
| StreamBuf.EofDisturbsPutback | lib/Poco/BufferedBidirectionalStreamBuf.h:93-99 | A stream that read "ab" and "c" finds the b replaced by a c after the end-of-file |
| StreamBuf.RefillOk | lib/Poco/BufferedBidirectionalStreamBuf.h:93-101 | A refill restores the get area, with min(4, consumed) characters kept, the last ones consumed |
| StreamBuf.EofOk | lib/Poco/BufferedBidirectionalStreamBuf.h:96-99 | An end-of-file keeps the pointers in order and the places from 4 on right |
| StreamBuf.KeptHolds | lib/Poco/BufferedBidirectionalStreamBuf.h:93-96 | Which characters survive the move, and that those to be kept were the last consumed |
| StreamBuf.BufferedBidirectionalStreamBuf.constructor | lib/Poco/BufferedBidirectionalStreamBuf.h:57-64 | Nothing is read, accepted or held at first |
| StreamBuf.BufferedBidirectionalStreamBuf.Underflow | lib/Poco/BufferedBidirectionalStreamBuf.h:86-105 | The next character is made available unconsumed, exactly when one is held or the device delivers; after a refill exactly min(4, consumed) characters precede it |
| StreamBuf.BufferedBidirectionalStreamBuf.Sbumpc | lib/Poco/BufferedBidirectionalStreamBuf.h:86-105 | A read character is the device's next one, none lost or repeated; a read fails exactly when nothing is held and the device, asked once, has nothing |
| StreamBuf.BufferedBidirectionalStreamBuf.Sungetc | lib/Poco/BufferedBidirectionalStreamBuf.h:101 | A step back gives the character consumed last, as long as no end-of-file has disturbed the putback area |
| StreamBuf.BufferedBidirectionalStreamBuf.Read | lib/Poco/BufferedBidirectionalStreamBuf.h:86-105 | Any number of reads across any refills gives exactly the device's characters in order, as many as asked for unless the device has answered that there is nothing |
| StreamBuf.BufferedBidirectionalStreamBuf.FlushBuffer | lib/Poco/BufferedBidirectionalStreamBuf.h:144-153 | The device is asked once for the whole pending block: success exactly when it takes it, and then it has everything accepted; failure loses nothing |
| StreamBuf.BufferedBidirectionalStreamBuf.Overflow | lib/Poco/BufferedBidirectionalStreamBuf.h:72-84 | The character is taken exactly when the device takes the block; output plus pending stays what was accepted |
| StreamBuf.BufferedBidirectionalStreamBuf.Sputc | lib/Poco/BufferedBidirectionalStreamBuf.h:72-84 | A character is refused exactly when the buffer is full and the device does not take it, and then nothing changes |
| StreamBuf.BufferedBidirectionalStreamBuf.Sync | lib/Poco/BufferedBidirectionalStreamBuf.h:107-114 | Success exactly when nothing is pending or the device takes it; everything accepted is then with the device |
| StreamBuf.RunStream | lib/Poco/BufferedBidirectionalStreamBuf.h:72-153 | Over any mix of reads, steps back, writes and flushes: every character read or stepped back to is the device's at the read position, until the first end-of-file and after it as long as no step back enters the disturbed places; output plus pending is always what was accepted; a device that takes every block is never reported as refusing, and one that delivers while it can ends only at its end |
| StreamBuf.RightUntilEof | lib/Poco/BufferedBidirectionalStreamBuf.h:86-105 | A run that is right while the position is outside the disturbed places is right up to the first end-of-file |
| ArchiveStrategy.NumberedInjective | lib/Poco/ArchiveStrategy.h:119-121 | Distinct numbers give distinct names, none of them the base name |
| ArchiveStrategy.DecimalReads | lib/Poco/ArchiveStrategy.h:119-121 | The number in a name is its decimal digits without leading zeros, and reads back as the number |
| ArchiveStrategy.NumberedFit | lib/Poco/ArchiveStrategy.h:117-123 | A finite file system has a free number, so the search ends |
| ArchiveStrategy.RotationLosesNothing | lib/Poco/ArchiveStrategy.h:125-138 | After a rotation every file's content is at its new place |
| ArchiveStrategy.PlacesDiffer | lib/Poco/ArchiveStrategy.h:125-138 | Distinct files get distinct places, so none is overwritten |
| ArchiveStrategy.RotationCreatesNothing | lib/Poco/ArchiveStrategy.h:125-138 | Every file afterwards was a file before |
| ArchiveStrategy.FileSystem.MoveFile | lib/Poco/ArchiveStrategy.h:104 | A rename moves an existing source, over an existing target if there is one |
| ArchiveStrategy.FileSystem.ArchiveByNumber | lib/Poco/ArchiveStrategy.h:110-139 | With n the first free number, base goes to .0, .i to .(i+1) below n, all else stays; every rename had a source and a free target |
| ArchiveStrategy.FileSystem.Archive | lib/Poco/ArchiveStrategy.h:92-107 | The log is moved to the free stamped name, or the stamped archive is renumbered; then the log is reopened |
| ArchiveStrategy.LogMovesExactlyWhenStampIsFree | lib/Poco/ArchiveStrategy.h:103-106 | The log is moved away and starts empty exactly when the stamped name was free |
| ArchiveStrategy.CollisionLeavesLog | lib/Poco/ArchiveStrategy.h:103-106 | A taken stamp: the log keeps its content |
| ArchiveStrategy.ArchiveKeeps | lib/Poco/ArchiveStrategy.h:92-139 | An archive call keeps every other file with its content, at distinct places, and adds exactly the log it moves away |
| ArchiveStrategy.KeepLog | lib/Poco/ArchiveStrategy.h:92-139 | Over any sequence of log writes and archive calls, with colliding stamps too: every file stays with its content, and the logs moved away, one after the other and then the log, are all that the log held and was written |
| TextHelper.SplitMulti | utils/TextHelper.cpp:33-45 | The loop computes the tokens between successive first occurrences |
| TextHelper.JoinTokens | utils/TextHelper.cpp:33-45 | Joining the tokens with the pattern gives the text back |
| TextHelper.TokensAreFree | utils/TextHelper.cpp:38-43 | No token contains the pattern |
| TextHelper.TokensInvertJoin | utils/TextHelper.cpp:33-45 | A list is the result for a text exactly when it joins to it and each token's first occurrence with the pattern behind it is at its end |
| TextHelper.Split | utils/TextHelper.cpp:14-31 | The loop computes the pieces of text plus pattern, throws exactly for an empty pattern on a nonempty text, and ends with the pattern minus its first character |
| TextHelper.PositionsAreOccurrences | utils/TextHelper.cpp:19-28 | The cut positions are exactly the occurrences, overlapping ones included |
| TextHelper.PositionsIncrease | utils/TextHelper.cpp:19-28 | And they come in increasing order |
| TextHelper.PiecesAreCuts | utils/TextHelper.cpp:21-28 | The tokens are the stretches between successive occurrences |
| TextHelper.SplitJoins | utils/TextHelper.cpp:14-31 | Joining the tokens with the pattern's first character gives the text back, one token for every occurrence |
| TextHelper.OneCharacterPieces | utils/TextHelper.cpp:14-45 | For a one-character pattern the two splitters agree |
| QuotedArguments.SplitByBlankWithSkipBlank | utils/TextHelper.cpp:60-85 | The loop computes the run over the words; None where the code would touch the back of an empty vector |
| QuotedArguments.UndefinedExactly | utils/TextHelper.cpp:72-76 | That happens exactly when the first word ends in a quote without starting with one |
| QuotedArguments.ArgumentsAreGathered | utils/TextHelper.cpp:60-85 | Every command line: where each argument begins, by the last word that opened or closed a phrase, and what it gathers |
| QuotedArguments.StrayClosingQuote | utils/TextHelper.cpp:72-76 | A closing quote outside of any phrase joins its word to the argument before and opens nothing |
| QuotedArguments.ClosingQuoteFirst | utils/TextHelper.cpp:72-76 | The line a" is such a case |
| QuotedArguments.WordsOfLayout | utils/TextHelper.cpp:62-65 | Extraction gives the words back whatever white space separates them |
| QuotedArguments.BlankExactly | utils/TextHelper.cpp:62-65 | White space is the space and the code points 9 to 13 |
| QuotedArguments.RunGrows | utils/TextHelper.cpp:65-83 | Once there is an argument the run is defined and arguments are only added or made longer |
| QuotedArguments.ArgumentsInvertQuoting | utils/TextHelper.cpp:60-85 | The tokenizer inverts quoting exactly when no quoted phrase is a single word |
| QuotedArguments.SingleWordPhraseSwallows | utils/TextHelper.cpp:66-77 | A quoted single word keeps its quote and takes the next word in |
| ProcessProbe.TransNetWorkRequest | gRpcServices/NetifeServiceImpl.cpp:203-256 | The message after a plugin's request is written over it: absent optionals and unknown enumerations leave the old values |
| ProcessProbe.RequestRoundTrip | gRpcServices/NetifeServiceImpl.cpp:136-256 | Translating a request for the plugins and writing it over a message gives the request back exactly when no old optional shows through and every enumeration is one the switches know or nobody overwrites it |
| ProcessProbe.ResponseIdentity | gRpcServices/NetifeServiceImpl.cpp:194-263 | A response passed through unchanged arrives as it came exactly when its address equals its port |
| ProcessProbe.ResponseIsCrossed | gRpcServices/NetifeServiceImpl.cpp:258-263 | Some response does not |
| ProcessProbe.AskLaw | plugins/v1/PluginsDispatcher.cpp:398-402 | A loop over hooks ends early only by an exception; otherwise every hook was asked, vetoes or not |
| ProcessProbe.HookAfterHooks | plugins/v1/PluginsDispatcher.cpp:398-402 | Each hook works on what all hooks before it left, and is reached only if none of them threw |
| ProcessProbe.ScriptRewrites | gRpcServices/NetifeServiceImpl.cpp:50-69 | With transparent hooks an answering script changes exactly the destination and the text, not the uuid |
| ProcessProbe.OneScriptLaw | gRpcServices/NetifeServiceImpl.cpp:33-73 | A script turn without an exception asked every entering hook, consulted the script, and asked every leaving hook exactly when it answered |
| ProcessProbe.AllScriptsLaw | plugins/v1/PluginsDispatcher.cpp:484-494 | Without an exception every matching script was consulted, and the entering hooks of all of them and the leaving hooks of all that answered were asked, whatever they approved |
| ProcessProbe.RunLaw | gRpcServices/NetifeServiceImpl.cpp:28-134 | CANCELLED exactly for a veto or a silent front end without an exception; response written exactly without veto, silence and exception; at most one upload, and one exactly without an earlier veto or exception |
| ProcessProbe.UnwrittenMeansException | gRpcServices/NetifeServiceImpl.cpp:130-133 | OK with an unwritten response exactly after an exception |
| ProcessProbe.ApprovedBeforeUpload | gRpcServices/NetifeServiceImpl.cpp:77-104 | In front of an upload every script was consulted, every entering hook, every leaving hook of the scripts that answered and every sending-out hook was asked, and nothing was refused; behind it there is no other upload |
| ProcessProbe.ReturnCount | gRpcServices/NetifeServiceImpl.cpp:114-129 | On a way back that writes the response every backing-in hook was asked |
| ProcessProbe.WrittenMeansDelivered | gRpcServices/NetifeServiceImpl.cpp:28-134 | A run that writes the response has uploaded one request, the front end answered it, every backing-in hook was asked, and no hook at all refused |
| ProcessProbe.ReturnLaw | gRpcServices/NetifeServiceImpl.cpp:110-129 | The way back sends nothing, and cancels exactly on a veto without an exception |
| ProcessProbe.UploadLaw | gRpcServices/NetifeServiceImpl.cpp:102-108 | What is uploaded is the hooks' final request in a new message, once |
| ProcessProbe.PassThrough | gRpcServices/NetifeServiceImpl.cpp:28-134 | With plugins that change nothing and silent scripts the front end gets the probed request without unknown fields, and the caller its answer with address and port exchanged |
| ProbeOutcome.AskSays | plugins/v1/PluginsDispatcher.cpp:398-402 | A loop over hooks leaves the fold of their answers, and its trace is what each said to what all before it left |
| ProbeOutcome.VetoedMeansRefused | gRpcServices/NetifeServiceImpl.cpp:89-90 | A veto is noted exactly when a hook whose turn came refused |
| ProbeOutcome.TellSays | gRpcServices/NetifeServiceImpl.cpp:99-100 | Every listener is told the same value, up to the first that throws |
| ProbeOutcome.ScriptValue | gRpcServices/NetifeServiceImpl.cpp:33-73 | What one script is consulted with, what it leaves and whether a hook around it refuses, from the answers of the hooks alone |
| ProbeOutcome.ScriptsValue | plugins/v1/PluginsDispatcher.cpp:484-494 | Each script is consulted, exactly when its turn comes, with what its entering hooks left of what the script before it had left |
| ProbeOutcome.RunValues | gRpcServices/NetifeServiceImpl.cpp:28-134 | Every run uploads what the sending-out hooks left of what the scripts left, in a new message, exactly when nothing before refuses or throws, and writes what the backing-in hooks left of the answer to it |
| ProbeOutcome.RunCancelled | gRpcServices/NetifeServiceImpl.cpp:77-121 | The exact condition for CANCELLED, from the answers of hooks, scripts and front end alone |
| ProbeOutcome.EditsReachTheMessage | gRpcServices/NetifeServiceImpl.cpp:203-256 | A change a hook makes to one field is a change of that field of the message and of no other |
| ProbeOutcome.EditsReachTheResponse | gRpcServices/NetifeServiceImpl.cpp:258-263 | The same of the response, with address and port exchanged |
| ProcessProbe.AskAll | gRpcServices/NetifeServiceImpl.cpp:89-90 | The loop asks the hooks in order on each other's output and lowers the flag exactly on a refusal |
| ProcessProbe.ProcessScript | gRpcServices/NetifeServiceImpl.cpp:33-73 | A vetoed script is consulted all the same; without an answer the leaving hooks are skipped |
| ProcessProbe.ProcessMatchScripts | plugins/v1/PluginsDispatcher.cpp:484-494 | The loop over scripts hands each one the request the last one left |
| ProcessProbe.ProcessProbe | gRpcServices/NetifeServiceImpl.cpp:28-134 | The handler has the status and the trace that these laws and those of ProbeOutcome speak about |

## Left out

- ScriptCommand.Reparse: an entry that came with one half missing prints both, so inputs of 2 GiB and more, which the generated code's `int` sizes do not admit, may not print and parse again; below that every accepted input does.
- ActiveCall.ThreadsFinish: that the scheduler runs both threads is not modelled; the lemma gives a finishing schedule, `ThreadStepsBounded` bounds the thread steps of every run, and `SomeThreadCanStep` says that no run gets stuck before.
- ExpireCache.AccessExpireStrategy.constructor: the constructor's check for an expiry time under 25 ms is a precondition of the model's constructor, since an object whose constructor throws does not exist.
- Group wire types: a start-group tag is treated as malformed input, and an end-group tag ends the loop as in the code.
- The generated messages' arenas, swaps, reflection and cached sizes, and the other messages of the file, which have no further kind of field.
- The presence word is three flags, and a parse position is the input from there on; what a message holds after a failed parse is not specified.
- The printer's UTF-8 checks only log, so they are not part of the model; the parser's fail the parse and are.
- `void` results, results without an argument, timed waits and failing allocation in the asynchronous call; the text of error messages is any string.
- AutoPtr's comparison operators and casts, and handles stored inside counted objects, where destruction cascades.
- Null cache values, `forEach`, the other cache strategies and locking: every cache operation runs alone under its mutex.
- Changing the mode of a stream buffer after construction, and devices that accept part of a block. The buffer size is above 4, as the code assumes when it subtracts.
- Log files of 2^31 archives and more, where the archive counter would overflow; compression, purging, and a log file missing at rotation.
- `splitMulti` with an empty pattern, which never returns; `getBetween`, `myToHex` and `myToBytes`.
- Transcript storage and logging in the handler; exceptions not derived from `std::exception`, which leave it; the matching of script patterns, replaced by the list of scripts that match.
- gRPC stubs, channels, `main` and the storage layer: plumbing around foreign code.
