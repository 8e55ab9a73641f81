# libStorageMgmt: verified models of the wire stack and its parsers

This project models the part of libStorageMgmt through which a client and a storage plug-in
talk, and four independent parsers and page editors, and proves what they are for.

* **JSON codec** (`Jsmn`, `JsmnInvariants`, `JsmnParser`, `JsonValue`, `JsonText`, `JsonCodec`,
  `JsonPayload`, `JsonStandard`): the in-place tokenizer with parent links and without strict
  mode, the printer, the recursive builder and the loop that doubles the token pool. Main
  results: printing then parsing is the identity exactly on well-formed values, and every value
  that parsing ever returns is well formed; against the grammar of RFC 8259, what is printed is
  a JSON text of the value exactly when its numbers and strings are those of the standard, and
  every JSON text, with any white space and order of members, is read as the value it stands
  for.
* **Framing, RPC and the serving loop** (`Numbers`, `Transport`, `Ipc`, `PluginLoop`,
  `PluginServer`, `Rpc`): ten-digit headers over a byte stream with arbitrary partial sends
  and receives, the plug-in's loop with the life of its error records, and client and plug-in
  as two parties that step over two streams. Main results: every call ends with what its
  handler produced, or with the exception that a raising handler, a failing send or a plug-in
  that has gone leads to, whatever the interleaving and the cutting of the bytes; no run gets
  stuck and every run ends; each request is answered once and each error record freed once.
* **NFS exports** (`NfsExports`, `NfsHosts`, `NfsLines`, `NfsFile`, `NfsRoundTrip`, `NfsPlugin`,
  `NfsConvert`): the exports file with its shell-like splitting, parsing, merging and writing,
  and the record's conversion to and from JSON values. Main results: what is written is read
  back; in every file that loads, which lines decide where a host is listed.
* **ssacli listings** (`Ssacli`, `SsacliSanitize`, `SsacliMirror`, `SsacliListing`): which lines
  of a listing count, which are shunted, and indentation to nested dictionaries.
* **URIs** (`Uri`), **SCSI enclosure control page** (`SesPage`), **VPD page 0x83** (`Vpd83`).

`Texts` and `Wrappers` hold strings and options. A `char` stands for one byte in the models of
C and C++ code. Code that works in place is a class or a method with loops, proved against a
function; the laws are lemmas about those functions. Exceptions are values (`None`, `Thrown`,
`ValueError`, ...). Many proofs start with `hide`, which only keeps definitions they do not
need out of the solver's way.

Facts about the code that the proofs bring out:

* The closing-bracket walk along parent links agrees with the backward scan of the other build
  whenever a container is open. With none open the walk may accept a bracket that closes
  nothing (`{}:}` is accepted); `WalkEqualsScan` says exactly when.
* A frame is received unchanged exactly when the message is shorter than 2^31 bytes.
* A VPD 0x83 page is refused exactly when its last designator is empty. A last designator that
  runs past the end of the page is accepted (`PastPageAccepted`). When it runs past the buffer,
  the code copies from beyond it: exactly when the last descriptor ends beyond the buffer
  (`OutcomeByLastEnd`). A caller is safe exactly for lengths up to the buffer size less 254
  (`ShortPageIsSafe`, and `LongPageOverruns` for every greater length).
* The loop that clears SELECT bits runs four bytes past the page (it adds the length field to
  the header size). A page that passes the bounds check keeps it inside the buffer exactly when
  the length field is at most 65528 (`LoopInBufferIff`); `LoopLeavesBuffer` is a page that does
  not, and then the loop changes the second byte after the buffer (`DevSlotCtrl`).
* A host's last line in the exports file need not decide where the host is listed: a line that
  makes a writer a reader leaves it in both lists (`WriterStays`); `NewLineDecidesIff` says when
  it decides and `LoadedHosts` what the whole file says.
* A listing without a second indentation makes the ssacli parser raise.
* An encryption notice with no line left after it makes `_sanitize_output` raise an IndexError,
  and nothing else does (`IndexErrorIff`, `NoticeAloneRaises`). Empty lines are not all
  stripped, as its documentation says they are: the one that ends a warning is kept
  (`EmptyLineKeptIff`, `WarningLeavesEmptyLine`).
* A port number above the range of `long` makes the URI parser throw, and nothing else does
  (`OutOfRangeIff`, `PortThrows`).

## Model

| member | source | states |
|---|---|---|
| JsmnInvariants.StringScanUnits | c_binding/jsmn.h:203-264 | Whatever text the string scan accepts is a sequence of JSON string units: plain characters, two-character escapes, or a backslash, `u` and four hexadecimal digits. |
| JsmnInvariants.PrimitiveScanText | c_binding/jsmn.h:143-165 | Everything between the start and the end of a scanned primitive is printable and no separator. |
| JsmnInvariants.PrimitiveChars | c_binding/jsmn.h:143-165 | A primitive is made of printable ASCII characters other than white space, colon, comma and closing brackets. |
| JsmnInvariants.AdvanceKeepsInv | c_binding/jsmn.h:279-446 | One round of the tokenizer loop on any character keeps links, chain and spans in order. |
| JsmnInvariants.ReachableInv | c_binding/jsmn.h:272-446 | In every state reached on any text with any pool: each parent index is below its child's, `toksuper` is in [-1, toknext), starts strictly increase, spans are nested or disjoint, and every open container is an ancestor of the last token. |
| JsmnInvariants.WalkEqualsScan | c_binding/jsmn.h:312-363 | In every reachable state with an open container the parent-link walk stops at the token the backward scan finds, the innermost open container, and the bracket is accepted iff the kinds agree; with none open it is accepted iff the walk's root has the kind and `toksuper` is set. |
| JsmnInvariants.UnmatchedBracketAccepted | c_binding/jsmn.h:332-337 | A concrete text whose last bracket closes nothing is accepted. |
| JsmnInvariants.ParsedSpans | c_binding/jsmn.h:272-458 | A successful parse of any text: at most one token per byte, spans inside the text, starts strictly increasing, any two spans nested or disjoint, and the text of strings and primitives fits their kind. |
| JsmnInvariants.PoolSuffices | c_binding/jsmn.h:106-111 | With one token per byte of text the tokenizer never runs out of tokens. |
| JsmnInvariants.PoolIrrelevant | c_binding/jsmn.h:106-119 | Once a run does not end for lack of tokens, every larger pool gives the same outcome. |
| JsmnParser.ErrorCodes | c_binding/jsmn.h:54-61 | The error codes of the tokenizer. |
| JsmnParser.Parser.constructor | c_binding/jsmn.h:464-468 | A fresh parser is at position 0 with no token and no superior token. |
| JsmnParser.Parser.AllocToken | c_binding/jsmn.h:106-119 | Takes the next pool slot and resets it, or reports a full pool and changes nothing. |
| JsmnParser.Parser.ParsePrimitive | c_binding/jsmn.h:135-188 | Appends exactly the primitive's token and stops on its last character, or reports the scan's error or a full pool; unused tokens keep their value. |
| JsmnParser.Parser.ScanString | c_binding/jsmn.h:203-266 | The scanning loop stops on the closing quote that the specification finds, or reports its error. |
| JsmnParser.Parser.ParseString | c_binding/jsmn.h:193-267 | Appends exactly the string's token without its quotes, or reports the scan's error or a full pool. |
| JsmnParser.Parser.OpenBracket | c_binding/jsmn.h:285-311 | The state after an opening bracket: an open token that is counted in, and has as parent, the old superior token, and is the new one. |
| JsmnParser.Parser.FindByParents | c_binding/jsmn.h:319-339 | The unbounded walk ends and finds the token that the parent links lead to. |
| JsmnParser.Parser.FindByScan | c_binding/jsmn.h:341-351 | The backward scan finds the open token with the highest index, -1 if there is none. |
| JsmnParser.Parser.CloseBracket | c_binding/jsmn.h:312-364 | Closes the token the walk finds and restores its parent as superior, or fails as the specification says. |
| JsmnParser.Parser.Round | c_binding/jsmn.h:283-446 | One round of the loop carries out one step of the specification, in place. |
| JsmnParser.Parser.Parse | c_binding/jsmn.h:272-458 | Return value and tokens are those of the specified run; unused tokens keep their value. |
| JsonValue.SerializeValue | c_binding/lsm_value_jsmn.hpp:53-96 | The recursive printer computes `Serialize`, whose text is tied to RFC 8259 and whose inverse is proved below. |
| JsonValue.SerializeObject | c_binding/lsm_value_jsmn.hpp:57-78 | The loop over the pairs prints all of them in key order with separators between them. |
| JsonValue.SerializeArray | c_binding/lsm_value_jsmn.hpp:79-92 | The loop over the elements prints all of them with separators between them. |
| JsonValue.LsmParse | c_binding/lsm_value_jsmn.hpp:222-288 | For tokens of any kind and size the builder ends, consumes fewer than end - start tokens and computes `Build`. |
| JsonValue.ParseArray | c_binding/lsm_value_jsmn.hpp:253-264 | The loop over array elements computes the elements in order or throws. |
| JsonValue.ParseObject | c_binding/lsm_value_jsmn.hpp:265-286 | The loop over members computes the map with later keys winning, or throws. |
| JsonText.LayoutText | c_binding/lsm_value_jsmn.hpp:53-96 | The printed text is the value's literals, strings and brackets, with a comma and a space between entries and a colon and a space after a key. |
| JsonText.LayoutMeaning | c_binding/lsm_value_jsmn.hpp:53-96 | Read by the rules for texts of any layout, that layout stands for the well-formed value. |
| JsonText.InsertSorted | c_binding/lsm_value_jsmn.hpp:280-280 | Assigning to any key keeps the map in key order. |
| JsonCodec.StringReads | c_binding/jsmn.h:203-264 | Every sequence of JSON string units is scanned up to the quote that follows it. |
| JsonCodec.PrimitiveReads | c_binding/jsmn.h:143-172 | Every separator-free printable text is scanned as a whole. |
| JsonCodec.ReadBlanks | c_binding/jsmn.h:375-379 | White space of any kind and length is passed over. |
| JsonCodec.BrokenTexts | c_binding/jsmn.h:312-363 | A text cut off in a string or after an opening bracket is partial, a closing bracket by itself invalid. |
| JsonCodec.ReadDoc | c_binding/jsmn.h:272-446 | From any state in order, reading a JSON text of any layout appends exactly its pre-order tokens, counts it in the superior token and restores `toksuper`. |
| JsonCodec.TokensOfText | c_binding/jsmn.h:272-458 | On a text of any layout, with white space around it, the tokenizer yields exactly the pre-order list of nodes and keys with their kinds, spans, sizes and parents. |
| JsonCodec.TokensOfSerialized | c_binding/jsmn.h:272-458 | On the text of a well-formed value the tokenizer yields exactly the pre-order list of nodes and keys with their kinds, spans, sizes and parents. |
| JsonPayload.BuildTokens | c_binding/lsm_value_jsmn.hpp:229-288 | From the pre-order tokens of a text of any layout the builder makes what the text says and uses up exactly those tokens. |
| JsonPayload.BuildLocal | c_binding/lsm_value_jsmn.hpp:222-288 | Started below `end_tok`, the builder's result depends on the tokens from its start to `end_tok` only. |
| JsonPayload.BuildWellFormed | c_binding/lsm_value_jsmn.hpp:229-288 | Whatever the builder makes of a finished run's tokens is well formed. |
| JsonPayload.DeserializedIsWellFormed | c_binding/lsm_value_jsmn.hpp:290-327 | Parsing any text whatsoever returns only well-formed values. |
| JsonPayload.TextReadsBack | c_binding/lsm_value_jsmn.hpp:290-327 | A text of any layout, with white space around it, is parsed as what it says. |
| JsonPayload.BlankTextRefused | c_binding/lsm_value_jsmn.hpp:290-327 | A text of nothing but white space is refused. |
| JsonPayload.KeyAloneRefused | c_binding/lsm_value_jsmn.hpp:265-286 | An object text in which a primitive stands alone is refused. |
| JsonPayload.RoundTrip | c_binding/lsm_value_jsmn.hpp:53-96 | Printing then parsing gives the value back if and only if numbers, strings and keys are text that is read as one token and keys are in order. |
| JsonPayload.ParsedSurvives | c_binding/lsm_value_jsmn.hpp:290-327 | A value parsed from any text survives being printed and parsed again. |
| JsonPayload.SerializeInjective | c_binding/lsm_value_jsmn.hpp:53-96 | Two well-formed values with the same text are equal. |
| JsonPayload.AnyPool | c_binding/lsm_value_jsmn.hpp:294-321 | Every pool that is large enough gives the same outcome. |
| JsonPayload.DeserializeText | c_binding/lsm_value_jsmn.hpp:290-327 | The doubling loop ends and its outcome is that of a single parse with a large enough pool, whatever the first guess. |
| JsonStandard.PrintedIsJson | c_binding/lsm_value_jsmn.hpp:53-96 | What is printed is a JSON text of the value, by the grammar of RFC 8259, if and only if the value's numbers and strings are those of the standard and its keys are in order. |
| JsonStandard.JsonIsRead | c_binding/lsm_value_jsmn.hpp:290-327 | Every JSON text, whatever its white space and the order of its members, is parsed as the value it stands for. |
| JsonStandard.JsonUnique | c_binding/lsm_value_jsmn.hpp:290-327 | A text stands for at most one value. |
| JsonStandard.MembersInOrder | c_binding/lsm_value_jsmn.hpp:265-286 | The object of a list of members has each key once, in order, with the value of its last member. |
| JsonStandard.IntegersAreNumbers | c_binding/lsm_ipc.hpp:105-109 | Every printed integer is a number of RFC 8259. |
| Numbers.PaddedHeader | c_binding/lsm_ipc.cpp:42-46 | Every 32-bit number is padded to exactly ten digits and read back as that number. |
| Numbers.ScanDecimalInt | c_binding/lsm_ipc.hpp:105-109 | Any printed integer is read back by the scanning accessors. |
| Numbers.ScanReads | c_binding/lsm_value_jsmn.hpp:155-186 | White space, an optional sign and digits are read as that number, whatever follows. |
| Numbers.ScanFails | c_binding/lsm_value_jsmn.hpp:155-186 | Text with no digits there is no number. |
| Texts.LessIff | c_binding/lsm_value_jsmn.hpp:57-78 | The order of keys is decided by the first difference. |
| Transport.FrameReceived | c_binding/lsm_ipc.cpp:52-119 | A framed message is received unchanged, leaving exactly what follows it, if and only if it is shorter than 2^31 bytes. |
| Transport.LongFrame | c_binding/lsm_ipc.cpp:106-119 | From 2^31 bytes on a frame is taken for an empty message and its payload is left in the stream. |
| Transport.JunkHeader | c_binding/lsm_ipc.cpp:106-119 | A header that does not start with a number is taken for the length 0. |
| Transport.FramesReceived | c_binding/lsm_ipc.cpp:52-119 | A stream of framed messages is read as exactly those messages with no byte left over. |
| Transport.PrefixReceived | c_binding/lsm_ipc.cpp:52-119 | Wherever a stream of framed messages is cut off, what is received is the first of them, and all of them only if nothing was cut off. |
| Transport.Carry | c_binding/lsm_ipc.cpp:52-119 | Any messages sent in pieces of any size and received in pieces of any size arrive in order and unchanged, up to the first failing call; all of them if none fails. |
| Transport.Socket.MsgSend | c_binding/lsm_ipc.cpp:52-78 | In pieces of any size the whole frame goes out; otherwise an error is reported after a prefix of it; an empty message is refused. |
| Transport.Socket.StringRead | c_binding/lsm_ipc.cpp:80-104 | In pieces of any size exactly the requested bytes are taken, or the exception is raised. |
| Transport.Socket.MsgRecv | c_binding/lsm_ipc.cpp:106-119 | The outcome is that of the whole stream, however it arrives. |
| Ipc.RequestWellFormed | c_binding/lsm_ipc.cpp:189-200 | The request message for a carriable method name and parameters is well formed. |
| Ipc.ValidRequestIff | c_binding/lsm_value_jsmn.hpp:124-127 | A request is valid if and only if it is an object with a method, an id and parameters. |
| Ipc.ResponseReadBack | c_binding/lsm_ipc.cpp:239-269 | The client reads a response message as its result. |
| Ipc.ErrorReplyReadBack | c_binding/lsm_ipc.cpp:209-269 | The client reads an error message as an exception with the same code, message and data. |
| Ipc.ResultWins | c_binding/lsm_ipc.cpp:257-269 | A reply with a result is read as that result, whatever else it holds. |
| Ipc.OtherReplies | c_binding/lsm_ipc.cpp:257-269 | An error without message and data is read with empty ones; a reply that is no JSON or has neither result nor error gives a ValueException. |
| Ipc.RequestWritten | c_binding/lsm_ipc.cpp:189-200 | The text of a request, character by character. |
| Ipc.ResponseWritten | c_binding/lsm_ipc.cpp:239-255 | The text of a response. |
| Ipc.ErrorReplyWritten | c_binding/lsm_ipc.cpp:209-231 | The text of an error reply. |
| Ipc.ErrorDataWritten | c_binding/lsm_ipc.cpp:209-231 | The text of its error object. |
| Ipc.MessagesAreJson | c_binding/lsm_ipc.cpp:189-255 | Messages whose parts are standard are JSON texts of themselves. |
| PluginLoop.LogErrorAccounted | c_binding/lsm_plugin_ipc.cpp:2520-2532 | Logging keeps every record either freed once or pending; a pending one is freed by the new one. |
| PluginLoop.LogAllPending | c_binding/lsm_plugin_ipc.cpp:2520-2532 | After any records are logged the last of them is the pending one. |
| PluginLoop.EveryErrorFreedOnce | c_binding/lsm_plugin_ipc.cpp:2438-2498 | In every run, with any handlers and any failing send, each logged record is freed exactly once. |
| PluginLoop.EveryErrorLogged | c_binding/lsm_plugin_ipc.cpp:2438-2498 | In every run the records ever logged are those of the handlers, in order, and then those of the unregister call. |
| PluginLoop.RequestsAnsweredOnce | c_binding/lsm_plugin_ipc.cpp:2438-2498 | In every run the requests served are the first messages of the stream, in order and once each; all but the last are answered, the last too unless an exception ended the loop; nothing is read after `plugin_unregister`. |
| PluginLoop.RunEndsRight | c_binding/lsm_plugin_ipc.cpp:2438-2498 | In every run, why the loop ended and what it returns: 1, 2 or 3 after a value, library or other exception, else the code of the last handler that returned. |
| PluginLoop.FlagsRead | c_binding/lsm_plugin_ipc.cpp:2464-2467 | The flags of `plugin_unregister` can be read when they are a printed integer, and not when they are absent or no number. |
| PluginServer.Plugin.ErrorFree | c_binding/lsm_plugin_ipc.cpp:230-236 | The pending record is freed, and it had not been freed before. |
| PluginServer.Plugin.ErrorLog | c_binding/lsm_plugin_ipc.cpp:2520-2532 | The new record is pending and an earlier pending one is freed. |
| PluginServer.Plugin.Answer | c_binding/lsm_plugin_ipc.cpp:225-240 | The reply is the response, the pending record or the handler's code; a record is freed only once its reply is out. |
| PluginServer.Plugin.ServeOne | c_binding/lsm_plugin_ipc.cpp:2443-2490 | One round of the loop, exceptions included, carries out one round of the specification. |
| PluginServer.Plugin.Run | c_binding/lsm_plugin_ipc.cpp:2438-2498 | The loop and the final free carry out the specified run, with no record left pending. |
| Rpc.FramePrefix | c_binding/lsm_ipc.cpp:80-119 | A prefix of a frame asks for no more than the rest of it, and is complete exactly when it is the whole frame. |
| Rpc.PiecesAreWhole | c_binding/lsm_ipc.cpp:80-119 | On any stream, receiving in pieces takes exactly the bytes of the message received in one go. |
| Rpc.RequestReadBack | c_binding/lsm_ipc.cpp:189-237 | The plug-in reads a request as a valid request with the same method and parameters. |
| Rpc.PendingIsError | c_binding/lsm_plugin_ipc.cpp:2520-2532 | The pending record of a call is the last one it logged, else the last one logged since the latest failing call. |
| Rpc.ReplyReadBack | c_binding/lsm_ipc.cpp:257-269 | The client reads the plug-in's reply to the n-th call as the outcome that call should have. |
| Rpc.HandledRight | c_binding/lsm_plugin_ipc.cpp:2452-2490 | Handling the n-th request leaves the error records that the first n handlers imply; it is answered iff its handler returns and the reply can be sent, and the loop goes on iff it is answered and does not unregister. |
| Rpc.AttemptIsReply | c_binding/lsm_plugin_ipc.cpp:2456-2463 | What the plug-in tries to send for the n-th request is the reply that the first n handlers imply. |
| Rpc.GotPrefix | c_binding/lsm_ipc.cpp:80-119 | What the client has received is a complete message exactly when the call was answered and nothing of the reply is left to come. |
| Rpc.StepKeeps | c_binding/lsm_ipc.cpp:52-119 | Every event of client, plug-in or stream keeps the invariant and leaves strictly less to do. |
| Rpc.RpcReturnsHandlersResult | c_binding/lsm_ipc.cpp:189-273 | In every run over two streams, with any interleaving and chunking: while the plug-in is there, the n-th call returns the n-th handler's value when its code is OK or JOB_STARTED, else raises with the last record that call logged, else with the last one logged since the latest failing call, else with the handler's code, and raises EOFException when the handler raises or the reply cannot be sent; after that, or after `plugin_unregister`, calls end in EOFException or the transport error; between calls to a plug-in that is there both streams are empty. |
| Rpc.RpcWithoutFailures | c_binding/lsm_ipc.cpp:189-273 | When handlers return, replies can be sent and only the last call unregisters, every call returns what its handler produced. |
| Rpc.RpcOtherMethods | c_binding/lsm_plugin_ipc.cpp:2423-2436 | A call to a method that the plug-in does not have raises NO_SUPPORT unless a record was left behind; the call that unregisters returns null. |
| Rpc.RpcNeverStuck | c_binding/lsm_ipc.cpp:271-274 | Until all calls have returned some step is possible, other than a send that fails on an open connection. |
| Rpc.RpcRunsEnd | c_binding/lsm_ipc.cpp:271-274 | No run is longer than a bound given by the messages. |
| NfsExports.MergeKeepsKey | plugin/nfs_plugin/nfs.py:229-252 | Merging does not change which records a record matches. |
| NfsExports.MergeDistinct | plugin/nfs_plugin/nfs.py:229-252 | Merging keeps the host lists free of duplicates. |
| NfsExports.AddShape | plugin/nfs_plugin/nfs.py:284-293 | A new record is merged into the first record it matches, or appended if it matches none. |
| NfsExports.LoadedExportsDistinct | plugin/nfs_plugin/nfs.py:281-294 | Any file that loads gives records no two of which match, with no host twice in a list. |
| NfsHosts.MergedHosts | plugin/nfs_plugin/nfs.py:229-252 | Which hosts are readers, writers and root hosts of the merged record, by their lists in both. |
| NfsHosts.NewLineDecidesIff | plugin/nfs_plugin/nfs.py:229-252 | The new record alone decides where its host is listed if and only if it makes it a writer or root host or it was neither before. |
| NfsHosts.WriterStays | plugin/nfs_plugin/nfs.py:229-252 | Two records after which a host is both writer and reader. |
| NfsHosts.MatchesIff | plugin/nfs_plugin/nfs.py:208-227 | Two records match if and only if path, security flavour, both ids and the set of options agree. |
| NfsHosts.LoadedHosts | plugin/nfs_plugin/nfs.py:281-294 | For any file that loads: one record for each path, security flavour, ids and options of a line, and a host is a reader, writer or root host in it exactly when some line says so and no later line of that export takes it back. |
| NfsLines.WordsSplit | plugin/nfs_plugin/nfs.py:285-285 | Words in any of a shell's spellings, bare, in either quotes or with backslashes, with or without a comment behind them, are split into exactly those words. |
| NfsLines.BackslashStays | plugin/nfs_plugin/nfs.py:285-285 | Inside double quotes a backslash stays, except before a double quote or a backslash. |
| NfsLines.UnfinishedRaises | plugin/nfs_plugin/nfs.py:285-285 | An open quote or a final backslash raises. |
| NfsLines.LinesAreText | plugin/nfs_plugin/nfs.py:284-284 | The lines of a file are its text, cut exactly after every line break. |
| NfsLines.OptionsRefusedIff | plugin/nfs_plugin/nfs.py:70-87 | Option text is refused if and only if an option has two equal signs. |
| NfsLines.KeysInOrder | plugin/nfs_plugin/nfs.py:90-97 | Options are printed in the order of their names. |
| NfsLines.HostLine | plugin/nfs_plugin/nfs.py:106-178 | The record of a line `path host(options)`, field by field, or the exception or omission. |
| NfsLines.AnyHostLine | plugin/nfs_plugin/nfs.py:106-178 | The same for `path (options)`, with the host `*`. |
| NfsLines.PlainLine | plugin/nfs_plugin/nfs.py:106-178 | The same for a host without options and for a path alone. |
| NfsFile.OptionsReadBack | plugin/nfs_plugin/nfs.py:70-104 | Printing a dictionary of options in sorted order and parsing the text gives the dictionary back. |
| NfsFile.RwLineRead | plugin/nfs_plugin/nfs.py:357-374 | The line of a writer, quoted or not, is split and parsed into that host's record and added. |
| NfsFile.RoLineRead | plugin/nfs_plugin/nfs.py:376-387 | The line of a reader is split and parsed into that host's record and added. |
| NfsLines.HostOptsSay | plugin/nfs_plugin/nfs.py:357-384 | The options written for a host: its mode and not the other, root squashing off for root hosts, and the rest as in the record. |
| NfsLines.WriteRaisesIff | plugin/nfs_plugin/nfs.py:326-387 | Writing raises if and only if some record's options cannot be read, its path is no directory or of another file system, or it has an anonymous id and a host. |
| NfsRoundTrip.MergeRw | plugin/nfs_plugin/nfs.py:229-252 | Merging the line of the next writer extends the record by that host. |
| NfsRoundTrip.MergeRo | plugin/nfs_plugin/nfs.py:229-252 | Merging the line of the next reader extends the record by that host. |
| NfsRoundTrip.WrittenExportsReadBack | plugin/nfs_plugin/nfs.py:281-389 | Storable exports that do not match one another are written without error and read back in order with all fields, the root hosts up to order. |
| NfsPlugin.MergeExports | plugin/nfs_plugin/nfs.py:229-252 | The in-place loops compute the merge and leave the second record alone. |
| NfsPlugin.AddExport | plugin/nfs_plugin/nfs.py:288-293 | The inner loop merges into the first match only, or appends. |
| NfsPlugin.ReadExportsFile | plugin/nfs_plugin/nfs.py:281-294 | The reading loop computes the specified list or raises. |
| NfsPlugin.PrintExport | plugin/nfs_plugin/nfs.py:326-387 | The lines of an export, or the exception for unparsable options, a wrong path or an anonymous id. |
| NfsPlugin.WriteExportsFile | plugin/nfs_plugin/nfs.py:318-389 | The writing loop computes the specified text or raises. |
| NfsConvert.AnonIdSurvives | c_binding/lsm_convert.cpp:664-675 | Every 64-bit anonymous id, the two largest written as -1 and -2, is read back. |
| NfsConvert.AnonIdText | c_binding/lsm_convert.cpp:664-675 | The two largest ids are written as -1 and -2, the others in decimal. |
| NfsConvert.UintRead | c_binding/lsm_value_jsmn.hpp:177-186 | Printed integers read as 64 bits: small negative ones wrap around, those out of range saturate. |
| NfsConvert.ValueHoldsNames | c_binding/lsm_convert.cpp:655-663 | The names of a record are under their keys. |
| NfsConvert.ValueHoldsHosts | c_binding/lsm_convert.cpp:660-679 | Its lists, ids and options are under their keys. |
| NfsConvert.ConvertedFields | c_binding/lsm_convert.cpp:606-652 | Whatever value converts to a record, each field of the record is what stands under its key. |
| NfsConvert.ConvertedIff | c_binding/lsm_convert.cpp:606-652 | A value converts if and only if it is an object of the class with lists, texts and numbers where they belong, and no record is made exactly for want of an id or a file system. |
| NfsConvert.RecordConvertsBack | c_binding/lsm_convert.cpp:606-681 | Converting a record to a value and back restores it, a NULL list becoming an empty one. |
| NfsConvert.RecordSurvivesWire | c_binding/lsm_convert.cpp:606-681 | The same after printing and parsing the value, for strings the wire format can carry. |
| Ssacli.SkipWarning | plugin/hpsa_plugin/hpsa.py:128-142 | The loop over a warning stops at its empty line or at the last line. |
| Ssacli.SkipNotice | plugin/hpsa_plugin/hpsa.py:144-152 | The loop over a notice stops past its empty line or past the last line. |
| Ssacli.SanitizeOutput | plugin/hpsa_plugin/hpsa.py:109-165 | The loop keeps, drops and skips lines as specified, including the IndexError at the end of a notice. |
| SsacliSanitize.SanitizeByModes | plugin/hpsa_plugin/hpsa.py:109-165 | On any listing exactly those lines are kept that a line-by-line reading with four modes keeps, and the IndexError is raised exactly when that reading ends in or right after a notice. |
| SsacliSanitize.IndexErrorIff | plugin/hpsa_plugin/hpsa.py:144-154 | The IndexError is raised if and only if a notice starts with no line left after it. |
| SsacliSanitize.NoNoticeNoError | plugin/hpsa_plugin/hpsa.py:144-154 | A listing without a notice never raises it. |
| SsacliSanitize.NoticeAloneRaises | plugin/hpsa_plugin/hpsa.py:144-154 | A concrete output on which it is raised. |
| SsacliSanitize.KeptAreSubsequence | plugin/hpsa_plugin/hpsa.py:109-165 | The kept lines are a subsequence of the listing. |
| SsacliSanitize.NoNoteKept | plugin/hpsa_plugin/hpsa.py:154-158 | No line that starts with `Note:` is kept. |
| SsacliSanitize.EmptyLineKeptIff | plugin/hpsa_plugin/hpsa.py:124-158 | An empty line is kept if and only if one ends a warning or is the line after a notice. |
| SsacliSanitize.WarningLeavesEmptyLine | plugin/hpsa_plugin/hpsa.py:133-158 | A concrete listing that keeps an empty line. |
| Ssacli.FixMirrorGroupLines | plugin/hpsa_plugin/hpsa.py:93-106 | The in-place loop shunts the lines below a mirror group as specified. |
| SsacliMirror.MirrorLines | plugin/hpsa_plugin/hpsa.py:93-106 | In any listing a line below a mirror group with less indentation is shunted by twice what it lacks, up to the first line that ends the group; every other line is kept. |
| Ssacli.ParseLine | plugin/hpsa_plugin/hpsa.py:203-245 | One round of the loop makes the specified change of dictionaries, pointers and flag, or raises. |
| Ssacli.ParseSsacliLines | plugin/hpsa_plugin/hpsa.py:187-247 | The loop over line and next line builds the specified dictionaries or raises. |
| Ssacli.ParseSsacliOutput | plugin/hpsa_plugin/hpsa.py:168-247 | The whole parser from text to dictionaries. |
| SsacliListing.LeafRead | plugin/hpsa_plugin/hpsa.py:241-245 | A line `key: value` is read as that key and value, one without a colon and space as a key without a value. |
| SsacliListing.ValuePadded | plugin/hpsa_plugin/hpsa.py:241-245 | White space around the value does not matter. |
| SsacliListing.WhiteChars | plugin/hpsa_plugin/hpsa.py:205-206 | The characters that count as indentation and are stripped. |
| SsacliListing.RequiredTitles | plugin/hpsa_plugin/hpsa.py:179-182 | The names that keep a section. |
| SsacliListing.PutGet | plugin/hpsa_plugin/hpsa.py:240-245 | An assignment changes the entry of its key and no other. |
| SsacliListing.RunSkipped | plugin/hpsa_plugin/hpsa.py:221-222 | The lines below a second-level entry that is not kept change nothing. |
| SsacliListing.RunForest | plugin/hpsa_plugin/hpsa.py:197-245 | The printed lines of a section add exactly its entries to its dictionary and leave all other dictionaries and outer indentations alone. |
| SsacliListing.ListingReadBack | plugin/hpsa_plugin/hpsa.py:168-247 | Parsing the listing of any tree with two or more levels, its leaves titles or pairs printed as `key: value`, with distinct sibling keys and no special lines, gives the tree's nested dictionary, keeping a second-level entry exactly when the next line has the same indentation or its text starts with a required section name. |
| SsacliListing.FlatListingFails | plugin/hpsa_plugin/hpsa.py:189-191 | A listing without a second level makes the parser raise. |
| SsacliListing.DuplicateSectionRaises | plugin/hpsa_plugin/hpsa.py:230-238 | A section that repeats the title of an earlier top-level section makes the parser raise. |
| SsacliListing.UnseenIndentRaises | plugin/hpsa_plugin/hpsa.py:224-225 | A required line at an indentation that no section has opened makes the parser raise. |
| Uri.SplitIsLossless | c_binding/uri_parser.hpp:111-173 | Every accepted URI is the exact concatenation of its parts, and the parts keep to their delimiters. |
| Uri.SplitInvertsPrint | c_binding/uri_parser.hpp:111-173 | Every URI made of parts that keep to their delimiters is split into those parts. |
| Uri.SplitPrintIff | c_binding/uri_parser.hpp:111-173 | Splitting inverts printing on exactly those parts. |
| Uri.BracketedHost | c_binding/uri_parser.hpp:158-167 | A colon inside a bracketed host is never taken for the start of a port. |
| Uri.ParsePrinted | c_binding/uri_parser.hpp:111-173 | Parsing the text of parts that keep to their delimiters gives them back field by field, absent ones empty and an absent port -1. |
| Uri.OutOfRangeIff | c_binding/uri_parser.hpp:93-109 | The parser throws if and only if the URI is the text of such parts with a port above the range of `long`. |
| Uri.PortRange | c_binding/uri_parser.hpp:93-109 | With any printed number as port, it throws if and only if that number is above the range of `long`. |
| Uri.PortThrows | c_binding/uri_parser.hpp:93-109 | A concrete URI on which it throws. |
| Uri.ParseQs | c_binding/uri_parser.hpp:63-91 | The shortening loop equals a last-wins fold over the pieces between ampersands. |
| Uri.PairRead | c_binding/uri_parser.hpp:55-61 | `key=value` is read as that key and value, a key alone as one with an empty value. |
| Uri.QueryReadBack | c_binding/uri_parser.hpp:63-91 | A query printed from any list of keys and values is read as the map in which the last value of each key wins. |
| Uri.SchemeChars | c_binding/uri_parser.hpp:44-53 | A scheme is made of letters, digits, plus, minus and dot. |
| Uri.Parse | c_binding/uri_parser.hpp:111-173 | The parser computes the meaning of the parts, with invalid URIs and ports out of range told apart. |
| SesPage.RawStatusGet | c_binding/libses.c:503-541 | The element's four bytes exactly when it is inside the page, else zeros and an error. |
| SesPage.InBoundsIff | c_binding/libses.c:516-528 | The bounds check accepts exactly the elements of a page of at most 65530 bytes. |
| SesPage.ClearSelects | c_binding/libses.c:558-566 | Every SELECT bit up to the header size plus the length field is cleared, and no other bit of memory is changed. |
| SesPage.CtrlDataGen | c_binding/libses.c:543-577 | Every SELECT bit of the page is cleared, the element replaced, and every other byte of memory kept, except a SELECT bit in the four bytes after the page. |
| SesPage.DevSlotCtrl | c_binding/libses.c:657-692 | The page becomes the control page for the requested slot and bit, or is left alone when the element is out of bounds; memory after the buffer changes only for a length field above 65528, and then in one SELECT bit. |
| SesPage.LoopInBufferIff | c_binding/libses.c:558-566 | For every page that passes the bounds check the clearing loop stays in the buffer if and only if the length field is at most 65528. |
| SesPage.LoopLeavesBuffer | c_binding/libses.c:558-566 | A page that passes the bounds check and takes the loop out of the buffer. |
| SesPage.PageIsControlPage | c_binding/libses.c:543-577 | In the control page exactly the requested element is selected, bit 1 of its byte 2 or bit 5 of its byte 3 is as requested, byte 0 keeps bit 6 only, and elsewhere only SELECT bits differ. |
| Vpd83.CountDescriptors | c_binding/libsg.c:703-717 | The counting pass finds the number of descriptors or a partial one. |
| Vpd83.CopyDescriptors | c_binding/libsg.c:732-749 | The copying pass over as many descriptors as were counted visits the same offsets and gives the descriptors, or copies from beyond the buffer. |
| Vpd83.ParseVpd83 | c_binding/libsg.c:676-749 | On any page, counting and copying passes give the outcome of a single walk. |
| Vpd83.OutcomeByLastEnd | c_binding/libsg.c:676-749 | A page with another code is not supported; else it is refused exactly when the walk ends inside it, and copied from beyond the buffer exactly when the last descriptor ends there. |
| Vpd83.ShortPageIsSafe | c_binding/libsg.c:694-749 | A page that leaves 254 bytes of the buffer free is never read beyond the buffer. |
| Vpd83.LongPageOverruns | c_binding/libsg.c:694-749 | For every greater length there is a page that is. |
| Vpd83.EncodedListReadBack | c_binding/libsg.c:689-749 | Parsing the page of any list of descriptors gives that list, except that it is refused exactly when the last designator is empty. |
| Vpd83.AcceptedIsText | c_binding/libsg.c:689-749 | Whatever is accepted encodes to the bytes up to the end of the last descriptor; the data is a page of that list if and only if that end is the end of the page. |
| Vpd83.AcceptedIff | c_binding/libsg.c:689-749 | Accepted with the last descriptor ending where the page does are exactly the pages of lists whose last designator is not empty. |
| Vpd83.PastPageAccepted | c_binding/libsg.c:703-717 | A concrete page whose designator runs past its end is accepted. |

## Left out

- Sockets, processes, ioctl, sysfs and subprocess calls: streams are byte sequences, chunk sizes and failures arbitrary, `get_fsid`, `int()` and `isdir` parameters.
- The per-method `handle_*` functions and the public wrappers in c_binding/lsm_mgmt.cpp: handlers are arbitrary; the wrappers would only add easy members.
- Memory allocation failures, among them the null value that deserialization returns when calloc fails.
- Integer wrap-around in the tokenizer: positions and counts are unbounded; the framing keeps texts below 2^31 bytes.
- Serializing an empty object: the code steps back from the end of an empty map; the model prints `{}`.
- Values built with a type tag that contradicts their text, such as a boolean with the text of a number.
- A plug-in pointer overwritten by foreign code, which the loop tests for on each round.
- DeserializeText: out-of-range integers in the numeric accessors are not wrapped to 32 bits.
- RpcReturnsHandlersResult: a receive that fails other than by the end of the stream, and the calls that a client makes after a send failed on an open connection, are outside it.
- LoadedExportsDistinct: the export id, an MD5 of other fields, is not part of the record.
- ReadExportsFile: works on record values, so that aliasing between the list and a caller's record is not captured; `MergeExports` is in place.
- WrittenExportsReadBack: excludes anonymous ids, which the writer cannot print, and paths with spaces for readers, which the writer does not quote.
- SanitizeOutput: the warning text, which the parser ignores, is not returned.
- CtrlDataGen: takes a non-negative element index; `_ses_eiioe`, whose pointer stride does not match its table, is not part of this model.
- RecordConvertsBack: lists with null elements, for which the library's behaviour is undefined.
- The remaining record conversions in c_binding/lsm_convert.cpp, the daemon and the other plug-ins: table lookups and forwarding.
- `_trim_spaces` in c_binding/utils.c and the simulator's disk roles: one-function behaviour.
