# liblo and the pthreads-win32 condition variable, in Dafny

The repository carries a modified liblo 0.26, an implementation of OpenSound Control 1.0, and a mail
exchange that lists a condition-variable algorithm for pthreads-win32. This project models both and
proves what they promise.

- `Octets`, `Lists`, `Arguments`, `Blobs`, `Codec`: bytes, zero-padded strings, words in host and
  network order, arguments, and the message format as a printer and a parser. They are inverse to each
  other: what the parser accepts is exactly what well-formed messages print to, up to the size limit
  that the parser puts on blobs.
- `Refusals`: which error code answers which bad buffer, for all buffers, told from the bytes alone.
- `Validation`, `Messages`, `Bundles`: the C code itself, over arrays: validators, `lo_message` with its
  two growing buffers and its argument cache, the serialiser that prints and then swaps bytes in place,
  the parser that swaps in place while it validates, and `lo_bundle`. Each method is proved against the
  format.
- `PatternMatch`: the backtracking matcher of address patterns against a declarative glob relation.
- `Chains`, `TimedQueue`, `MethodTable`: the two linked lists of a server, spliced in place, and what any
  run of queueing and dispatching keeps.
- `Dispatch`, `Enumeration`, `Coercion`: which handlers a message reaches, the reply to an enumeration
  call, and the two-pass conversion of arguments.
- `Server`, `EndToEnd`, `Timetags`: arriving data, the timed queue, waiting and receiving, and the whole
  way of a bundle from its serialisation to the handlers.
- `ConditionVariable`: the gate, queue and mutex protocol as steps of any number of threads.

`dafny verify dfyconfig.toml` checks everything.

## What the model takes from outside

Handlers are an answer per call, the clock is a tag per reading, `poll` is a list of event vectors and a
socket gives bytes or nothing; all of them are arbitrary. Numerical conversion is an arbitrary function
to bytes. The host is little-endian. For patterns outside the glob fragment the matcher's answer is
arbitrary.

## Findings

- Serialising and parsing is the identity exactly for messages whose blobs are at most LO_MAX_MSG_SIZE
  bytes long; a message with a longer blob can be built and serialised, but lo_message_deserialise refuses
  its bytes with LO_EINVALIDARG (`Codec.PrintParse`; for example `Codec.OversizedBlob`).
- A handler whose method needs no conversion gets a null argument vector exactly if the message has no
  arguments or an eligible method registered before it needs a conversion (`Dispatch.NullExactly`), and an
  enumeration call with a number reads through the null pointer exactly if any eligible method needs one
  (`Dispatch.DispatchMethod`, answer `NoArgv`; for example `Dispatch.VectorGone`).
- A bundle with a bad element is not refused as a whole, unless that is its first element: everything in
  front of it is already dispatched or queued when the error is answered (`Server.Server.DispatchData`,
  `Server.HalfTaken`, `Server.WholeOrNothing`; for example `EndToEnd.HalfRefused`).
- On a little-endian host a time tag argument is swapped as one 64-bit number although it is two words, so
  its fractions go out in front of its seconds; the wire has OSC's order exactly if the two are equal
  (`Arguments.TimetagOnWire`). The round trip through liblo itself is not affected (`Codec.PrintParse`),
  nor are the tags of bundles.
- `pthread_cond_destroy` answers correctly in all runs (`ConditionVariable.DestroyAnswers`), but when it
  frees, a signaller may still be about to post the queue semaphore (`DestroyRace`), and, also in a run
  without timeouts, a thread that has called in may be waiting for the gate semaphore (`GateRace`). There
  is no third case (`DestroyLeaves`). Freeing is safe exactly if the tokens left in the queue semaphore and
  the wakeups that found no signal make up for the signals that waiters took over after giving up, and
  nobody waits for the gate (`DestroySafeExactly`).
- The constant in `lo_timetag_diff` is 2^-32 rounded; the sign of the difference is right all the same
  (`Timetags.DiffIsOrder`), and batches reach 512 units of 2^-32 seconds within a second and 511 across
  the turn of one (`Timetags.WithinEpsilon`).

## Model

| member | source | states |
|---|---|---|
| EndToEnd.SendAndDrain | liblo-0.26-modified/src/server.c:854-922 | serialising a bundle of sendable messages with a time tag later than the clock, dispatching the bytes and draining the queue delivers, from the bundle's place in the queue on, each message with its path, its type tags and the bytes of every argument, in bundle order; every queued item is taken once, the bundle's in one batch next to each other, and no two batches have a time tag in common |
| EndToEnd.Feed | liblo-0.26-modified/src/server.c:885-916 | a bundle with a time tag later than the clock is queued as one block behind everything not later and in front of everything later, nothing is dispatched, and the answer is the size of the data |
| EndToEnd.FeedDue | liblo-0.26-modified/src/server.c:885-907 | a bundle with the immediate tag, or one not later than the clock, is dispatched on arrival, message by message in order with paths, tags and argument bytes, and nothing is queued |
| EndToEnd.FeedMessage | liblo-0.26-modified/src/server.c:911-922 | a message without a bundle is dispatched on arrival with its path, tags and argument bytes, and the answer is its size |
| EndToEnd.FeedAny | liblo-0.26-modified/src/server.c:885-916 | any validated bundle: what its elements in front of the first bad one parse to is queued as one block or dispatched, by its tag against the clock, and the answer is that element's negated error or the size |
| EndToEnd.FeedBad | liblo-0.26-modified/src/server.c:854-922 | data that is no string in front, a broken bundle or a bad message changes nothing, and the answer is the negated code of what is wrong with its bytes |
| EndToEnd.RecvMessage | liblo-0.26-modified/src/server.c:713-806 | with nothing queued and a ready socket: one poll of ten seconds, the message is dispatched, and the answer is its size |
| EndToEnd.RecvBad | liblo-0.26-modified/src/server.c:713-806 | the same with data that is refused: nothing is dispatched or queued, and the answer is -1 |
| EndToEnd.Drain | liblo-0.26-modified/src/server.c:1173-1203 | calling dispatch_queued until the queue is empty delivers each queued item once, in queue order, keeps a block of items with one time tag together in one batch, and ends no batch between two items with the same time tag |
| EndToEnd.BundleIsRead | liblo-0.26-modified/src/server.c:885-916 | what the dispatch loop reads from a serialised bundle is its time tag and all of its messages, without an error |
| EndToEnd.HalfRefused | liblo-0.26-modified/src/server.c:891-916 | a concrete valid bundle whose first message is taken and whose second element is then answered with an error |
| EndToEnd.PrintThenParse | liblo-0.26-modified/src/message.c:755-872 | a well-formed message, however built, comes back from its serialised bytes with the same type string, data bytes and argument places, unless a blob is over the limit, which is refused |
| EndToEnd.ParseThenPrint | liblo-0.26-modified/src/message.c:755-872 | any accepted byte string, parsed and serialised again under its path, comes out unchanged |
| Codec.PrintParse | liblo-0.26-modified/src/message.c:755-872 | parsing the serialised form of any well-formed message gives the message back exactly when no blob is over the limit, and otherwise LO_EINVALIDARG |
| Codec.OversizedBlob | liblo-0.26-modified/src/message.c:536-561 | the second answer happens: a message with a blob one byte over the limit |
| Codec.ParsePrint | liblo-0.26-modified/src/message.c:789-872 | whatever byte string the parser accepts is the serialised form of the well-formed message it is read as |
| Codec.AcceptedExactly | liblo-0.26-modified/src/message.c:789-872 | a byte string is accepted if and only if some well-formed message without an oversized blob serialises to it |
| Codec.PrintInjective | liblo-0.26-modified/src/message.c:755-786 | two sendable messages with the same serialised form are the same message |
| Codec.PrintParseArgs | liblo-0.26-modified/src/message.c:846-865 | the argument loop reads back the wire bytes of any argument list within the limit and refuses any other |
| Codec.ParsePrintArgs | liblo-0.26-modified/src/message.c:846-865 | the arguments the loop reads have the given type tags and exactly the bytes that were read |
| Codec.ArgPrintRead | liblo-0.26-modified/src/message.c:603-637 | one argument's wire bytes are accepted with their exact length, whatever follows them, unless it is an oversized blob |
| Codec.ArgReadPrint | liblo-0.26-modified/src/message.c:603-637 | the bytes accepted for one argument are the wire bytes of a valid argument with that tag |
| Codec.StringAccepted | liblo-0.26-modified/src/message.c:507-534 | the string validator accepts exactly a C string, its terminator and zeros up to the next multiple of four |
| Codec.BlobAccepted | liblo-0.26-modified/src/message.c:536-561 | a blob on the wire is accepted with its exact size if and only if its size is within LO_MAX_MSG_SIZE |
| Refusals.RefusedExactly | liblo-0.26-modified/src/message.c:789-872 | which error code answers which buffer, for all buffers: no bytes or bytes behind a whole message, no path string, nothing behind the path, no type string, no comma, an argument that is refused |
| Refusals.StringAnswer | liblo-0.26-modified/src/message.c:507-534 | the string validator told from the bytes: no terminator, an end past the buffer, a non-zero padding byte, or the end |
| Refusals.BlobAnswer | liblo-0.26-modified/src/message.c:536-561 | the blob validator told from the bytes: fewer than eight bytes, a size field over 32768 or past the buffer, a non-zero padding byte, or the end |
| Refusals.UnknownType | liblo-0.26-modified/src/message.c:603-637 | the code for an unknown type answers exactly the type tags that are none of the fourteen |
| Refusals.BundleAnswer | liblo-0.26-modified/src/message.c:563-601 | the bundle validator accepts exactly the mark, a time tag and elements behind their sizes, answers that it is no bundle exactly if another string is in front, and a size error to everything else |
| Refusals.MessageBytes | liblo-0.26-modified/src/message.c:755-786 | the twelve bytes of the message `/a` with the number 42 |
| Refusals.BundleBytes | liblo-0.26-modified/src/bundle.c:74-125 | the bytes of a bundle of that message |
| Validation.ValidateString | liblo-0.26-modified/src/message.c:507-534 | the two loops answer the padded length of the string or the negated code of the first violation |
| Validation.ValidateBlob | liblo-0.26-modified/src/message.c:536-561 | the size test and the padding loop answer the padded length of the blob or the negated code of the first violation |
| Validation.ValidateArg | liblo-0.26-modified/src/message.c:603-637 | the length of an argument of any type, or the negated code of what is wrong with it |
| Arguments.SwappedTwice | liblo-0.26-modified/src/message.c:640-705 | going from host to network order and back, for every type, changes nothing |
| Arguments.NumberOnWire | liblo-0.26-modified/src/message.c:674-688 | 32-bit numbers and characters are on the wire with the most significant byte first |
| Arguments.LongOnWire | liblo-0.26-modified/src/message.c:684-688 | 64-bit integers and doubles are on the wire with the most significant byte first |
| Arguments.TimetagOnWire | liblo-0.26-modified/src/message.c:684-688 | a time tag argument goes out with its fractions in front of its seconds, and in OSC's order if and only if the two are equal |
| Arguments.PlainOnWire | liblo-0.26-modified/src/message.c:690-698 | MIDI packets and strings are on the wire as they are, strings with one to four zeros up to a multiple of four |
| Arguments.TagsExist | liblo-0.26-modified/src/message.c:603-637 | the fourteen type tags there are, and how many bytes the fixed ones have |
| Arguments.ArgSizeIs | liblo-0.26-modified/src/message.c:466-499 | lo_arg_size finds the end of every valid argument, whatever bytes follow |
| Arguments.BlobSizeExact | liblo-0.26-modified/src/blob.c:57-62 | for sizes below 2^31 the 32-bit arithmetic of lo_blobsize gives the padded size of the size word and the data |
| Blobs.BlobNew | liblo-0.26-modified/src/blob.c:23-40 | a new blob holds its size word and the data, if any is given; there is none for a size below one |
| Blobs.DataSize | liblo-0.26-modified/src/blob.c:47-50 | the data size of a blob is the number of bytes behind its size word |
| Blobs.BlobInMessage | liblo-0.26-modified/src/blob.c:57-62 | lo_blobsize is the size the blob takes as an argument, always more than the blob itself, which it starts with |
| Messages.Message.constructor | liblo-0.26-modified/src/message.c:66-86 | a new message is well formed and has no arguments |
| Messages.Message.AddTypechar | liblo-0.26-modified/src/message.c:412-432 | the type string grows by one tag, stays terminated inside its buffer, and the argument cache is dropped |
| Messages.Message.AddData | liblo-0.26-modified/src/message.c:434-459 | room for s more bytes behind the old data, which is kept, in a buffer found by doubling; the argument cache is dropped |
| Messages.Message.AddFixed | liblo-0.26-modified/src/message.c:261-285 | numbers, time tags and MIDI packets: one more argument, everything else as before, buffers and cache well formed |
| Messages.Message.AddText | liblo-0.26-modified/src/message.c:287-297 | a string or symbol is appended with its zero padding |
| Messages.Message.AddBlob | liblo-0.26-modified/src/message.c:299-313 | a blob is appended with its size word, its data and zero padding |
| Messages.Message.AddChar | liblo-0.26-modified/src/message.c:366-378 | a character is appended, of whose four bytes only the first is determined |
| Messages.Message.AddFlag | liblo-0.26-modified/src/message.c:392-410 | true, false, nil and infinitum add a type tag and no data |
| Messages.Message.GetArgv | liblo-0.26-modified/src/message.c:727-747 | the cached or freshly walked vector gives the place of every argument, and none for arguments without bytes |
| Messages.PlacePoints | liblo-0.26-modified/src/message.c:727-747 | the place of an argument is where its bytes are in the data, and exactly arguments without bytes have none |
| Messages.ContentCarries | liblo-0.26-modified/src/message.c:848-865 | what a message holds: one tag per argument, and the bytes of each argument behind those of the ones before it |
| Messages.Message.Length | liblo-0.26-modified/src/message.c:717-720 | the length is that of the serialised form under the path |
| Messages.Message.Serialise | liblo-0.26-modified/src/message.c:755-786 | exactly the serialised form is written at the given place and nothing else changes |
| Messages.Message.ToNetwork | liblo-0.26-modified/src/message.c:776-784 | the in-place loop brings every argument behind the head to network order and touches nothing else |
| Messages.Deserialise | liblo-0.26-modified/src/message.c:789-872 | a new well-formed message with exactly the parsed arguments in host order and its argument cache filled, or null and the parser's error code |
| Messages.ReadLoop | liblo-0.26-modified/src/message.c:852-865 | the validating loop leaves the arguments read so far in host order, the rest untouched, and notes where each starts |
| Messages.LoopAnswers | liblo-0.26-modified/src/message.c:852-869 | the loop's three ends - all read, bytes left over, argument refused - are the parser's three answers |
| Bundles.Bundle.AddMessage | liblo-0.26-modified/src/bundle.c:37-55 | a message is appended under its path; a null message changes nothing |
| Bundles.Bundle.Length | liblo-0.26-modified/src/bundle.c:57-72 | the length is that of the serialised bundle |
| Bundles.Bundle.Serialise | liblo-0.26-modified/src/bundle.c:74-125 | the serialised bundle is written from the start of the buffer, nothing else changes, and neither data integrity error is ever returned |
| Bundles.Bundle.SendAll | liblo-0.26-modified/src/bundle.c:106-117 | no message ever runs past the computed length |
| Bundles.BundleAccepted | liblo-0.26-modified/src/message.c:563-601 | every serialised bundle is accepted by the validator, and its elements are the serialised messages in order |
| Bundles.ElementsTile | liblo-0.26-modified/src/message.c:586-599 | a validated bundle body is its elements behind their size words, without a byte left over |
| Bundles.ValidateBundle | liblo-0.26-modified/src/message.c:563-601 | the validator's answer for any bytes: the size, or the code of the first violation |
| Timetags.DiffIsOrder | liblo-0.26-modified/src/timetag.c:29-33 | the sign of lo_timetag_diff is the lexicographic order of seconds and fractions, although its constant is rounded |
| Timetags.BeforeIs | liblo-0.26-modified/src/timetag.c:29-33 | that order is the order of the 64-bit values |
| Timetags.WithinEpsilon | liblo-0.26-modified/src/server.c:1200 | exactly which tags fall within FLT_EPSILON of the head: 512 units in the same second, 511 across the turn of a second |
| TimedQueue.Queue.QueueData | liblo-0.26-modified/src/server.c:1136-1171 | the linked list becomes the old one with the new item in front of the first later item |
| TimedQueue.Queue.Advance | liblo-0.26-modified/src/server.c:1190-1199 | the head is taken off, the rest is unchanged |
| TimedQueue.RunsKeepOrder | liblo-0.26-modified/src/server.c:1148-1200 | over any run the queue stays sorted, dispatched plus queued is the multiset of everything queued, and items with equal tags keep their order of arrival |
| TimedQueue.BlockLands | liblo-0.26-modified/src/server.c:1148-1170 | items with one time tag queued in a row stand together behind everything not later |
| TimedQueue.BundlesStayWhole | liblo-0.26-modified/src/server.c:1148-1200 | after any further calls a bundle's items are still next to each other in the queue, or were next to each other in one batch taken off after they had arrived |
| TimedQueue.LaterWhole | liblo-0.26-modified/src/server.c:1148-1200 | a block queued after n batches that is in one piece after some calls, in the queue or in a later batch, is so after any further calls |
| TimedQueue.BatchIsExactly | liblo-0.26-modified/src/server.c:1200 | an item of a sorted queue is in the batch if and only if it is less than FLT_EPSILON after the head |
| TimedQueue.BatchIsSelection | liblo-0.26-modified/src/server.c:1200 | a batch is the selection of all such items, and what stays is the selection of all others |
| TimedQueue.Drained | liblo-0.26-modified/src/server.c:1185-1200 | as many dispatches as there are queued items leave nothing queued |
| TimedQueue.SameTagSameBatch | liblo-0.26-modified/src/server.c:1200 | a batch never ends between two items with the same time tag |
| TimedQueue.BatchApart | liblo-0.26-modified/src/server.c:1200 | taking a batch off a queue keeps batches and queue without a time tag in common |
| TimedQueue.DispatchKeepsBlock | liblo-0.26-modified/src/server.c:1200 | the batch limit never falls inside a block of items with one time tag |
| Chains.LinkIn | liblo-0.26-modified/src/server.c:1148-1170 | the pointer splice puts one cell into the list and keeps every other link |
| Chains.LinkOut | liblo-0.26-modified/src/server.c:1266-1273 | the pointer splice takes one cell out and keeps every other link, without looking at a freed predecessor of the head |
| MethodTable.Table.AddMethod | liblo-0.26-modified/src/server.c:1205-1245 | paths with a special character are refused and change nothing; any other method is appended |
| MethodTable.Table.DelMethod | liblo-0.26-modified/src/server.c:1247-1283 | the list becomes exactly the sublist of methods that do not match, in order, also for runs of matches at its head |
| MethodTable.SparesExactly | liblo-0.26-modified/src/server.c:1247-1283 | what a deletion spares: methods with another typespec, and by path all methods with a path, all with another path, or all whose path is not the pattern and cannot be cut by its tokens |
| MethodTable.PatternExactly | liblo-0.26-modified/src/server.c:1212-1212 | a path is a pattern exactly if it contains one of nine characters |
| MethodTable.Match | liblo-0.26-modified/src/pattern_match.c:93-248 | the matcher on signed characters: the glob relation for every pattern it is defined for |
| MethodTable.MatchesByPieces | liblo-0.26-modified/src/pattern_match.c:93-248 | a pattern matches exactly the strings that can be cut into one piece per token |
| MethodTable.CharExactly | liblo-0.26-modified/src/pattern_match.c:93-175 | characters compare as signed bytes |
| MethodTable.PlainPath | liblo-0.26-modified/src/pattern_match.c:93-248 | a path without special characters matches itself only |
| Dispatch.LoCanCoerceSpec | liblo-0.26-modified/src/server.c:1369-1391 | true exactly when both type strings have one length and every pair of types is equal, numerical or textual |
| Dispatch.CoercionClasses | liblo-0.26-modified/src/server.c:1385-1391 | which types can be coerced is an equivalence with the classes i f h d, s S, and every other type alone |
| Dispatch.FitsExactly | liblo-0.26-modified/src/server.c:1009-1014 | which methods a path reaches: those without a path, the one with a plain path, and those whose path is the pattern or can be cut by its tokens |
| Dispatch.TypesFitExactly | liblo-0.26-modified/src/server.c:1015-1028 | which types reach a method: all without a typespec, else those of the same number that can be coerced one by one |
| Dispatch.Told | liblo-0.26-modified/src/server.c:1009-1056 | each call goes to the handler of a registered method that the path and the types fit, and tells it the method's own path and types where it has them, else the message's |
| Dispatch.CallMethods | liblo-0.26-modified/src/server.c:1009-1062 | the handlers called are those of the eligible methods in order of registration; the last answer is kept, and the message's own argument vector is gone if any call got a converted copy |
| Dispatch.CallsStop | liblo-0.26-modified/src/server.c:1058-1060 | a pattern reaches every eligible method once; a plain path those up to and including the first handler that answers 0 |
| Dispatch.CallsAre | liblo-0.26-modified/src/server.c:1009-1056 | call number i goes to eligible method i, with the method's own path and types where it has them, with a copy of the arguments if it needs a conversion, and otherwise with the message's own vector, or a null one if there are no arguments or an earlier call was a copy |
| Dispatch.GoneIs | liblo-0.26-modified/src/server.c:1027-1055 | the message's argument vector is lost exactly if some call got a converted copy |
| Dispatch.NullExactly | liblo-0.26-modified/src/server.c:947-1055 | a handler gets a null argument vector if and only if its method needs no conversion and the message has no arguments or an eligible method registered before it needs one |
| Dispatch.LostExactly | liblo-0.26-modified/src/server.c:1027-1055 | if no handler stopped the dispatch, the vector is lost if and only if some eligible method needs a conversion |
| Dispatch.VectorGone | liblo-0.26-modified/src/server.c:1023-1077 | a concrete table and message for which a handler gets a null vector and the enumeration reply is due without one |
| Dispatch.DispatchMethod | liblo-0.26-modified/src/server.c:942-1129 | the calls of the loop and then, exactly for a path ending in a slash that no handler took care of over UDP, the enumeration reply, which reads through a null vector exactly if the call carries a number and some eligible method needs a conversion |
| Dispatch.EnumeratesExactly | liblo-0.26-modified/src/server.c:1063-1071 | an enumeration call is a path with a slash at the end over UDP for which no handler was called or the last one answered 1 |
| Enumeration.Answer | liblo-0.26-modified/src/server.c:1071-1121 | the reply is the number of the call if it had one, the path, and the components |
| Enumeration.ReplyIs | liblo-0.26-modified/src/server.c:1071-1121 | the reply argument by argument: the number of the call if there is one, and then strings, first the path and then, each once, exactly the components that follow it in registered paths |
| Enumeration.ComponentsAre | liblo-0.26-modified/src/server.c:1079-1109 | the components offered are exactly the next path components of the methods below the path |
| Enumeration.ComponentExactly | liblo-0.26-modified/src/server.c:1082-1092 | the component of a method is what follows the path in the method's path, without a slash, up to the end or a slash |
| Enumeration.FirstsSame | liblo-0.26-modified/src/server.c:1094-1108 | dropping repetitions loses no component and adds none |
| Enumeration.FirstsDistinct | liblo-0.26-modified/src/server.c:1094-1108 | no component is listed twice |
| Enumeration.ComponentsGrow | liblo-0.26-modified/src/server.c:1079-1109 | the list for the first k methods is a prefix of the whole list |
| Enumeration.ComponentsListed | liblo-0.26-modified/src/server.c:1079-1121 | the reply's list: exactly the next components of the methods below the path, each once, in order of first registration |
| Enumeration.Collect | liblo-0.26-modified/src/server.c:1079-1109 | the two nested loops build that list |
| Coercion.CoerceAll | liblo-0.26-modified/src/server.c:1023-1044 | the size added up in the first pass is where the second pass ends, and every converted argument is in its own slot, at which the argument vector points |
| Coercion.SizeBefore | liblo-0.26-modified/src/server.c:1030-1033 | the size of the converted argument can be read off the source argument, for every convertible pair of types |
| Coercion.SizeAfter | liblo-0.26-modified/src/server.c:1038-1044 | it can be read off the destination too, although strcpy does not write the padding |
| Coercion.LoCoerce | liblo-0.26-modified/src/message.c:1017-1058 | one conversion writes its slot only: the whole argument if the types agree, the string with its terminator, or a number of the target size |
| Coercion.ConversionKeeps | liblo-0.26-modified/src/message.c:1017-1058 | arguments of the right type and the text of strings are kept, and numbers get the type asked for and its size |
| Coercion.OwnSlots | liblo-0.26-modified/src/server.c:1038-1044 | slots do not overlap and end inside the buffer |
| Server.HalfTaken | liblo-0.26-modified/src/server.c:891-916 | the items taken from a bundle's elements are what those in front of the first bad one are read as, the error is that element's, and nothing is taken if and only if there is no element or the first is bad |
| Server.WholeOrNothing | liblo-0.26-modified/src/server.c:891-916 | a bundle is taken without an error if and only if every element parses, and nothing of it is taken if and only if it has no element or the first does not parse |
| Server.ItemCarries | liblo-0.26-modified/src/server.c:891-907 | an item has the bundle's time tag and the message's path, type tags and argument bytes |
| Server.BundleMarked | liblo-0.26-modified/src/server.c:863-863 | data is taken for a bundle exactly if it starts with the mark and its terminator |
| Server.DueExactly | liblo-0.26-modified/src/server.c:899-902 | a bundle is dispatched at once if and only if its tag is the immediate one or not later than the clock |
| Server.Server.DispatchData | liblo-0.26-modified/src/server.c:854-922 | all outcomes: refused data changes nothing; a message is dispatched; of a bundle everything in front of the first bad element is dispatched or queued, with the size or the negated error code as answer |
| Server.Server.DispatchElements | liblo-0.26-modified/src/server.c:891-916 | the loop visits exactly the elements of the bundle and stops at the first that is not a message |
| Server.Server.DispatchBundle | liblo-0.26-modified/src/server.c:885-916 | a bundle is dispatched at once if its tag is the immediate one or not in the future of the one clock reading, else queued |
| Server.Server.DispatchQueued | liblo-0.26-modified/src/server.c:1173-1203 | an empty queue is an error and changes nothing; otherwise exactly the items less than FLT_EPSILON after the head are delivered in order and taken off, and exactly the others stay |
| Server.Server.StaysInOrder | liblo-0.26-modified/src/server.c:1136-1203 | whatever a server was asked to do, its queue is sorted, nothing was lost or doubled, and equal tags kept their order |
| Server.Server.StaysWhole | liblo-0.26-modified/src/server.c:1136-1203 | between any two moments of a server's life: a block of items with one time tag that was queued after n batches is still together in the queue or was taken off in one later batch, so every bundle, also one that was sent before, is delivered in one batch whatever else arrives and is dispatched in between |
| Server.Server.NextEventDelay | liblo-0.26-modified/src/server.c:924-940 | the seconds until the head is due, between 0 and 100, and 100 for an empty queue |
| Server.DelayIsNearest | liblo-0.26-modified/src/server.c:924-940 | the delay is the number between 0 and 100 nearest to the time until the head's tag |
| Server.Server.Poll | liblo-0.26-modified/src/server.c:717-758 | the poll loop ends only if the head is due by the last clock reading or a socket decides; every poll was made because the head was not due by the reading before it and was given the time until then, at most ten seconds; a head already due means no poll at all |
| Server.AwakeInTime | liblo-0.26-modified/src/server.c:730-739 | the timeout of a poll is the whole milliseconds until the head's time tag, never more, or ten seconds if that is less or nothing is queued |
| Server.NeverLate | liblo-0.26-modified/src/server.c:730-758 | no poll of lo_server_recv sleeps past the time tag of the head, by the clock reading before the poll |
| Server.ScannedIs | liblo-0.26-modified/src/server.c:741-750 | the first socket with an event decides: an error or a hang-up ends the receiving, anything else is data |
| Server.Server.Recv | liblo-0.26-modified/src/server.c:713-806 | a batch is dispatched only from a non-empty queue and never more than 0.01 s + FLT_EPSILON before any of its tags; otherwise the data of the socket is dispatched, or nothing happens; which of these, and how often and how long it polled, is decided by the answers of poll |
| Server.BatchOnTime | liblo-0.26-modified/src/server.c:753-758 | the bound on early dispatch, for every item of the batch |
| Server.Server.Wait | liblo-0.26-modified/src/server.c:643-701 | answers 1 exactly if the head is due within 0.01 s by the second clock reading or a socket has something, else 0; the poll waits for the shorter of the given time and the time until the next event |
| Server.Server.RecvNoblock | liblo-0.26-modified/src/server.c:703-711 | without an event nothing is done; else exactly one outcome of lo_server_recv, with a batch, the data of a socket or nothing; and with a clock that does not run backwards, a wait that ended because an event is due is followed by its dispatch without a poll |
| PatternMatch.LoPatternMatch | liblo-0.26-modified/src/pattern_match.c:93-248 | the loop-and-recursion matcher with its skip-ahead answers the glob relation, for every string and every readable pattern, and terminates |
| PatternMatch.ReadableWithoutBraces | liblo-0.26-modified/src/pattern_match.c:93-248 | the patterns the matcher is proved for include all without an opening brace that do not end with `[!` |
| PatternMatch.MatchSet | liblo-0.26-modified/src/pattern_match.c:127-175 | the set scanner answers membership in the set of the pattern and resumes behind the same closing bracket |
| PatternMatch.ScanWindow | liblo-0.26-modified/src/pattern_match.c:137-165 | one turn of the overlapping-window scan decides exactly the positions it passes |
| PatternMatch.MatchMany | liblo-0.26-modified/src/pattern_match.c:99-116 | the star case, with runs of stars and the skip to the next literal, answers the glob relation |
| PatternMatch.GlobIsCutting | liblo-0.26-modified/src/pattern_match.c:93-248 | the glob relation holds exactly if the string can be cut into one piece per token, each matching its token |
| PatternMatch.StarIs | liblo-0.26-modified/src/pattern_match.c:99-122 | a star stands for any string |
| PatternMatch.QueryIs | liblo-0.26-modified/src/pattern_match.c:118-122 | a question mark stands for any one character |
| PatternMatch.LiteralIs | liblo-0.26-modified/src/pattern_match.c:238-247 | any character but the star, the question mark and the opening bracket stands for itself |
| PatternMatch.SetIs | liblo-0.26-modified/src/pattern_match.c:127-175 | a closed set stands for one character that its body has, or has not after an exclamation mark |
| PatternMatch.OpenSetIs | liblo-0.26-modified/src/pattern_match.c:137-140 | a set that is not closed matches nothing |
| PatternMatch.PlainSet | liblo-0.26-modified/src/pattern_match.c:155-165 | a body without hyphens has exactly the characters listed |
| PatternMatch.RangeSet | liblo-0.26-modified/src/pattern_match.c:141-154 | a range has its two ends and what lies strictly between them, and without an upper end everything from its lower end on |
| PatternMatch.SetUnion | liblo-0.26-modified/src/pattern_match.c:137-165 | a body that is not cut inside a range has the characters of both parts |
| PatternMatch.PlainMatchesItself | liblo-0.26-modified/src/pattern_match.c:238-247 | a pattern without wildcards matches itself only |
| ConditionVariable.StepInv | Pre-built.2/README.CV:1125-1505 | every step of every thread keeps the five-part invariant, unless the variable was freed |
| ConditionVariable.RunInv | Pre-built.2/README.CV:1125-1505 | the invariant holds in every state of every run |
| ConditionVariable.WhoWaits | Pre-built.2/README.CV:1125-1505 | an operation goes on unless it waits for the gate, the mutex or a token, and which steps may fail or time out where |
| ConditionVariable.OperationEnds | Pre-built.2/README.CV:1125-1505 | until its next call a thread takes at most the steps left in its operation, never more than fourteen, and is back outside when they are taken |
| ConditionVariable.FreedLast | Pre-built.2/README.CV:1174-1178 | a variable is freed exactly by the freeing step, and nothing happens afterwards |
| ConditionVariable.GateExclusion | Pre-built.2/README.CV:1340-1353 | at most one thread holds the gate, and while one does no batch is in progress |
| ConditionVariable.WaiterConservation | Pre-built.2/README.CV:1249-1251 | nWaitersBlocked minus nWaitersUnblocked is the number of threads counted and not cleaned up |
| ConditionVariable.DestroyAnswers | Pre-built.2/README.CV:1147-1174 | destroy goes on to free exactly when no thread is counted and not cleaned up, and otherwise answers EBUSY |
| ConditionVariable.NoStrandedSignal | Pre-built.2/README.CV:1251-1288 | while signals are owed there are at least as many waiters, and the queue semaphore is positive or some thread carries the signal, timeouts included |
| ConditionVariable.TokenLedger | Pre-built.2/README.CV:1251-1288 | in every state of every run, timeouts included, the tokens in the queue semaphore and on their way are one for an open batch, plus the signals taken over by waiters that gave up, minus the wakeups that found no signal |
| ConditionVariable.WastedWasTaken | Pre-built.2/README.CV:1251-1288 | a wakeup without a signal is always paid for by a signal taken over before |
| ConditionVariable.OneTokenExactly | Pre-built.2/README.CV:1251-1288 | there is exactly one token while signals are owed, and none otherwise, if and only if every signal taken over has been made up for |
| ConditionVariable.OneTokenAlways | Pre-built.2/README.CV:1251-1288 | without timeouts that is always so, and every waiter that reaches the test was woken and is owed a signal |
| ConditionVariable.NoSpuriousWakeup | Pre-built.2/README.CV:1251-1256 | while every signal taken over has been made up for, a woken waiter is owed a signal |
| ConditionVariable.DestroyLeaves | Pre-built.2/README.CV:1147-1178 | when destroy frees, every other thread is outside, waits for the gate semaphore or has a post to the queue semaphore left to do |
| ConditionVariable.NonePosting | Pre-built.2/README.CV:1164-1178 | when destroy frees, no other thread has a post left to do if and only if the tokens left in the queue semaphore and the wakeups without a signal make up for the signals taken over |
| ConditionVariable.DestroySafeExactly | Pre-built.2/README.CV:1164-1178 | when destroy frees, every other thread is outside if and only if the tokens left in the queue semaphore and the wakeups without a signal make up for the signals taken over, and no other thread waits for the gate semaphore |
| ConditionVariable.DestroySafe | Pre-built.2/README.CV:1164-1178 | in particular destruction is safe, be there timeouts or not, when every signal taken over has been made up for and no other thread waits for the gate semaphore |
| ConditionVariable.DestroyRace | Pre-built.2/README.CV:1164-1178 | the first condition is needed: a run in which destroy is about to free while a signaller is about to post |
| ConditionVariable.GateRace | Pre-built.2/README.CV:1164-1178 | so is the second, without any timeout: a run in which destroy is about to free the gate semaphore while a signaller waits for it, although no signal was taken over |
| ConditionVariable.BatchOpens | Pre-built.2/README.CV:1449-1484 | an unblock finds no unfinished batch, owes one signal or as many as threads are counted, and takes over exactly the counted threads |
| ConditionVariable.CallDecides | Pre-built.2/README.CV:1528-1545 | a thread that called signal decides as a signal, and one that called broadcast as a broadcast |
| ConditionVariable.BatchWasCalled | Pre-built.2/README.CV:1528-1545 | every batch was opened by a call of signal or broadcast of the same thread |
| ConditionVariable.BatchInv | Pre-built.2/README.CV:1251-1278 | while the gate is closed the signals still owed are those of the batch minus the decrements done |
| ConditionVariable.BatchServesItsNumber | Pre-built.2/README.CV:1251-1278 | the gate reopens after exactly one decrement for a call of signal and as many as there were counted waiters for a call of broadcast, by the thread that did the last |
| ConditionVariable.BroadcastInProgress | Pre-built.2/README.CV:1449-1484 | while a broadcast is in progress no new waiter is counted, and the signals owed are exactly the counted waiters not yet through |
| ConditionVariable.BroadcastComplete | Pre-built.2/README.CV:1251-1278 | when the gate reopens after a call of broadcast, every thread counted when it opened its batch has come through the decrement, timeouts included, each by a step of its own |
| ConditionVariable.BroadcastHappens | Pre-built.2/README.CV:1449-1541 | it happens: a run in which a call of broadcast wakes two blocked waiters, each makes its decrement and the gate reopens |
| ConditionVariable.ClosedGateMoves | Pre-built.2/README.CV:1245-1300 | while the gate is closed some thread inside can always take its next step |
| ConditionVariable.ClosedGateIsBounded | Pre-built.2/README.CV:1245-1300 | the steps taken inside while the gate stays closed are bounded by the work present when it closed |

## Left out

- PatternMatch.LoPatternMatch: for readable patterns only; brace lists, whose backtracking drops a character after a comma, and a `[!` at the very end of a pattern, which reads past the terminator, are not modelled.
- Coercion.LoCoerce: the values that numbers are converted to through `long double` are not modelled, only their size and place.
- Messages.Message.AddData: lengths are unbounded integers, so the overflow of `int` and `uint32_t` lengths beyond 2 GB is not modelled; the 32-bit arithmetic of size words is. Allocation succeeds.
- Messages.Message.AddFixed: a MIDI packet is the four bytes of its declaration, not the `sizeof` of the parameter.
- Bundles.Bundle.Serialise: assumes that no buffer of a message is the destination, and takes a null destination, which the source replaces by a fresh buffer, as given that fresh buffer.
- TimedQueue.Queue.QueueData: a queued message is its path, type tags and data bytes by value, so handlers that keep or change the message object they are given are not modelled.
- Dispatch.DispatchMethod: the sender's address is resolved without an error, handlers do not call back into the server, and the reply is handed over rather than sent. What the handlers find in their argument vector is `Coercion.CoerceAll` for converted copies and `Messages.Message.GetArgv` for the message's own.
- Server.Server.Recv: models the branch for poll; the branch for select differs in its error test. A run of polls longer than the given list is reported as `Waiting`.
- Server.Server.DispatchData: nested bundles are parsed as if they were messages, as in the source.
- ConditionVariable.StepInv: semaphore and mutex calls fail only where a run says so (gate waits, the release of the caller's mutex); the caller's own mutex is not modelled beyond that, static initialisation and the destruction of the three objects are single steps, and a freed variable takes no further steps.
- ConditionVariable.ClosedGateIsBounded: says how far a closed gate is from opening, not that a scheduler runs the threads.
- IEEE rounding: time differences are real numbers, which is exact for the sign and within one unit for the batch limit.
- Sockets, TCP streams, address resolution, URL parsing, pretty printers, varargs entry points, server threads and the Kinect front end.
