# libvarlink in Dafny

libvarlink is a C++ implementation of varlink: services describe their methods in an
interface language, and clients call them with JSON messages over a byte stream. This
project models its core and proves what it promises. Check it with
`dafny verify dfyconfig.toml`.

The three parts, each with its files:

- **Validation** of a JSON value against a type: `Json`, `TypeSpecs`, `Validator` (the code,
  and when it terminates), `Conformance` (what it accepts), `Verdicts` (the same in plain
  terms), `Weakening`.
- **The interface language**: `Lexer` (the token patterns), `Grammar` (what the scanner reads,
  as functions on the unread text), `Scanner` (the stateful scanner, proved to do just that),
  `Printer` (the text it writes, and the loops that write it), and the proofs about both:
  `TokenShapes` (the tokens by their characters), `PrintedLines` (the lines of the text),
  `DocCapture`, `TokenRoundTrip`, `TypeRoundTrip`, `Layout`, `InterfaceRoundTrip`,
  `ParserShape`, `RoundTripExact`, with `Examples` at concrete descriptions.
- **Calls over a byte stream**: `ManualStrand`, `JsonConnection`, `AsyncClient`, `SyncClient`,
  `ServerSession` (the classes, with their buffers, queues and flags), `Transport` (one
  direction of a connection), `Protocol` (client, two byte streams and session as a step
  relation), `Pairing`, `Progress`, `PairingExact`, `Mispairing`, above them `Message` and
  `Service`, `MethodCalls` (what a service answers, told from the call and the description
  alone), and `ServedCalls`, which puts the service behind the protocol.

The classes of the third part and the step relation of `Protocol` share their transitions:
each method's contract equates its new state with a function such as `Pushed`, `Sent`,
`CallPushed` or `AfterReply`, and the steps of `Protocol` are made of the same functions.

## What the proofs rely on

- The JSON library's `dump` and `parse` are parameters (`Codec`). They have to be `Faithful`
  to the messages that occur: parsing the dumped message gives it back, and there is no NUL
  in it, because section 7 of RFC 8259 requires control characters in strings to be escaped.
  Any list of messages has such a codec (`Transport.TableCodecIsFaithful`).
- A read gives at least one byte when the buffer has room, and a write takes at least one;
  how many is left open everywhere.
- Callbacks are `WellBehaved` in the theorems about pairing and progress: they use their reply
  function exactly once with a final reply, the last time, and before that only with continuing
  replies in `more` mode. This holds of oneway calls, too: their replies do not go over the
  connection, but the session reads its next request when one is given. Which callbacks are
  well behaved is stated in terms of what they send and throw (`Services.WellBehavedIff`), and
  `ServedCalls.ServedWorkIsProperIff` carries it over to the protocol.
- A service's interfaces have members as the parser delivers them (`Usable`).
- User handlers do not throw. Replies have a bool `continues` and a string `error`, if any;
  the code throws on others, the model reads them as not continuing and as an error.

## Where the code does not do what one expects

The model follows the code, and the lemmas named here show what that means:

- `validate` uses the same type again for the values of an array or dictionary. Nested
  containers are therefore flattened (`Conformance.NestingIsInvisible`), and a dictionary of
  structs accepts only trees without any leaf: `{"k": {"b": "x"}}` is rejected by
  `[string](b: string)` (`Conformance.DictOfStructs`, `Conformance.DictOfStructsExample`).
- On a cycle of bare aliases `validate` recurses for ever (`Validator.TerminatesIffAcyclic`),
  and a description with such a cycle parses (`Examples.CycleParses`).
- A oneway call that fails is answered with an error reply. Nobody waits for it, so it goes to
  the handler of the next call that waits (`Mispairing.FailedOnewayAnswersNextCall`,
  `ServedCalls.UnknownInterfaceAnswersNextCall`). Replies and handlers belong together in all
  runs exactly if a oneway call that fails is followed by oneway calls only
  (`PairingExact.AlwaysPairedIff`). Calls still all come to an end (`Progress.NoDeadlock`).
- A callback that never gives a final reply, even one of a oneway call that just returns, hangs
  its session: no later request is served (`ServedCalls.SilenceDoesNotEndWell`,
  `Protocol.SilentCallbackHangs`, `Protocol.HangsForEver`).
- A synchronous send while another write is running keeps the wire in whole frames only in the
  cases of `JsonConnections.SendKeepsFramesIff`.
- A frame that does not fit the read buffer makes the reader spin on reads into an empty
  range (`JsonConnections.StuckIffFrameTooLong`, outcome `Spinning` of `Receive`).
- Parsing what was printed gives an interface back exactly when it is `PrintableInterface`
  (`RoundTripExact.RoundTripIffPrintable`). Parsed interfaces that are not: those with `?`,
  `[]` or `[string]` directly on a `type` or `error` member, which is not printed
  (`Examples.FlaggedIsNotPrintable`); and those with documentation that has other text between
  its comments, as when comments stand on both sides of a keyword
  (`Examples.AroundIsNotPrintable`), or inside a type and behind it.
- `expect` reads the empty token at the end of the description. So an unclosed `(` at the end is
  an empty struct, and a `type` cut off behind its name is a member with the empty type name.
  Behind a struct field any keyword counts as a separator (`Grammar.ReadField`).

## Model

| member | source | states |
|---|---|---|
| Validator.TerminatesIffAcyclic | source/interface.cpp:38-98 | `validate` returns on all data and all types if and only if the interface has no cycle of bare type aliases; self-referential structs are fine |
| Validator.BoundSuffices | source/interface.cpp:70-94 | with acyclic aliases a call stack of (members + 2) * nesting depth + length of the alias chain + 1 suffices: the measure is JSON depth, then alias rank |
| Validator.TerminatesWithinBound | source/interface.cpp:38-98 | on any interface, one call ends if and only if it ends within that bound |
| Validator.ChainsAreShort | source/interface.cpp:73-74 | an alias chain that stops at all, at a primitive type or at the end of the chain, stops within as many steps as there are members |
| Validator.MaybeIsIgnored | source/interface.cpp:82-93 | the `?` flag has no influence on checking a value; only the struct loop looks at it |
| Conformance.VerdictIsConformance | source/interface.cpp:38-98 | the verdict of every call that ends, on any interface, is "accept" if and only if each leaf of the tree cut at flagged containers is a value of the element type, a bare non-container being refused for a flagged named type |
| Conformance.NamedElement | source/interface.cpp:70-79 | the values of a named type are those of the primitive type or of the type that has the name, through any chain of aliases |
| Validator.VerdictIsStable | source/interface.cpp:38-98 | more stack never changes a verdict, the exception's text included |
| Conformance.Validate | include/varlink/interface.hpp:47-51 | the call with the default arguments: it has one verdict, which is conformance, unless it never comes back; with acyclic aliases it does |
| Verdicts.PrimitiveValues | source/interface.cpp:44-49 | for a name that the interface does not declare: `string`, `int` and `bool` take exactly strings, integers and booleans, `float` integers and floats, `object` all but null, any other name nothing |
| Verdicts.DeclaredType | source/interface.cpp:70-79 | a declared name has in every case the verdict of the type declared |
| Verdicts.EnumValues | source/interface.cpp:51-58 | an enum takes exactly the strings that it lists, and the exception holds the value |
| Verdicts.FlaggedNeedsContainer | source/interface.cpp:70 | a name with `[]` or `[string]` refuses every value that is not in a container |
| Verdicts.ArrayOfValues | source/interface.cpp:65-69 | `[]T` takes exactly the arrays of values of `T`, nested arrays aside |
| Verdicts.DictOfValues | source/interface.cpp:60-64 | `[string]T` takes exactly the objects whose values are of `T`, nested objects aside |
| Verdicts.StructValues | source/interface.cpp:81-94 | a struct takes exactly the objects in which no required field is absent or null and every field that is there is of its type; other keys do not matter |
| Verdicts.FirstBadField | source/interface.cpp:83-93 | the exception is about the first field that is missing, by its name, or wrong, as the check of its value under its name says |
| Conformance.NullNeverConforms | source/interface.cpp:44-49 | null is a value of no type, through any chain of aliases |
| Conformance.OneLayer | source/interface.cpp:60-69 | with one layer of containers, `[]T` and `[string]T` mean that every value in it is a `T` |
| Conformance.NestingIsInvisible | source/interface.cpp:65-69 | putting an item of an array into one more array never changes the verdict |
| Conformance.DictOfStructs | source/interface.cpp:60-63 | `[string](...)` accepts a value if and only if it is a tree of containers without leaves |
| Conformance.DictOfStructsExample | source/interface.cpp:60-63 | a struct value that its own type accepts is refused inside a dictionary of that type |
| Weakening.WeakerAcceptsMore | source/interface.cpp:38-98 | conformance survives replacing types anywhere inside by more permissive ones under the same collection flags |
| Weakening.ValidateIsMonotone | source/interface.cpp:38-98 | the same about verdicts: weakening never turns acceptance into rejection, in the type and in all types of the interface |
| TypeSpecs.FindMember | source/interface.cpp:22-36 | the member found has the name and the kind asked for; if none is found there is none |
| Scanning.DropMatchLength | include/varlink/detail/scanner.hpp:203 | dropping as many characters as the match is long, not up to its end, never loses a later comment: the next search ends where the last comment ends, or there is no more |
| Scanning.LastIsGreatest | include/varlink/detail/scanner.hpp:233 | `LastComment` is the greatest end of a newline-terminated line with a `#` in it |
| Scanning.FirstIsLeast | include/varlink/detail/scanner.hpp:195 | the leftmost match of the search ends at the least such end |
| Scanning.Scanner.CaptureDocstrings | include/varlink/detail/scanner.hpp:194-205 | the search loop makes `current_doc_` run from the start of the first comment line to the end of the last one, keeping an earlier start |
| Scanning.Scanner.ConsumeWhitespace | include/varlink/detail/scanner.hpp:191-208 | skips the longest run of blanks and comments and captures its documentation |
| Scanning.Scanner.ExpectToken | include/varlink/detail/scanner.hpp:210-225 | the longest match of the first pattern that matches; nothing at the end; every other success moves `pos_` forward, and a failure has skipped the white space |
| TokenShapes.IdentifierIs | include/varlink/detail/scanner.hpp:238 | an identifier is a letter and then letters, digits and underscores, no two underscores in a row and none at the end |
| TokenShapes.MemberNameIs | include/varlink/detail/scanner.hpp:237 | a member name is an upper-case letter and then letters and digits |
| TokenShapes.KeywordIs | include/varlink/detail/scanner.hpp:234 | a keyword is a word of lower-case letters or one of ten symbols |
| TokenShapes.KeywordOrMemberIs | include/varlink/detail/scanner.hpp:121 | what `read_type_spec` reads is a keyword or a member name |
| TokenShapes.InterfaceNameIs | include/varlink/detail/scanner.hpp:236 | an interface name starts with a lower-case letter, has such letters, digits, dashes and at least one dot, and a letter or digit beside each dot and at the end |
| TokenShapes.WordsEnd | include/varlink/detail/scanner.hpp:234-238 | a word is matched only where no letter, digit or underscore follows |
| TokenShapes.SpaceIsSpace | include/varlink/detail/scanner.hpp:232 | skipped white space is blanks, tabs, newlines and the rest of lines behind a `#` |
| TokenShapes.SpaceEnds | include/varlink/detail/scanner.hpp:232 | and it ends only where none of these goes on |
| DocCapture.CapturesFirstToLast | include/varlink/detail/scanner.hpp:191-215 | between two calls of `get_docstring`, after any uses of `expect`, failing ones included, `current_doc_` runs from the first newline-terminated comment line in any skipped space to the end of the last one |
| DocCapture.CapturedText | include/varlink/detail/scanner.hpp:69 | and `get_docstring` then hands out that stretch of the description |
| Scanning.Scanner.ExpectKeywordToken | include/varlink/detail/scanner.hpp:62-67 | succeeds exactly on the given keyword |
| Scanning.Scanner.GetDocstring | include/varlink/detail/scanner.hpp:69 | hands out the captured stretch of the description and empties it |
| Scanning.Scanner.ReadStructFrom | include/varlink/detail/scanner.hpp:72-108 | the loop terminates and reads what `Grammar.ReadStruct` reads |
| Scanning.Scanner.ReadOneField | include/varlink/detail/scanner.hpp:84-105 | one round of the loop: the first separator decides between struct and enum |
| Scanning.Scanner.ReadMethodSpecFrom | include/varlink/detail/scanner.hpp:110-117 | a parameter and a return struct |
| Scanning.Scanner.ReadTypeSpecFrom | include/varlink/detail/scanner.hpp:119-143 | terminates; prefixes become flags, a second `?` in a row is an error |
| Scanning.Scanner.ReadMemberFrom | include/varlink/detail/scanner.hpp:41-60 | one member with the documentation in front of its name |
| Scanning.ReadInterface | source/interface.cpp:6-20 | the constructor terminates on every text and gives what `Grammar.ParseInterface` gives, errors included |
| TokenRoundTrip.MatchStable | include/varlink/detail/scanner.hpp:234-238 | a token keeps its match when something that cannot continue it follows |
| TokenRoundTrip.ReadToken | include/varlink/detail/scanner.hpp:210-225 | a token behind blanks is read as itself and leaves exactly what follows |
| ParserShape.ExpectYieldsToken | include/varlink/detail/scanner.hpp:210-225 | `expect` yields a whole token of its pattern, and the empty one exactly at the end of the description |
| ParserShape.NoFieldsAtTheEnd | include/varlink/detail/scanner.hpp:83-106 | at the end of the description the field loop fails in its next round |
| ParserShape.TypeShape | include/varlink/detail/scanner.hpp:119-143 | every type read is complete (no invalid type, enums of two or more values, proper names inside), or is the empty name at the end of the description |
| ParserShape.MemberShape | include/varlink/detail/scanner.hpp:41-60 | every member read has a proper shape, methods exactly two types; a nameless or typeless one occurs only at the end |
| ParserShape.ParsedInterface | source/interface.cpp:6-20 | every parsed interface has a proper name, at least one member, unique member names and proper members, so that both type accessors of a method are in range |
| Printer.ToString | source/member.cpp:5-59 | the appending loops write `TypeText`, whose layout depends on size, arrays and nested structs |
| Printer.PrintMember | source/member.cpp:61-80 | the text of a member is appended to the stream |
| Printer.PrintInterface | source/interface.cpp:100-107 | the text of an interface is appended to the stream |
| PrintedLines.TypeLines | source/member.cpp:23-56 | a struct that needs lines has each field on a line of its own, `indent` blanks deeper than its closing bracket, with `,` at the line ends; any other list stands on one line with `, ` between its items |
| PrintedLines.NewlineIff | source/member.cpp:9-22 | the text has a newline if and only if the indent is not negative and some struct in the type has more than two fields or a field that is an array or a struct |
| PrintedLines.TypeMemberLines | source/member.cpp:64-66 | types are printed with an indent of 4 |
| PrintedLines.ErrorMemberLines | source/member.cpp:67-69 | errors are printed on one line |
| PrintedLines.MethodMemberLines | source/member.cpp:70-74 | parameters are printed on one line, results with an indent of 4 |
| PrintedLines.ThreeFields | source/member.cpp:14 | three fields take three lines |
| TypeRoundTrip.ReadPrefixed | source/member.cpp:48-53 | a printed field type, for every indent, depth, layout and suffix, reads back as exactly that type and leaves the suffix |
| TypeRoundTrip.ReadType | source/member.cpp:5-59 | the same for a type without its prefixes |
| TypeRoundTrip.ReadBracketed | include/varlink/detail/scanner.hpp:72-108 | the same for `read_struct` on a method's types |
| InterfaceRoundTrip.MethodAsWritten | include/varlink/detail/scanner.hpp:110-117 | of a method as it is written, the first brackets become the parameters and the second the return value |
| Layout.TokensOfType | source/member.cpp:5-59 | a printed type has the same tokens for every indent, depth and suffix |
| Layout.LayoutIsInvisible | source/member.cpp:9-28 | so one layout and another differ in white space only |
| InterfaceRoundTrip.CaptureDocBelow | include/varlink/detail/scanner.hpp:191-208 | documentation printed below a member is captured exactly |
| InterfaceRoundTrip.ReadPrintedMember | source/member.cpp:61-80 | a printed member reads back as itself and leaves the next one |
| InterfaceRoundTrip.PingIsPrintable | source/interface.cpp:100-107 | printable interfaces exist: one with comments, a method and a prefixed field |
| InterfaceRoundTrip.RoundTrip | source/interface.cpp:100-107 | parsing what was printed gives every printable interface back: name, documentation, members |
| RoundTripExact.DocIsPrintable | include/varlink/detail/scanner.hpp:191-208 | documentation that is captured back as itself consists of whole comment and blank lines between two comment lines |
| RoundTripExact.RoundTripIffPrintable | source/interface.cpp:100-107 | the round trip holds if and only if the interface is printable |
| RoundTripExact.PrintAfterParse | source/interface.cpp:6-20 | for every text that parses, printing and parsing again changes nothing if and only if the result is printable |
| Examples.CycleParses | source/interface.cpp:6-20 | a description with an alias cycle that parses, and on which `validate` does not come back |
| Examples.FlaggedIsNotPrintable | source/member.cpp:64-66 | a description that parses, and whose `[]` is lost in printing |
| Examples.AroundIsNotPrintable | include/varlink/detail/scanner.hpp:194-205 | a description that parses, with comments on both sides of a keyword, that does not read back |
| ManualStrands.ManualStrand.Push | include/varlink/detail/manual_strand.hpp:26-36 | queues the job, and starts it if the strand is idle |
| ManualStrands.ManualStrand.Next | include/varlink/detail/manual_strand.hpp:38-41 | starts the oldest queued job, or makes the strand idle |
| ManualStrands.ManualStrand.Execute | include/varlink/detail/manual_strand.hpp:44-54 | the common part of both |
| ManualStrands.RunsAreInOrder | include/varlink/detail/manual_strand.hpp:26-54 | in every run, started jobs followed by the queue are the pushed jobs, and an idle strand has nothing queued |
| ManualStrands.OneJobAtATime | include/varlink/detail/manual_strand.hpp:26-54 | when no job is finished twice, at most one job is unfinished, and exactly while the strand executes |
| ManualStrands.RunScript | include/varlink/detail/manual_strand.hpp:44-54 | jobs that push and call `next()` from inside: if each calls it once, all of them run once, in push order, and the strand ends idle |
| JsonConnections.JsonConnection.AsyncSend | include/varlink/json_connection.hpp:174-189 | keeps the wire intact; the message starts or queues |
| JsonConnections.JsonConnection.OnWritten | include/varlink/json_connection.hpp:180-187 | keeps the wire intact under any partial write: whole frames in push order and a part of the one in progress; the last byte calls `next()` once |
| JsonConnections.JsonConnection.OnWriteFailed | include/varlink/json_connection.hpp:183-187 | a failed write calls `next()` once, too, and begins the next one; the wire is broken then |
| JsonConnections.JsonConnection.Send | include/varlink/json_connection.hpp:83-91 | the loop writes exactly one frame, whatever each call takes; the invariant of the wire goes on with the frames of `FramedAfter`, and ends where there are none |
| JsonConnections.SendKeepsFramesIff | include/varlink/json_connection.hpp:83-91 | what goes over the wire then is the whole frames of all messages, the new one behind or in front of the running one, if and only if nothing of the running frame is written or left to write, or what is left of it equals the new frame |
| JsonConnections.JsonConnection.MoveToFront | include/varlink/json_connection.hpp:116 | the overlapping copy inside the buffer keeps the bytes behind the message |
| JsonConnections.JsonConnection.ReadNextMessage | include/varlink/json_connection.hpp:110-125 | takes exactly the first complete message out of the buffer, also when it does not parse |
| JsonConnections.JsonConnection.Receive | include/varlink/json_connection.hpp:93-107 | result and remaining stream depend on the byte stream alone, not on how it is cut into reads |
| JsonConnections.JsonConnection.AsyncReceive | include/varlink/json_connection.hpp:135-146 | a buffered message is delivered without reading |
| JsonConnections.JsonConnection.OnRead | include/varlink/json_connection.hpp:150-162 | bytes read are appended; a complete message is delivered, otherwise nothing is lost |
| JsonConnections.ReceivesSplitTheStream | include/varlink/json_connection.hpp:93-125 | successive receives return the pieces between the NULs of the stream, if they fit the buffer |
| JsonConnections.StuckIffFrameTooLong | include/varlink/json_connection.hpp:93-102 | reading is stuck if and only if the buffer's worth of bytes has no NUL, and no later bytes help |
| Transport.TransportIsFaithful | include/varlink/json_connection.hpp:83-189 | for all sends, partial writes, partial reads and receives: what is received is a prefix of what was sent, and all of it once nothing is under way |
| Transport.TakeCarries | include/varlink/json_connection.hpp:110-125 | the message taken is the first one under way, and the others stay under way |
| Transport.RoomToRead | include/varlink/json_connection.hpp:98-99 | a read that is issued has room for at least one byte of a frame that fits the buffer |
| AsyncClients.AsyncClient.AsyncCall | include/varlink/async_client.hpp:203-208 | the call starts or queues; only one request is ever with the writer |
| AsyncClients.AsyncClient.OnWritten | include/varlink/async_client.hpp:209-227 | a oneway call is completed by its request, the others wait for replies |
| AsyncClients.AsyncClient.OnSendFailed | include/varlink/async_client.hpp:214-222 | the next call starts and the handler gets the error |
| AsyncClients.AsyncClient.EndCall | include/varlink/async_client.hpp:209-222 | a call that ends with its send makes its one `next()` before its handler runs |
| AsyncClients.AsyncClient.OnReceived | include/varlink/async_client.hpp:172-191 | the handler gets the reply or the error; only a continuing reply without error in `more` mode keeps the strand. The invariant: calls are completed exactly once, in push order, with one `next()` each |
| AsyncClients.GoesOnIff | include/varlink/async_client.hpp:174-182 | a call goes on if and only if it is in `more` mode, the reply continues, and it names no error or `no_error` |
| SyncClients.SyncCall.Invoke | include/varlink/async_client.hpp:152-165 | one receive per invocation until the last reply, then none |
| SyncClients.CallReadsItsGroup | include/varlink/async_client.hpp:148-166 | invoked as often as one likes, a call returns exactly its replies and leaves later replies in the stream |
| SyncClients.InvocationsGive | include/varlink/async_client.hpp:152-165 | the k-th invocation gives the `parameters` of the k-th reply, or its error if it has one, and nothing behind the last reply |
| ServedCalls.SyncCallGetsWhatWasSent | include/varlink/async_client.hpp:148-166 | end to end: a synchronous call whose callback goes well gives exactly the parameters that the callback sent, in order |
| ServerSessions.ServerSession.Start | include/varlink/server_session.hpp:39-41 | one receive more; at most one is outstanding unless a callback replied again after its final reply |
| ServerSessions.ServerSession.OnReceived | include/varlink/server_session.hpp:41-55 | a request opens a reply group, and anything but a message ends the session; no request is read while a group is open, unless a callback overran |
| ServerSessions.ServerSession.SendReply | include/varlink/server_session.hpp:45-52 | objects go to the write queue; a final reply closes the group and receives again; the queue holds whole groups in request order. A reply behind the final one is sent as well and receives once more, which breaks that |
| ServerSessions.ServerSession.AsyncSendReply | include/varlink/server_session.hpp:60-69 | the reply is the next one of the open group |
| ServerSessions.ServerSession.OnWriteFailed | include/varlink/server_session.hpp:64-67 | later replies are refused |
| Protocol.StepKeepsInv | include/varlink/server_session.hpp:39-57 | every step of client, streams and session keeps the invariant of calls, requests, replies and pairing |
| Protocol.ServerRepliesKeepsInv | include/varlink/server_session.hpp:45-52 | no multiplexing: the reply stream is whole groups in call order and a part of the open one; each use of the reply function counts, objects are sent |
| Protocol.HangsForEver | include/varlink/server_session.hpp:45-52 | a session whose service will give no final reply serves and sends nothing any more, whatever else happens |
| Protocol.SilentCallbackHangs | include/varlink/server_session.hpp:41-52 | a request whose callback never replies brings the session there |
| Protocol.ReadsOnlyWhenReceiving | include/varlink/json_connection.hpp:138-149 | bytes are read only by a side that receives, has no complete message buffered and has room |
| Protocol.RunsKeepInv | include/varlink/async_client.hpp:168-229 | so the invariant holds in every reachable state, under every interleaving |
| PairingExact.AlwaysPairedIff | include/varlink/async_client.hpp:168-229 | with frames that fit the buffer, all replies reach the handlers of the calls that they answer, in every run, if and only if each oneway call that fails is followed by oneway calls only |
| PairingExact.HandlersGetTheirOwn | include/varlink/async_client.hpp:168-229 | then each handler has at any time a prefix of its call's reply group and nothing else |
| PairingExact.EndIsMispaired | include/varlink/async_client.hpp:172-191 | and otherwise every run that has come to its end has given a waiting call the reply to another one |
| Pairing.PairedIffNoOnewayReply | include/varlink/async_client.hpp:168-229 | in one reachable state, replies went to the handlers of the calls they answer if and only if no reply to a oneway call was taken off the connection |
| Pairing.HandlersGetTheirGroups | include/varlink/async_client.hpp:168-229 | if no oneway call fails, each handler has a prefix of its call's reply group and nothing else, and the whole group once the call is over |
| Mispairing.FailedOnewayAnswersNextCall | include/varlink/async_client.hpp:172-191 | whatever the error and the two calls: a run in which the error reply to a oneway call reaches the handler of the next call |
| ServedCalls.UnknownInterfaceAnswersNextCall | include/varlink/service.hpp:72-81 | for any service: the `InterfaceNotFound` of a oneway call reaches the handler of the next call |
| ServedCalls.ServedWorkIsProperIff | include/varlink/service.hpp:70-130 | the calls that a service answers make a workload such as the protocol theorems are about, if and only if each of them ends well, oneway calls included |
| ServedCalls.SilenceDoesNotEndWell | include/varlink/service.hpp:91-110 | a call for which the reply function is never used does not end well |
| ServedCalls.ServedCallsArePairedIff | include/varlink/service.hpp:70-130 | for a service: all replies reach the handlers of the calls that they answer, in every run, if and only if a oneway call that is refused, or whose callback ends with an error that is told, is followed by oneway calls only |
| ServedCalls.HandlersGetTypedReplies | include/varlink/service.hpp:91-108 | end to end: a reply that a handler receives is an error or a value of the return type of the method called, when no failing oneway call comes before a waiting one |
| Progress.StepLowersMeasure | include/varlink/async_client.hpp:172-228 | every step lowers one measure of outstanding work |
| Progress.RunsAreBounded | include/varlink/async_client.hpp:172-228 | no run is longer than a bound fixed by the calls and replies |
| Progress.NoDeadlock | include/varlink/async_client.hpp:172-228 | with frames that fit the buffer, a step is possible if and only if not all calls are pushed, served and over with all strands idle, failed oneway calls included |
| Progress.RunsKeepAnswers | include/varlink/async_client.hpp:172-191 | in every reachable state: each final reply that was received ended a waiting call, and no waiting call ended without a reply |
| Progress.SomeCodecIsProper | include/varlink/json_connection.hpp:83-91 | any calls with well-behaved replies make a proper workload, for some codec |
| Progress.RunsEndWithEveryCallAnswered | include/varlink/async_client.hpp:168-229 | a run cannot go on if and only if all calls are over; if no oneway call fails, each handler then has its whole group and nothing is left on the way |
| Messages.NewMessage | include/varlink/detail/message.hpp:39-55 | the message object, or an error for parameters that are no object |
| Messages.ReceivedMessages | include/varlink/detail/message.hpp:22-32 | a JSON value is taken for a message if and only if it is an object with a string `method`, an object for `parameters` if any, and bools for the flags that are looked at; the mode is the first flag of `more`, `oneway`, `upgrade` that is true |
| Messages.ServerReadsTheCall | include/varlink/detail/message.hpp:22-63 | the message a client builds is read by the server with the same mode, method and parameters |
| Messages.MethodNameSplits | include/varlink/detail/message.hpp:65-75 | `interface()` and `method()` are the parts around the last dot; without a dot both are the whole name |
| Services.VarlinkService.AddInterface | include/varlink/service.hpp:132-145 | an interface is added if and only if its name is new and all callbacks are for methods it has; otherwise nothing changes |
| Services.VarlinkService.MessageCall | include/varlink/service.hpp:70-130 | step by step, the replies are those of `Replies` |
| MethodCalls.BadParameters | include/varlink/service.hpp:87 | a call of a declared method with parameters that are no value of its first brackets gets one `InvalidParameter` |
| MethodCalls.NoCallback | include/varlink/service.hpp:109-117 | good parameters without a callback get `MethodNotImplemented` |
| MethodCalls.CallbackRuns | include/varlink/service.hpp:91-129 | with good parameters the callback runs; its sends are answered one by one as long as each is a value of the second brackets, in the form that the mode asks for, and what stops it is told under its error name |
| MethodCalls.UnknownInterface | include/varlink/service.hpp:78-81 | an interface that the service does not have is answered with `InterfaceNotFound` |
| MethodCalls.UnknownMethod | include/varlink/service.hpp:112-114 | a method that the interface does not have is answered with `MethodNotFound` |
| Services.VarlinkService.Try | include/varlink/service.hpp:82-111 | the body of the try block and what leaves it |
| Services.VarlinkService.Call | include/varlink/service.hpp:91-110 | the callback's sends through the handler, until something is thrown |
| Services.RepliesAreTyped | include/varlink/service.hpp:91-108 | whatever the callback does: a reply that is no error is a value of the method's return type, `continues` occurs only in `more` mode, and an error reply is the last reply |
| Services.CallbackTerminals | include/varlink/service.hpp:91-110 | a callback run sends one reply for each accepted send, final if the send is, and what it throws is told from its sends |
| Services.OneTerminalReply | include/varlink/service.hpp:82-129 | a call whose callback runs gets exactly one terminal reply if and only if it has one final send and no error reply, or none and one |
| Services.RefusedCallGetsOneError | include/varlink/service.hpp:78-90 | a call that is refused before its callback runs gets exactly one error reply, or none if the check of its parameters does not come back |
| Services.WellBehavedIff | include/varlink/service.hpp:70-130 | for every mode: the reply function is used as session and pairing need it, if and only if the call is refused, or its callback's only final send is its last accepted one with no error behind it, or it has none and an error |
| Services.OneTerminalIsWellBehaved | include/varlink/server_session.hpp:45-52 | in terms of the replies: exactly one re-arms the session, and it is the last |
| Services.ErrorIffFails | include/varlink/service.hpp:112-129 | a call gets an error reply, as its last one, if and only if it is refused or something that is told leaves its callback |
| Services.OnewaySendsOnlyErrors | include/varlink/service.hpp:96 | a oneway call puts nothing on the connection, unless it fails: then it is the error |

## Left out

- Sockets, executors, threads, `connect`, `close`, `cancel`, the accept loop (`async_server.hpp`, `threaded_server.hpp`): input and output. Each body dispatched on a strand and each completion handler is one atomic step.
- `client.hpp`, `server.hpp`: forwarding through variants.
- `uri.hpp`, the table of error codes in `varlink_error.hpp`, the accessors of `member.hpp`: easy members only.
- The built-in `org.varlink.service` interface in `source/service.cpp`: its callbacks are ordinary callbacks.
- Parsing and dumping JSON: not part of this repository. JSON objects are key/value sequences in key order, numbers are `int` or `real`.
- Regular expressions: the token patterns are hand-written recognisers; the `std::regex` variant of `expect_re` is not modelled.
- Object lifetimes: `movable_function`, captured references, views into the description, moved-from objects.
- Texts of exceptions, other than the one of `invalid_parameter`, which becomes a reply.
- What the wire holds after a write has failed, and reads that fail with a socket error other than the end of input.
- Handlers that throw, and callbacks that catch what the reply function throws.
- Callbacks that reply after `message_call` has returned: `Services` has synchronous callbacks; in `Protocol` the replies come at any later time.
- ServerSessions.ServerSession.OnWriteFailed: does not model that the connection is cancelled, which ends the outstanding receive with an error (`OnReceived` covers that) and may fail queued writes (`OnWriteFailed` again).
- Calls out of the strand: `execute` calls the job as its last action; the model hands the job back to the caller, who runs it (as `RunScript` does). The loop body of `read_struct` is a method of its own.
- Services.VarlinkService.MessageCall: a reply sender that throws, which it does after a failed write, is left out; so it is in the two methods that it calls.
- Services.VarlinkService.Call: as before, the reply sender does not throw.
- Services.VarlinkService.Try: a C++ exception is an outcome here; a system error raised by the reply sender is left out, so `Caught` gets one only from the callback itself. A check that runs out of stack is the outcome `NeverReturns`, after which nothing is sent; that the process ends is not modelled.
- Weakening.ValidateIsMonotone: assumes that no type of the interface is called `int`, which the member name pattern excludes for every parsed interface.
