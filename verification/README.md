# A verified model of simppl's D-Bus binding

simppl is a C++ binding for D-Bus. libdbus moves the bytes; the library adds the protocol
state, a codec driven by C++ types, and a few hand-written parsers. This project models those
additions in Dafny and proves what they are for. libdbus itself appears as FIFO message
queues and as message trees that iterators append to or walk over.

Five subjects, each with a specification in functions, the code that changes state as methods
on classes and arrays proved against it, and theorems over all inputs or all runs:

* **The codec** (`Types`, `Signatures`, `Codec`, `CodecTheorems`, `WireForms`, `Decodability`,
  `CodecImpl`, `Reencoding`, `AnyValues`, `Arguments`). The C++ types that can cross the bus are
  a datatype; encode, decode and make_type_signature are functions over it. `CodecImpl` has the
  codecs as they run, on iterators.
* **The client's bus protocol** (`Connection`, `ConnectionEffects`, `Matches`, `MatchEffects`,
  `Dispatcher`). Two state machines, one for connection states, one for match rules, and the
  Dispatcher and Stub objects whose methods are steps of both.
* **Property coherence** (`Properties`, `PropertyEffects`, `PropertyObjects`). Server, bus and
  client with the four queues between them.
* **In-place string code** (`KeyValueGrammar`, `KeyValueLines`, `KeyValueParsing`,
  `InterfaceNames`). The key-value parser against a recursive grammar, and the shape of the
  lines that grammar accepts; interface names, error names and object paths.
* **The server's requests and ownership** (`Requests`, `RequestEffects`, `RequestObjects`,
  `Routing`, `FileDescriptors`, `FileDescriptorEffects`). Replies and message references,
  dispatch to handlers, descriptors.

`Wrappers` and `CStrings` hold the Option type and the C string functions all of them use.

## How to read it

State machines have `Step`, `Run` and an invariant. A method of a class states its effect as a
step of the machine on what the object's fields show (`MatchState()`, `View()`, or the ghost
field `view`, which `Valid()` ties to the fields), or as the function the step is made of.
Theorems about runs are then about every sequence of calls. The modules named Effects say what
each step does in full, in terms of the state alone. Steps that are impossible in a state, or
that an assertion of the source forbids, leave the state as it is.

Where the code and its comments disagree, the model follows the code:

* `ServerProperty::operator=` says it does not notify on initialization. The test it makes
  (`index() == std::variant_npos`) never holds, so the first assignment notifies like any other
  one (`AssignTo`).
* `StringCodec` passes a C string, so a text is cut at its first NUL (`Enc`); `Faithful` says
  which values survive.
* The tuple decoder advances the outer iterator even when it throws, from its destructor; the
  vector, map, pair and struct decoders do not. `Failed(advanced)` keeps them apart.
* `operator=` from an integer on a `FileDescriptor` that borrows stores the integer but never
  closes it; only `release` gives it back (`LostExactly`).
* The move assignment of `ServerRequestDescriptor` forgets the message it held without
  dropping its reference (`ReferencesExactly`).
* `notify_client` ignores the bus name it is given and connects every stub at the path
  (`AgreementExactly`).
* Owner changes of unique names are not tracked, so a stub on one is never connected
  (`AgreementExactly`).

Assumptions: message queues are FIFO; stubs are added and removed, and callbacks set, between
messages and not from within a callback; bus calls for match rules succeed.

## Model

| member | source | states |
|---|---|---|
| Signatures.ScanSig | include/simppl/pod.h:21-78 | the signature of any type, whatever follows it, is one complete D-Bus type to an independent scanner of signatures |
| Signatures.PrefixFree | include/simppl/vector.h:59-63 | no signature is a proper prefix of another, so a concatenation splits in one way only |
| Signatures.UniqueReadability | include/simppl/tuple.h:127-138 | two types have the same signature if and only if they are the same up to int8/uint8, enum/int32, tuple/struct, map/vector of pairs and variant/any |
| Signatures.SigListDetermines | include/simppl/struct.h:38-43 | the fields' signatures, written one after the other, determine every field's wire type |
| Signatures.EntrySigSplits | include/simppl/pair.h:47-56 | the signature of a pair determines where its key's ends and its value's begins |
| Signatures.ScanWire | include/simppl/variant.h:139-151 | the signature of any message value libdbus accepts scans as one complete type |
| Signatures.WirePrefixFree | src/serialization.cpp:4-20 | a message value and a type whose signatures agree up to what follows agree on the signature and on what follows |
| WireForms.CodeCarriesRange | include/simppl/pod.h:21-45 | the numbers a type's code can carry are exactly the images of the C++ type's values, by width and signedness, an int8 modulo 256 |
| WireForms.RangeDeterminesCode | include/simppl/pod.h:24-32 | no two integer codes carry the same numbers, so that range leaves a type one code only |
| WireForms.NumberOnWire | include/simppl/pod.h:59-63 | a number is written as itself, an int8 modulo 256, under a code that carries exactly its type's values |
| WireForms.TextOnWire | src/string.cpp:15-19 | a text is written up to its first NUL, a double as it is |
| WireForms.ContainerOnWire | include/simppl/vector.h:20-36 | every element, field, key, value and variant content is written in its own place, as its own type |
| WireForms.ElementFromPlace | include/simppl/vector.h:47-52 | what decoding a container gives in a place is what the value in that place decodes to |
| WireForms.FieldFromPlace | include/simppl/tuple.h:92-105 | what decoding a field gives is what the value in its place decodes to, as its own type |
| WireForms.MovesOnFailure | include/simppl/tuple.h:47-63 | on a decoder error the iterator has moved on exactly if a tuple was opened |
| WireForms.KeysAscend | include/simppl/map.h:29-31 | the keys of a map ascend as numbers, or as texts by their first difference |
| WireForms.TextOrder | include/simppl/map.h:45-51 | the order of texts is that of the first differing character, or the shorter one first |
| WireForms.DecodedKeysAscend | include/simppl/map.h:38-55 | the integer keys of whatever decodes as a map ascend as integers |
| CodecImpl.SerializerKeepsOrder | include/simppl/struct.h:21-71 | the serializer built from PopBack and Back, nested to the left, visits the fields in declaration order |
| CodecImpl.EncEachSnoc | include/simppl/struct.h:24-28 | encoding all but the last field and then the last one is encoding all of them |
| CodecImpl.DecEachSnoc | include/simppl/struct.h:31-35 | decoding all but the last field and then the last one at what is left decodes all, and fails where that fails |
| CodecImpl.Encode | include/simppl/serialization.h:66-126 | encode appends exactly one complete value, the one the specification gives, to whatever was written before |
| CodecImpl.EncodeElements | include/simppl/vector.h:30-33 | the element loop appends every element's value, in order |
| CodecImpl.EncodeTuple | include/simppl/tuple.h:85-89 | the tuple serializer appends the elements' values in order |
| CodecImpl.EncodeSerializer | include/simppl/struct.h:163-172 | the nested serializer appends the fields' values in order |
| CodecImpl.Decode | include/simppl/serialization.h:82-126 | decode at an iterator gives what the specification gives for the value under it and advances by exactly one value; on an error by none, except out of a tuple |
| CodecImpl.DecodeElements | include/simppl/vector.h:40-56 | the loop of the array codec reads to the end of the container and stops at the first element that does not decode |
| CodecImpl.DecodeEntries | include/simppl/map.h:38-55 | reading entries and inserting each is decoding all and inserting them in order |
| CodecImpl.DecodeTuple | include/simppl/tuple.h:92-105 | the elements are decoded one after the other from wherever the iterator stands |
| CodecImpl.DecodeSerializer | include/simppl/struct.h:176-185 | the nested serializer decodes the fields front to back |
| CodecImpl.DecodeAlternative | include/simppl/variant.h:43-87 | the alternatives are tried in order, each against the wire's signature, as the specification does |
| CodecTheorems.RoundTrip | include/simppl/map.h:20-55 | decoding what encode wrote gives the value back (a received Any in place of a local one), for every type and every value that is faithful |
| CodecTheorems.RoundTripExactly | include/simppl/variant.h:100-120 | the round trip succeeds if and only if the value is faithful: no NUL in a text, no variant holding an alternative whose signature an earlier one shares |
| CodecTheorems.FindsAlternative | include/simppl/variant.h:43-63 | the search decodes the first alternative that has the wire's signature |
| CodecTheorems.ChosenAlternative | include/simppl/variant.h:66-87 | a search that succeeds has chosen the first alternative of the signature and decoded that one |
| CodecTheorems.EncodesWellSigned | include/simppl/vector.h:20-36 | what encode writes is a value libdbus accepts and has exactly the type's signature |
| CodecTheorems.DecodesWellSigned | src/serialization.cpp:4-20 | a value with the type's signature never raises a decoder error, and decodes if the type has no variants |
| CodecTheorems.DecodesTyped | include/simppl/vector.h:39-56 | whatever decodes is a value of the type: in range, keys sorted, fields complete |
| CodecTheorems.FirstEntryWins | include/simppl/map.h:45-51 | of several entries with one key the map keeps the first to arrive, unless it already had one, and every key that arrived is in the map |
| CodecTheorems.InsertAllSorted | include/simppl/map.h:45-51 | entries that arrive in key order are kept as they are |
| CodecTheorems.InsertSorted | include/simppl/map.h:45-51 | inserting keeps a map's keys in strictly ascending order |
| Decodability.DecodesExactly | include/simppl/tuple.h:47-75 | decoding succeeds on exactly the values of a structural shape, in which element signatures of arrays do not matter and structs may go on behind the last field |
| Decodability.Liberties | include/simppl/struct.h:176-185 | an empty array decodes as any vector, and values behind the last field never break a struct |
| Reencoding.Reencodes | include/simppl/map.h:20-55 | encoding what was decoded from an ordered message of the type's signature, without Any, restores the message |
| Reencoding.ReencodesExactly | include/simppl/map.h:38-55 | a message of the type's signature, without Any, that decodes is restored by encoding again if and only if its maps list their keys in order |
| AnyValues.Extract | include/simppl/any.h:206-228 | extraction decodes from a copy of the stored iterator, so every call gives the same answer |
| AnyValues.AnyAfterTrip | include/simppl/any.h:171-244 | after a send, is holds exactly for types of the same wire form, as gives the sent value exactly if it is faithful, and other types are refused |
| AnyValues.AnyBeforeTrip | include/simppl/any.h:193-243 | before a send is holds for the held type only, as gives the held value for it and refuses any other |
| AnyValues.AnyReadAsTwin | include/simppl/any.h:206-228 | reading a received Any as a type of the same wire form never raises a decoder error |
| AnyValues.VariantDispatch | include/simppl/variant.h:108-120 | a variant decodes as the first alternative with the wire signature and asserts if there is none |
| Arguments.FilterSelects | include/simppl/detail/parameter_deduction.h:226-247 | filter with its padding, flattened to a tuple, is the in-order selection of the parameters of one direction |
| Arguments.DeducedSelects | include/simppl/detail/parameter_deduction.h:251-266 | the deduced argument or return type is void, the lone type, or the tuple of the selected types |
| Arguments.ArgumentsExactly | include/simppl/detail/parameter_deduction.h:258-266 | the arguments are the types at exactly the positions of the in parameters, in declaration order |
| Arguments.ResultsExactly | include/simppl/detail/parameter_deduction.h:251-256 | the results are the types at exactly the positions of the out parameters, in declaration order |
| Arguments.OthersDoNotMatter | include/simppl/detail/parameter_deduction.h:229-234 | a parameter that does not go a way can stand anywhere without changing what goes that way |
| Arguments.UnpackKeepsOrder | include/simppl/detail/callinterface.h:84-135 | the recursive caller hands over the tuple's elements in order |
| Arguments.LoneTupleFails | include/simppl/tuple.h:100-105 | reading a lone tuple flattened always fails, however deep it nests |
| Arguments.Deliver | include/simppl/detail/callinterface.h:84-135 | decoding flattened and calling gives the handler what the specification says |
| Arguments.Transport | include/simppl/detail/parameter_deduction.h:60-80 | for any mix of parameters the values of one direction arrive in order at the other side, if and only if they are not a lone tuple |
| Connection.ReplayTwice | src/dispatcher.cpp:445-485 | replaying onto the snapshot the owner changes that led to it changes nothing: subscribing first and listing names second is sound |
| Connection.NamesCatchUp | src/dispatcher.cpp:662-690 | in every reachable state the known names, once the queued owner changes are replayed, are exactly the owned well-known names |
| Connection.HandleKeeps | src/dispatcher.cpp:640-690 | handling one signal keeps: connected implies owned, and owned but unaware implies a notification in flight |
| Connection.Reachable | src/dispatcher.cpp:498-535 | the invariant holds in every reachable state, if stubs that share a path share the bus name |
| Connection.QuietAgrees | src/stubbase.cpp:62-83 | when no signal is queued, every stub is connected exactly if the bus has an owner for its name, and its callback was told the same, for addresses that are well-known and do not share just the path |
| Connection.QuietStates | src/stubbase.cpp:62-83 | without the first of these conditions: a stub is connected exactly if its name is well-known and owned |
| Connection.MisledDisagrees | src/dispatcher.cpp:515-525 | two names at one path: a run that ends quiet with a stub connected to a name nobody owns |
| Connection.IgnoredDisagrees | src/dispatcher.cpp:477-481 | a stub on an owned unique name: a run that ends quiet with the stub disconnected |
| Connection.AgreementExactly | src/dispatcher.cpp:726-737 | a program's stubs agree with the bus in all quiet states of all runs if and only if no two of its addresses share just the path and none is on a unique name |
| ConnectionEffects.StateExactly | src/dispatcher.cpp:640-690 | which signals connect a stub, which disconnect it, and which leave it as it is |
| ConnectionEffects.ToldExactly | src/stubbase.cpp:74-83 | a signal calls a callback at most once, with the stub's new state, exactly if the state changed or the signal notifies the stub |
| ConnectionEffects.NamesExactly | src/dispatcher.cpp:675-687 | which names are known after a signal |
| ConnectionEffects.AddStubExactly | src/dispatcher.cpp:726-737 | a new stub is disconnected and uncalled, and a notification is posted exactly if its name is known |
| ConnectionEffects.SetCallbackExactly | src/stubbase.cpp:62-71 | a new callback is uncalled, and a notification is posted exactly if the stub is connected |
| ConnectionEffects.RemoveStubExactly | src/dispatcher.cpp:740-752 | only the removed stub goes |
| ConnectionEffects.ToldOverRuns | src/stubbase.cpp:74-83 | through any events that keep a stub and its callback, the callback gets exactly the calls the delivered signals make, in order |
| MatchStrings.SignalMatchReads | src/dispatcher.cpp:32-43 | a signal's rule reads as its type, sender, interface and member |
| MatchStrings.PropertyMatchReads | src/dispatcher.cpp:46-58 | a property rule reads as its type, sender, interface, member and path |
| MatchStrings.RuleReads | src/dispatcher.cpp:32-58 | any list of key and value pairs printed as a rule is read back as that list |
| Matches.StepHolds | src/dispatcher.cpp:596-637 | every event keeps the counter of a rule equal to the attachments that need it, and the rule installed once while it is positive |
| Matches.CleanUpHolds | src/stubbase.cpp:408-427 | cleaning up a stub drops exactly the rules it needed, as often as it needed them |
| Matches.RunConserves | src/stubbase.cpp:322-405 | over any interleaving on many stubs each counter is the number of attached signals with the rule plus the stubs with attached properties and that rule |
| Matches.NothingLeftBehind | src/dispatcher.cpp:740-752 | when the last stub is gone no counter is left and no rule is installed |
| MatchEffects.AttachSignalExactly | src/stubbase.cpp:322-340 | attaching puts the signal first and counts its rule once more, and no other |
| MatchEffects.DetachSignalExactly | src/stubbase.cpp:343-372 | detaching takes the signal out and counts its rule once less, and no other |
| MatchEffects.AttachPropertyExactly | src/stubbase.cpp:375-388 | attaching a property counts the rule once more exactly if none of the stub's was attached |
| MatchEffects.DetachPropertyExactly | src/stubbase.cpp:391-405 | detaching a property counts the rule once less exactly if it was the stub's only one |
| MatchEffects.RemoveStubExactly | src/stubbase.cpp:408-427 | removing a stub lowers each counter by the stub's attachments |
| Dispatching.Stub.RegisterSignal | src/stubbase.cpp:322-340 | a signal that is not in the list is registered and becomes its head; one that is changes nothing |
| Dispatching.Stub.UnregisterSignal | src/stubbase.cpp:343-372 | an attached signal is unlinked, the rest of the list in order, and its rule dropped once |
| Dispatching.Stub.AttachProperty | src/stubbase.cpp:375-388 | the flag is set, and the rule registered exactly for the stub's first property |
| Dispatching.Stub.DetachProperty | src/stubbase.cpp:391-405 | the flag is cleared, and the rule dropped exactly with the stub's last property |
| Dispatching.Stub.Cleanup | src/stubbase.cpp:408-427 | the list walk drops every attached signal's rule and the property rule |
| Dispatching.Stub.SetCallback | src/stubbase.cpp:62-71 | a callback set on a connected stub is told by a message, as the state machine says |
| Dispatching.Stub.ConnectionStateChanged | src/stubbase.cpp:74-83 | the callback is called on a change, or when forced |
| Dispatching.Dispatcher.TakeSnapshot | src/dispatcher.cpp:465-481 | the names taken from the reply are the well-known ones |
| Dispatching.Dispatcher.RegisterSignalMatch | src/dispatcher.cpp:596-614 | the first registration of a rule installs it, later ones count |
| Dispatching.Dispatcher.UnregisterSignalMatch | src/dispatcher.cpp:617-637 | the last unregistration removes the rule |
| Dispatching.Dispatcher.NotifyClients | src/dispatcher.cpp:528-535 | exactly the stubs of the bus name change state |
| Dispatching.Dispatcher.NotifyStubsAt | src/dispatcher.cpp:515-525 | every stub at the path is connected, and told even if it was |
| Dispatching.Dispatcher.TryHandleSignal | src/dispatcher.cpp:640-690 | the handler is the state machine's handling of the signal |
| Dispatching.Dispatcher.AddClient | src/dispatcher.cpp:726-737 | adding a stub is a step of both state machines |
| Dispatching.Dispatcher.RemoveClient | src/dispatcher.cpp:740-752 | removing a stub is a step of both state machines and leaves the others untouched |
| Dispatching.AttachSignal | include/simppl/clientside.h:90-94 | attaching is a step of the match machine, or nothing if attached; all stubs stay valid |
| Dispatching.DetachSignal | include/simppl/clientside.h:97-101 | detaching is a step of the match machine, or nothing if not attached; all stubs stay valid |
| Dispatching.AttachProperty | include/simppl/clientside.h:270-284 | attaching a property is a step of the match machine |
| Dispatching.DetachProperty | src/clientside.cpp:28-31 | detaching a property is a step of the match machine |
| Properties.ValueTravels | include/simppl/property.h:62-82 | a property's value survives both ways of reading it if and only if its codec is faithful to it |
| Properties.AssignKeeps | include/simppl/serverside.h:353-409 | an assignment, silent or notified, keeps every attached observer of a notifying property coherent |
| Properties.AttachKeeps | include/simppl/clientside.h:270-284 | attaching keeps the invariant: the match rule is on its way before the request for the value |
| Properties.DetachKeeps | src/stubbase.cpp:391-405 | detaching keeps the invariant: the rule goes only when no observer is attached |
| Properties.DeliverKeeps | src/stubbase.cpp:530-560 | delivering one message keeps the invariant |
| Properties.AlwaysCoherent | include/simppl/serverside.h:353-422 | in every reachable state an attached observer of a notifying property has an unanswered Get, or what is in flight ends with the server's value |
| Properties.CoherenceExactly | include/simppl/serverside.h:369-406 | all attached observers are up to date whenever the system is quiet, in all runs, if and only if every observed property notifies |
| PropertyEffects.AssignExactly | include/simppl/serverside.h:353-406 | an assignment stores the value, and announces it exactly if the property notifies and the value is news or always sent |
| PropertyEffects.SetExactly | src/skeletonbase.cpp:422-443 | a served Set stores and announces like an assignment unless a callback is set, and is replied to last |
| PropertyEffects.GetExactly | src/skeletonbase.cpp:396-419 | a served Get changes nothing and is replied to with the current value |
| PropertyEffects.HoldsLastStored | include/simppl/serverside.h:395-422 | in every run a property holds the value last assigned, or set without a callback |
| PropertyEffects.AttachExactly | include/simppl/clientside.h:270-284 | attaching sends a Get, behind the match rule exactly if nothing was attached |
| PropertyEffects.DetachExactly | src/stubbase.cpp:391-405 | detaching removes the rule exactly if this was the only one attached |
| PropertyEffects.DeliverExactly | src/stubbase.cpp:530-560 | a delivered message calls exactly the callbacks it is for, once, with its value |
| PropertyEffects.RequestsArriveInOrder | src/stubbase.cpp:430-527 | in every run the requests made are those served and those underway, in order: none is lost, doubled or overtaken |
| PropertyEffects.RepliesArriveInOrder | src/skeletonbase.cpp:396-443 | in every run each request served has one reply, taken or underway, in the order of the requests |
| PropertyObjects.ServerProperty.Assign | include/simppl/serverside.h:353-406 | the assigner and comparator perform the machine's assignment and notification |
| PropertyObjects.ServerProperty.EvalSet | include/simppl/serverside.h:411-422 | a decoded value is assigned unless a callback took over; an undecodable one changes nothing |
| PropertyObjects.Skeleton.HandleSet | src/skeletonbase.cpp:422-443 | a Set request that decodes is the machine's handling of it; one that does not changes nothing and gets an error reply |
| PropertyObjects.Skeleton.HandleGet | src/skeletonbase.cpp:396-419 | the reply carries the property's current value |
| PropertyObjects.HandleChanged | src/stubbase.cpp:530-560 | the entries of a change signal are heard by the attached properties of their names, in order, up to the first that does not decode |
| PropertyObjects.HearsAsReceived | src/stubbase.cpp:547-556 | a change signal with one value is received as the state machine says |
| PropertyObjects.HandleReply | include/simppl/detail/holders.h:119-140 | the reply to Get is read as a variant with one alternative and passed to the callback; an error reply calls it with the error |
| PropertyObjects.ReplyReceived | include/simppl/clientside.h:275-281 | a reply passed to the callback is received as the state machine says |
| PropertyObjects.RuleAsSent | src/stubbase.cpp:375-405 | the stub registers and drops its rule in exactly the cases in which the machine sends it |
| KeyValueParsing.StepKeepsMeaning | include/simppl/detail/inifile.h:368-503 | each step of the parser's machine keeps what the rest of the line means |
| KeyValueParsing.KeyValueParser.Run | include/simppl/detail/inifile.h:523-535 | the parser halts on every terminated line, never reads past the terminator, is good exactly if the grammar accepts the line, and finds the same key and value |
| KeyValueParsing.KeyValueParser.Unescape | include/simppl/detail/inifile.h:446-451 | shifting the buffer under the cursor removes one backslash and makes the line shorter |
| KeyValueParsing.KeyValueParser.StrMove | include/simppl/detail/inifile.h:355-363 | the copy shifts the rest of the line, terminator included |
| KeyValueParsing.KeyValueParser.Key | include/simppl/detail/inifile.h:546-552 | terminating the key in place gives the key and leaves the value |
| KeyValueParsing.KeyValueParser.Value | include/simppl/detail/inifile.h:555-561 | terminating the value in place gives the value and leaves the key |
| KeyValueGrammar.QuotedEscape | include/simppl/detail/inifile.h:444-464 | reading an escaped text up to the closing quote gives the text and what is behind the quote |
| KeyValueGrammar.QuotedRoundTrip | include/simppl/detail/inifile.h:341-350 | a quoted, escaped value is read back as written, with any blanks and a comment, if and only if it is printable and does not end in a backslash |
| KeyValueGrammar.PlainRoundTrip | include/simppl/detail/inifile.h:433-443 | an unquoted value of graphic characters is read back as written |
| KeyValueLines.Alphabets | include/simppl/detail/inifile.h:368-391 | the characters of keys, of plain and of quoted values, and the blanks |
| KeyValueLines.ParsesExactly | include/simppl/detail/inifile.h:341-350 | a line is accepted as an entry if and only if it has the entry's shape: blanks, key, equality sign, a quoted or plain value, and at most a comment |
| KeyValueLines.TextBehindRefused | include/simppl/detail/inifile.h:480-483 | a line with text other than a comment behind the closing quote is refused |
| KeyValueLines.NoEntryRefused | include/simppl/detail/inifile.h:394-398 | a line whose equality signs all stand behind a character no key can hold, or that has none, is refused |
| InterfaceNames.MakeInterfaceName | src/util.cpp:75-91 | the walk replaces each scope separator by a dot, and runs past the end exactly on texts that end in an odd number of colons |
| InterfaceNames.FindNextInterface | src/util.cpp:93-122 | the walk over nested brackets ends where the specification says |
| InterfaceNames.ExtractInterfaces | src/util.cpp:47-73 | the loop collects the names the specification gives for the whole text |
| InterfaceNames.ExtractionUndoesPrinting | src/util.cpp:47-122 | extracting from the rendering of any list of interfaces, with any balanced template arguments, gives their dotted names in order |
| InterfaceNames.CreateObjectPath | src/util.cpp:18-34 | the buffer ends up as slash, interface, slash, role with every dot a slash |
| InterfaceNames.MakeErrorName | src/util.cpp:125-144 | rewriting in place leaves the dotted form of the name, and fails exactly on names that end in an odd number of colons |
| InterfaceNames.DottedExactly | src/util.cpp:130-139 | stepping over a colon and its successor leaves the text if and only if it ends in an odd number of colons |
| InterfaceNames.StubMeetsSkeleton | src/stubbase.cpp:126-140 | a stub and a skeleton of one interface path and role compute the same bus name and object path, whatever the template arguments |
| Requests.Conservation | src/serverrequestdescriptor.cpp:23-76 | in every run each call is held once, answered, dropped silently or overwritten, and its references are those of its holders and of the overwritten descriptors |
| Requests.ExactReplies | src/skeletonbase.cpp:112-175 | over any run a call gets exactly one reply per response that consumed it plus one if its handler threw, each at most once |
| Requests.ReplyCount | src/skeletonbase.cpp:103-175 | a call is answered at most once and faulted at most once, and not answered while it is held |
| Requests.AtMostOneReply | src/skeletonbase.cpp:446-476 | if no handler throws while its call is answered or still deferred, no call gets two replies |
| Requests.HarmfulRepliesTwice | src/skeletonbase.cpp:454-470 | if one does, its call has two replies, or has them as soon as the deferred call is answered |
| Requests.CarelessRepliesTwice | src/skeletonbase.cpp:462-470 | a handler that responded and then throws causes a second reply |
| Requests.DeferredRepliesTwice | src/skeletonbase.cpp:103-109 | a handler that deferred and then throws causes a second reply once the deferred call is answered |
| Requests.EveryCallAnswered | src/skeletonbase.cpp:112-175 | in every run a call has been answered, and then once, if and only if it is held no more and no event let go of it without a response |
| Requests.ReferencesExactly | src/serverrequestdescriptor.cpp:38-50 | every reference on every message has a live descriptor behind it if and only if no descriptor was assigned to while it held a call |
| Requests.DeferredStays | src/skeletonbase.cpp:133-151 | a call is in one of the program's descriptors if and only if it has not been answered and no event let go of it |
| Requests.IdleWithoutCurrent | src/skeletonbase.cpp:472-474 | between requests there is no current request |
| RequestEffects.CallExactly | src/skeletonbase.cpp:446-452 | a dispatched call is current and handled, with one reference, and nothing else changes |
| RequestEffects.DeferExactly | src/skeletonbase.cpp:103-109 | deferring moves the current call behind the other descriptors |
| RequestEffects.MoveAssignExactly | src/serverrequestdescriptor.cpp:38-50 | a move assignment empties the source, and the target holds what the source held |
| RequestEffects.RespondOnExactly | src/skeletonbase.cpp:133-151 | a response empties its descriptor, drops its reference and answers its call, and leaves all others |
| RequestEffects.AnsweredWhereMoved | src/skeletonbase.cpp:103-151 | a call deferred and moved on is answered on the descriptor it was moved to, and not on the one it left |
| RequestObjects.ServerRequestDescriptor.Set | src/serverrequestdescriptor.cpp:53-64 | the old message, if any, loses a reference and the new one, if any, gains it |
| RequestObjects.ServerRequestDescriptor.Clear | src/serverrequestdescriptor.cpp:67-76 | the reference held, if any, is dropped once |
| RequestObjects.ServerRequestDescriptor.MoveAssign | src/serverrequestdescriptor.cpp:38-50 | the content moves without any reference changing, and nothing happens on self-assignment |
| RequestObjects.Skeleton.RespondWith | src/skeletonbase.cpp:112-130 | a response answers the current call and consumes it |
| RequestObjects.Skeleton.RespondOn | src/skeletonbase.cpp:133-151 | a response on a descriptor answers its call and consumes it |
| RequestObjects.Skeleton.Defer | src/skeletonbase.cpp:103-109 | deferring moves the current call into a new descriptor |
| RequestObjects.Skeleton.DeferInto | src/serverrequestdescriptor.cpp:38-50 | deferring into a descriptor in use forgets the call it held |
| RequestObjects.Skeleton.BeginRequest | src/skeletonbase.cpp:446-452 | a dispatched call becomes the current one with one reference |
| RequestObjects.Skeleton.EndRequest | src/skeletonbase.cpp:454-476 | an exception is answered on the message, and an unconsumed call is cleared |
| Routing.FindInterface | src/skeletonbase.cpp:522-537 | the id counts from the back of the list, and is invalid exactly if no name matches |
| Routing.IdsAgree | include/simppl/skeletonbase.h:67-71 | find_interface and iface are inverse to each other on distinct names, and agree with the Interposer's numbering |
| Routing.LatestWins | src/serverside.cpp:15-21 | searching the list from its head finds the entry registered last under the name |
| Routing.Registry.Register | src/serverside.cpp:47-55 | the new entry becomes the head of its interface's list and no other list changes |
| Routing.Registry.Find | src/skeletonbase.cpp:540-565 | the list walk finds the last registration of the name, or none |
| Routing.Skeleton.HandleRequest | src/skeletonbase.cpp:191-223 | built-in interfaces are told apart first; any other request goes to the method registered last, or is refused with the right error |
| Routing.Skeleton.HandlePropertyRequest | src/skeletonbase.cpp:337-393 | arguments are decoded as needed, and each failure is refused with its own error, in the source's order |
| Routing.RoutesExactly | include/simppl/detail/interposer.h:15-28 | a request invokes a method if and only if it is the last one registered under the Interposer's id of the interface and the member's name |
| Routing.PropertiesRouteExactly | src/skeletonbase.cpp:337-393 | Get and Set reach exactly the property registered last under the interface's id and the given name |
| Routing.GetAllRoutesExactly | src/skeletonbase.cpp:359-362 | GetAll reaches exactly the interface named |
| Routing.RefusalsWithoutInterface | src/skeletonbase.cpp:345-357 | a request that names no interface of the skeleton is refused for its arguments or for the interface |
| Routing.RefusalsExactly | src/skeletonbase.cpp:359-393 | which requests to a known interface are refused for their arguments, for the property and for the method |
| FileDescriptors.Ownership | src/filedescriptor.cpp:26-143 | in every run each descriptor is owned by at most one object, the program holds none that is owned, what is held is open, and close is only called on open descriptors |
| FileDescriptors.LostExactly | src/filedescriptor.cpp:103-143 | a run ends with an open descriptor nobody will close if and only if it was assigned as an integer to an object that borrows, and no object has handed it back since |
| FileDescriptors.NothingLeaks | src/filedescriptor.cpp:50-54 | with all objects gone, the program holds all that is open if and only if no integer is left with an object that borrowed |
| FileDescriptors.ReleaseReturns | src/filedescriptor.cpp:137-143 | releasing a number that was assigned to a borrowing object makes it the program's again |
| FileDescriptorEffects.CopyOwnsItsOwn | src/filedescriptor.cpp:57-68 | a copy of an owning object owns a descriptor of its own: both are open, and they differ |
| FileDescriptorEffects.CopyAssignExactly | src/filedescriptor.cpp:71-92 | a copy assignment closes what the target owned, and then target and source own different descriptors |
| FileDescriptorEffects.NewOwningExactly | src/filedescriptor.cpp:34-39 | a descriptor given to a new owning object is the object's alone |
| FileDescriptorEffects.MoveAssignExactly | src/filedescriptor.cpp:117-128 | a move assignment closes what the target owned and leaves the source empty |
| FileDescriptorEffects.ReleaseExactly | src/filedescriptor.cpp:137-143 | releasing closes nothing, and what the object owned is the program's |
| FileDescriptors.FileDescriptor.CopyAssign | src/filedescriptor.cpp:71-92 | the old descriptor is let go, the new one duplicated exactly if it is owned, and self-assignment does nothing |
| FileDescriptors.FileDescriptor.MoveAssign | src/filedescriptor.cpp:117-128 | the old descriptor is let go and the new one moved; assigned from itself the object ends up empty |
| FileDescriptors.FileDescriptor.AssignInt | src/filedescriptor.cpp:103-114 | the old descriptor is let go, and any negative integer means none |

## Left out

- libdbus, sockets, poll, watches and timeouts, threads, the asio executor: foreign code and I/O.
- Types without a codec of their own in the universe: bool, wstring, object paths, buffers, file descriptors, float (it has no type code), raw pointer strings, enums that are not 32 bits wide.
- Doubles are reals: no rounding, no NaN; as map keys or property values they compare like numbers.
- The FixedSizeBuffer codec and Boost.Fusion structs.
- SectionNameParser, which has the shape of the key-value parser, and the rest of inifile.h.
- KeyValueParsing.KeyValueParser.Key: requires a non-empty key; without one the source returns a null pointer.
- KeyValueParsing.KeyValueParser.Value: requires a value; for an empty one the source returns a null pointer.
- Connection.Reachable: the path hypothesis is needed, as Connection.AgreementExactly shows.
- Connection.QuietAgrees: both hypotheses are needed, as Connection.AgreementExactly shows.
- Dispatching.Dispatcher.NotifyStubsAt: walks the stubs in the order they were added; the source's multimap iterates by path, which only changes the order in which callbacks run.
- Dispatching.Dispatcher.RegisterSignalMatch: does not model a failing AddMatch, which throws and leaves the counter as it was.
- Dispatching.Stub.RegisterSignal: the match rule is a field computed when the signal is made, from names that never change; the source prints it on every call.
- Dispatching.Stub.SetCallback: a callback is present or absent, and only the states it is called with are kept; callbacks that call back into the library are not modelled.
- Ordinary signals: their routing to the first attached signal of the name, once past the match rules.
- PropertyObjects.HandleChanged: does not look at the interface name, as the source does not; invalidation lists are not modelled.
- Properties.AlwaysCoherent: AddMatch and RemoveMatch travel as messages, although the source waits for their replies, which allows more runs than the source has; properties read through a callback, and Set on a read-only property, are not modelled.
- Properties.Step: one client connection; what other clients write shows as assignments at the server.
- PropertyObjects.HandleReply: which error was received, and the default value passed beside it, are not kept.
- Properties.CoherenceExactly: values arrive as sent, which Properties.ValueTravels characterises.
- What GetAll replies, from either side, and introspection.
- ObjectManagerMixin: it pairs interfaces with property lists without reversing the ids.
- RequestObjects.Skeleton.BeginRequest: the handler's actions are the calls made between BeginRequest and EndRequest; encoding of the reply's content is not modelled.
- Routing.Skeleton.HandleRequest: a request without an interface name, for which libdbus hands out a null pointer, is not modelled.
- Arguments.Transport: a lone tuple argument or result does not compile on the server side; the model runs the decoder on it all the same.
- InterfaceNames.MakeErrorName: reports failure where the source would step over the terminator.
- FileDescriptors.Ownership: integers given to an object are ones the program holds; native_handle, which only shows a number, is not modelled.
- PendingCall, Error, ServerResponseHolder and the other plain holders: they would only add easy members.
