# bliti, modelled and proved

bliti is the software of a small device that people reach over Bluetooth. A client and a device hold one
encrypted, compressed connection over a characteristic that carries a few bytes at a time; over it they exchange
JSON messages whose member names say by their case what a receiver may not ignore; a client proposes a network
configuration, which the device holds against a mirror of what it can do; a client watches what the device
measures as it changes; and a client can ask the device to restart or power off, which it does only once everyone
has been told. This project models those parts in Dafny and proves what they promise.

Code that changes things step by step is modelled as classes and methods with the same fields, loops and branches,
each proved against a function or a predicate that says what it is for; the theorems are about those. What the
program does not control is an adversary: the transport chooses how much each call moves, when it stalls and when it
fails; tasks interleave in any order; a wait may end or time out.

| files | what they hold |
|---|---|
| `Transport`, `Framing`, `Noise`, `Compress`, `Seam`, `Stack`, `Driver` | the byte stack: backlog, length prefixes, sealed messages, one deflate stream a direction, the layers joined and assembled, and the driver above them |
| `Instances` | a cipher, a codec and a printer of JSON that keep the contracts the rest is proved from |
| `Json`, `JsonText`, `Nodes`, `Text`, `Path`, `Names` | JSON values, their text and their nodes, decimal numbers and the order of names, Normalized Paths of RFC 9535, and the casing of names |
| `Readings`, `Messages`, `Envelope`, `Exchange` and the `EnvelopeTheorems`, `ExchangeTheorems`, `ExchangeOutcomes`, `MessageFields`, `WriteRead` about them | messages, how they are read and written, and what that keeps |
| `WireCompat`, `WireCompatTheorems` | the oracle one build is compared with another by |
| `Capabilities`, `CapabilityTheorems`, `CapabilityMirrors`, `CapabilitySettings`, `CapabilityGap`, `CapabilityMeaning`, `CapabilityForm`, `Config`, `ConfigAccepts`, `ConfigFields`, `ConfigTheorems` | the configuration document and the check against a device's mirror |
| `Power`, `PowerProtocol`, `PowerTheorems`, `PowerOutcomes`, `PowerObjects` | going away, over every interleaving, and the objects that take its steps |
| `Sampler`, `ReadingKeys`, `Feed`, `Gatt`, `GattTheorems`, `GattObjects` | the feed of readings and facts, and the routing of many clients' writes |

Two places where the program does otherwise than its own words are kept as the program has them:

- A comment (crates/bliti-core/src/channel/capabilities.rs:160-162) lets any key of a selector left unset admit the
  rest. The code (crates/bliti-core/src/channel/capabilities.rs:214-219) stops at the first key that faults while a
  further selector beneath it is resolved. `CheckExactly` says exactly what is accepted, `CompleteExactly` and
  `CompleteByKeys` for which mirrors that is everything meant, and `AFaultHidesAKey` shows a document for which it is not.
- An act accepted is to be carried out (.workhorse/specs/control/power.md:44-55). Where the answer to the client
  cannot be sent (crates/bliti/src/power.rs:447-452) the act is never begun and the slot it took is never given
  back. `AnAnswerLost` is such a run, and `CarriedOutExactly` says for every run that the act holding the slot was
  carried out, or still can be, exactly where no answer was lost.

## Model

| member | source | states |
|---|---|---|
| Transport.WriteBacklog.PollDrain | crates/bliti-core/src/channel/write_backlog.rs:32-48 | What the transport has accepted and what still waits are together always the same bytes, whatever part of each write it takes; ready only with nothing waiting, waiting only where the transport stalled, and failing only as it failed or took nothing |
| Framing.EncodePrefixExact | crates/bliti-core/src/channel/framing.rs:62-73 | A length encodes exactly when it is below 256 to the width, and decodes to itself |
| Framing.EncodePrefixInverse | crates/bliti-core/src/channel/framing.rs:49-73 | Every prefix is the encoding of what it decodes to |
| Framing.PrefixBytes | crates/bliti-core/src/channel/framing.rs:49-73 | The two-byte and three-byte prefixes, byte by byte, the most significant first |
| Framing.ParseFrames | crates/bliti-core/src/channel/framing.rs:78-167 | The one parser takes back out of a stream exactly the messages framed into it, and leaves the unfinished tail |
| Framing.FramesOfParse | crates/bliti-core/src/channel/framing.rs:131-167 | The other way: what is parsed, framed again and followed by what is left, is the stream |
| Framing.ParseSplit | crates/bliti-core/src/channel/framing.rs:159-167 | Parsing a stream in two parts gives what parsing it whole gives |
| Framing.Reassembler.Take | crates/bliti-core/src/channel/framing.rs:143-156 | Takes the first whole message and nothing else, and nothing where none is whole |
| Framing.Reassembler.PushAndDrain | crates/bliti-core/src/channel/framing.rs:159-167 | Gives the messages of all that was held and pushed, and keeps what is left over |
| Framing.Reassembler.DrainAll | crates/bliti-core/src/channel/framing.rs:138-167 | However a stream is cut into chunks, messages and leftover are those of the stream |
| Framing.WriteDelimited | crates/bliti-core/src/channel/framing.rs:78-90 | Writes one frame of the message and flushes it, or, exactly where it is too long for the prefix, writes nothing; what fails part way has written a front part of the frame and flushed nothing |
| Framing.ReadDelimited | crates/bliti-core/src/channel/framing.rs:93-123 | The first message of the stream; nothing only at its end; an unexpected end only inside a message |
| Framing.ReadToEnd | crates/bliti-core/src/channel/framing.rs:93-123 | Reading message after message gives those the one parser finds, and a clean end only with nothing left over |
| Framing.CutIsNotClean | crates/bliti-core/src/channel/framing.rs:93-123 | A stream cut anywhere inside a frame leaves a rest that is neither empty nor a message |
| Noise.SealedFits | crates/bliti-core/src/channel/noise.rs:32-39 | No sealed message is wider than its prefix: the largest plaintext with its tag is one short of the prefix's range |
| Noise.NoiseStream.PollWrite | crates/bliti-core/src/channel/stream.rs:110-132 | A write accepted is one chunk sealed under the next counter, behind all sealed before it, however little the transport takes; it waits or fails only as the transport or the cipher does, and leaves some waiting only where the transport stalled |
| Noise.NoiseStream.SealOne | crates/bliti-core/src/channel/stream.rs:120-131 | Only sealing can fail: the prefix always encodes |
| Noise.NoiseStream.PollFlush | crates/bliti-core/src/channel/stream.rs:134-138 | Ready only once everything sealed is the transport's and has been sent on; waits or fails only as the transport does |
| Noise.NoiseStream.PollClose | crates/bliti-core/src/channel/stream.rs:140-144 | And closed |
| Noise.NoiseStream.PollRead | crates/bliti-core/src/channel/stream.rs:148-182 | Gives plaintext in order, none lost, as much of what is held as there is room for; reads the end or waits only with no plaintext and no whole frame held; waits only where the transport stalled or had brought all there was, and fails as it only where it failed; refuses only a frame that does not open |
| Noise.ReadAll | crates/bliti-core/src/channel/stream.rs:148-182 | Over a transport that moves, reading until it waits leaves nothing the transport had brought unread |
| Noise.EndToEnd | crates/bliti-core/src/channel/stream.rs:109-184 | Frames opened are the first sealed, each under its own counter; what is delivered is a prefix of what was written, and all of it once flushed, carried and read |
| Noise.EndsAgree | crates/bliti-core/src/channel/stream.rs:84-184 | The same of the two stream objects, at any moment of any run of polls on either |
| Compress.CompressStream.CompressInput | crates/bliti-core/src/channel/compress.rs:133-146 | Ends, takes all of the input, and every byte put out is in the backlog |
| Compress.CompressStream.FlushCompress | crates/bliti-core/src/channel/compress.rs:152-164 | Ends; a sync leaves everything taken readable; reports the end exactly where the encoder ended |
| Compress.CompressStream.PollWrite | crates/bliti-core/src/channel/compress.rs:168-196 | Accepts all of the buffer in order, and nothing once finished |
| Compress.CompressStream.PollFlush | crates/bliti-core/src/channel/compress.rs:198-209 | Ready only with everything written readable by the peer and sent on; waits or fails only as the transport or an encoder that can does; with nothing new written, puts out nothing |
| Compress.CompressStream.PollClose | crates/bliti-core/src/channel/compress.rs:211-229 | Finished only where the encoder ended; ready only with the whole stream and its end handed on |
| Compress.CompressStream.Pull | crates/bliti-core/src/channel/compress.rs:299-305 | The transport is read only when all it brought is decoded, and never after its end |
| Compress.CompressStream.PollRead | crates/bliti-core/src/channel/compress.rs:233-307 | Nothing is read only at the stream's end or of a transport that ended with no byte; one that ends anywhere else is an unexpected end; it waits only where the transport stalled or had brought all there was, and once that has ended never; after either no more is pulled; every loop ends |
| Compress.EndToEnd | crates/bliti-core/src/channel/compress.rs:133-307 | Output is a prefix of input; the end is seen only of a finished stream received whole, and then all input is out; a flush decoded is everything written |
| Compress.CleanEndIsWhole | crates/bliti-core/src/channel/compress.rs:60-307 | Clean end only of a complete conversation, between the two stream objects at any moment; any cut short is never one |
| Compress.AnyCutIsShort | crates/bliti-core/src/channel/compress.rs:286-296 | A transport that ends having brought some, but not all, of a finished stream, or any of an unfinished one, has cut it short |
| Compress.ReadOut | crates/bliti-core/src/channel/compress.rs:233-307 | Reading on from a stream cut short gives the rest of what its bytes say and then, always, the error of an unexpected end |
| Seam.WriteAcross | crates/bliti-core/src/channel/stream.rs:110-132 | A write to the encrypted stream is a write to a scripted link, unless it fails, and then at worst one chunk is sealed that the layer above was not told of |
| Seam.FlushAcross | crates/bliti-core/src/channel/stream.rs:134-138 | So is a flush |
| Seam.CloseAcross | crates/bliti-core/src/channel/stream.rs:140-144 | And a close |
| Seam.ReadAcross | crates/bliti-core/src/channel/stream.rs:148-184 | So is a read, what is delivered being what reaches the link |
| Seam.DrainAcross | crates/bliti-core/src/channel/write_backlog.rs:32-48 | A backlog drained into the encrypted stream keeps accepted and waiting together the same bytes, and the layers joined, unless a write failed with its chunk sealed |
| Seam.Converse | crates/bliti-core/src/channel/stream.rs:109-184 | Whatever is called and for as long as nothing fails, stream and link answer alike and stay joined |
| Stack.Connection.constructor | crates/bliti-core/src/channel/stream.rs:250-268 | Built over a clean transport, the layers are assembled |
| Stack.Connection.FailedIsCarried | crates/bliti-core/src/channel/stream.rs:119-131 | After a write that failed with its chunk sealed, what was sealed is still a front part of what was to be sent |
| Stack.Connection.PollWrite | crates/bliti-core/src/channel/compress.rs:168-196 | A write to a connection takes all of the buffer or nothing; the layers stay assembled unless it failed, and even then nothing is sealed that was not to be sent |
| Stack.Connection.PollFlush | crates/bliti-core/src/channel/compress.rs:198-209 | Ready only with nothing written left at this end, in either layer |
| Stack.Connection.PollClose | crates/bliti-core/src/channel/compress.rs:211-229 | Ready only with the stream finished and nothing left at this end |
| Stack.Connection.PollRead | crates/bliti-core/src/channel/compress.rs:233-307 | Waits only with nothing left to read in either layer, and ends, however the layers hand on to one another |
| Stack.ConnectionEndToEnd | crates/bliti-core/src/channel/stream.rs:250-268 | The layers assembled, or failed part way through a write: prefix, order, no spurious fault, a clean end only of a closed connection, and a flush that carries everything written |
| Stack.ReadAll | crates/bliti-core/src/channel/compress.rs:233-307 | Over a transport that moves, reading one end until there is no more reads all the transport had |
| Stack.Deliver | crates/bliti-core/src/channel/stream.rs:250-268 | What is written and flushed at one end and carried is read at the other, all of it, where the transport moves |
| Stack.Act | crates/bliti-core/src/channel/stream.rs:250-334 | Any call at one of two ends talking keeps them so; reading fails only as the transport fails or where it was cut |
| Stack.Run | crates/bliti-core/src/channel/stream.rs:250-334 | Every run of two ends over adversarial transports: what was read at each is a front part of what was written at the other, with all that `ConnectionEndToEnd` says |
| Driver.ServesInOrder | crates/bliti-core/src/channel/stream.rs:308-320 | Requests are answered from the front, once each, and the rest wait in order |
| Driver.ServesWhatIsGiven | crates/bliti-core/src/channel/stream.rs:308-320 | Each answer is the multiplexer's own for its turn, and one waits only where it has no more to give |
| Driver.SurfacesWhatArrives | crates/bliti-core/src/channel/stream.rs:322-331 | The streams surfaced are those the peer opened, in order; the driver goes on, ends or fails by what the multiplexer then says |
| Driver.TurnsAllAway | crates/bliti-core/src/channel/stream.rs:298-304 | With no handle left, everyone who waits is told that it is not connected |
| Driver.Driver.Poll | crates/bliti-core/src/channel/stream.rs:284-334 | Every request made is taken; with a handle left they are served and arrivals surfaced, with none everyone waiting is turned away and only the close goes on |
| Path.Write | crates/bliti-core/src/channel/config.rs:723-752 | Writes the text the segments have |
| Path.ReadsBack | crates/bliti-core/src/channel/config.rs:723-752 | The grammar of section 2.7 of RFC 9535 reads every path written back to its segments |
| Path.WritesBack | crates/bliti-core/src/channel/config.rs:723-752 | And whatever that grammar reads is written exactly so: one spelling a node |
| Path.Injective | crates/bliti-core/src/channel/config.rs:711-752 | No two segment lists share a text: index and name, quoting and escapes never collide |
| Names.UpperIsMarked | crates/bliti-core/src/channel/envelope.rs:332-345 | A name written in upper case is critical exactly where it has a letter, and lowers back |
| Names.ClassifiesExactly | crates/bliti-core/src/channel/envelope.rs:332-347 | A name is well formed exactly where it is letters of one case, digits and hyphens; and critical where any is upper case |
| Envelope.Normaliser.Normalise | crates/bliti-core/src/channel/envelope.rs:349-393 | The first fault in order, or the value with lowered names and every critical path recorded, with the shared path as it was |
| Envelope.Collector.CollectUnknown | crates/bliti-core/src/channel/envelope.rs:396-430 | Collects exactly the declared set of unknown paths, with the shared path as it was on every branch |
| EnvelopeTheorems.FaultFreeIsClean | crates/bliti-core/src/channel/envelope.rs:349-393 | Normalising faults exactly where some name is malformed or two names of one object differ only in case, at any depth |
| EnvelopeTheorems.UnknownAreAbsent | crates/bliti-core/src/channel/envelope.rs:396-430 | The strings collected are the paths of the members first absent from the round trip, and only those |
| EnvelopeTheorems.CriticalAreMarked | crates/bliti-core/src/channel/envelope.rs:349-393 | The strings recorded critical are the paths of the members named in upper case, and only those |
| EnvelopeTheorems.DottedInjective | crates/bliti-core/src/channel/envelope.rs:349-430 | Dotted paths tell the nodes of one value apart, though a name may look like an index |
| EnvelopeTheorems.CriticalAndUnknown | crates/bliti-core/src/channel/envelope.rs:286-303 | Intersecting the strings intersects the nodes |
| Exchange.Read | crates/bliti-core/src/channel/envelope.rs:224-303 | Reading decides as the outcome function says: fault, skip, refusal of the type, of members, or message |
| ExchangeOutcomes.NoMessage | crates/bliti-core/src/channel/envelope.rs:229-238 | Not an object, no type, and a type that is no text are each its own fault |
| ExchangeOutcomes.UnknownType | crates/bliti-core/src/channel/envelope.rs:240-247 | A message of a type unknown is refused exactly where its type is in upper case, and skipped otherwise |
| ExchangeOutcomes.KnownIsAType | crates/bliti-core/src/channel/messages.rs:361-950 | The types known are those of the messages |
| ExchangeOutcomes.HelloMarksNothing | crates/bliti-core/src/channel/envelope.rs:249-263 | A hello in which anything is marked is a fault that names all that is; any other is understood or malformed |
| ExchangeOutcomes.SubscribeMarksItsTopic | crates/bliti-core/src/channel/envelope.rs:249-277 | A subscribe marking anything but its topic is one fault, naming all of it; one whose topic is there and unmarked another; any other is understood or malformed |
| ExchangeOutcomes.MalformedExactly | crates/bliti-core/src/channel/envelope.rs:279-285 | A message of any other known type is malformed exactly where its members cannot be read |
| ExchangeOutcomes.FaultIsThere | crates/bliti-core/src/channel/envelope.rs:349-393 | A fault of names is of a name the value has, malformed, or has twice in one object |
| Exchange.Write | crates/bliti-core/src/channel/envelope.rs:311-326 | Writes the message's members with its critical ones in upper case |
| ExchangeTheorems.RefusedExactly | crates/bliti-core/src/channel/envelope.rs:286-303 | A known unpinned type is refused exactly where one node is named in upper case and first absent, and otherwise understood |
| ExchangeTheorems.OrderIsNothing | crates/bliti-core/src/channel/envelope.rs:224-393 | Permuting members at any depth changes no outcome, but which fault is met |
| ExchangeTheorems.CasingIsOnlyCriticality | crates/bliti-core/src/channel/envelope.rs:224-345 | A message understood is understood alike with any set of its names lowered |
| Readings.EntryReadsBack | crates/bliti-core/src/channel/readings.rs:286-335 | An entry is read back whole, whatever its traits and value hold |
| Readings.EndedSaysSo | crates/bliti-core/src/channel/readings.rs:243-272 | An ended entry says it ended, keeps what tells it apart, and keeps a value only where that does |
| Readings.StatusSays | crates/bliti-core/src/channel/readings.rs:258-270 | A status says its word and reason, and the value stands beside the three it may |
| Messages.ReadsBackExactly | crates/bliti-core/src/channel/messages.rs:361-800 | A message is read back from its own members exactly where JSON can say it: no null curve, no time that is not a number |
| MessageFields.ReadsWhatIsCarried | crates/bliti-core/src/channel/messages.rs:361-800 | A message is read of members exactly where they carry it, each field in the member of its name |
| MessageFields.WireMarks | crates/bliti-core/src/channel/messages.rs:958-977 | On the wire each member goes by its name, in upper case exactly where its type marks it |
| WriteRead.WireLowers | crates/bliti-core/src/channel/envelope.rs:311-393 | The wire form, in any order, normalises to the message's members lowered, and faults exactly where its raw parts are unclean |
| WriteRead.PinsMet | crates/bliti-core/src/channel/messages.rs:950-977 | A pinned type is written with exactly the marks its pin asks for |
| WriteRead.WriteThenRead | crates/bliti-core/src/channel/envelope.rs:224-326 | Write then read is the message with raw names lowered, exactly where its raw names are well formed and do not collide and it can be said: never a skip, refusal or fault |
| WireCompat.Walker.Walk | crates/bliti-wire-compat/src/lib.rs:99-134 | Reports what was lost in the order met, with the shared path as it was |
| WireCompat.Omissions | crates/bliti-wire-compat/src/lib.rs:75-97 | Folds the case of both sides and walks them |
| WireCompat.OmitsExactly | crates/bliti-wire-compat/src/lib.rs:75-134 | Nothing is reported exactly where all that was sent came back, up to the case of names |
| WireCompat.ReportedIsThere | crates/bliti-wire-compat/src/lib.rs:99-134 | Every string reported is of a node that is gone, by its path, or one that changed, with what it was and is |
| WireCompat.ThereIsReported | crates/bliti-wire-compat/src/lib.rs:99-134 | And every such node is reported |
| WireCompat.SaidOfItself | crates/bliti-wire-compat/src/lib.rs:75-134 | A message loses nothing against itself |
| WireCompat.SaidOn | crates/bliti-wire-compat/src/lib.rs:75-134 | Losing nothing from one build to a second and on to a third loses nothing from the first to the third |
| WireCompat.UnknownIsLost | crates/bliti-wire-compat/src/lib.rs:65-134 | Every path the envelope finds unknown the oracle reports lost, in the same words |
| WireCompatTheorems.RoundTripIsWhole | crates/bliti-wire-compat/src/lib.rs:140-151 | What a build writes, reads and writes again the oracle finds whole |
| Capabilities.Checker.ResolveSelectors | crates/bliti-core/src/channel/capabilities.rs:189-244 | Resolves as specified, with the path restored on success and on failure |
| Capabilities.Checker.CheckObject | crates/bliti-core/src/channel/capabilities.rs:151-178 | Checks as specified, path restored; it has always a resolution to try, so its best fault is there to report |
| Capabilities.Checker.CheckOneValue | crates/bliti-core/src/channel/capabilities.rs:303-324 | A value against its constraint as specified, path restored |
| Capabilities.CheckDocument | crates/bliti-core/src/channel/capabilities.rs:83-89 | Accepts and faults as the whole check does |
| CapabilityMeaning.OfferingNothing | crates/bliti-core/src/channel/capabilities.rs:263-301 | A device that offers nothing takes a document exactly where it sets nothing but candidates, and nothing in any object of their list |
| CapabilityMeaning.KindIsNamed | crates/bliti-core/src/channel/capabilities.rs:263-324 | It refuses the first candidate that says its kind, at its kind |
| CapabilityMeaning.StrangerIsRefused | crates/bliti-core/src/channel/capabilities.rs:263-324 | A member whose name neither the form nor the mirror has is refused wherever it is, also in the objects of lists |
| CapabilityMeaning.KeyLaysOver | crates/bliti-core/src/channel/capabilities.rs:189-261 | A selector set holds the object to what its mirror says under the value's key, over what it says itself |
| CapabilityMeaning.InTurn | crates/bliti-core/src/channel/capabilities.rs:195-197 | Selectors are settled in turn: kind, interface, band |
| CapabilityForm.CandidateRequires | crates/bliti-core/src/channel/capabilities.rs:131-142 | A member of a candidate needs no mirror exactly where no candidate of its kind can be read without it |
| CapabilityForm.SecurityRequires | crates/bliti-core/src/channel/capabilities.rs:143-144 | Likewise of its security, and of an enterprise network's everything but the method |
| CapabilityForm.HotspotRequires | crates/bliti-core/src/channel/capabilities.rs:145 | Likewise of the hotspot |
| CapabilityForm.DocumentRequires | crates/bliti-core/src/channel/capabilities.rs:130 | Likewise of the document |
| CapabilityForm.BareExactly | crates/bliti-core/src/channel/capabilities.rs:83-324 | Under a mirror of the kinds and nothing else, a configuration that can be read passes exactly where it sets nothing it need not |
| Capabilities.ResolveYields | crates/bliti-core/src/channel/capabilities.rs:177-239 | Resolving never succeeds with nothing resolved |
| CapabilityTheorems.ResolvedBySome | crates/bliti-core/src/channel/capabilities.rs:189-239 | Every resolution is what some choice of keys for the unset selectors settles on |
| CapabilityTheorems.SettledIsResolved | crates/bliti-core/src/channel/capabilities.rs:189-239 | Every choice that settles is among the resolutions |
| CapabilityTheorems.CheckExactly | crates/bliti-core/src/channel/capabilities.rs:83-324 | Accepted exactly where some choice at every object covers or requires every member and no key of an unset selector faults |
| CapabilityTheorems.SoundAndComplete | crates/bliti-core/src/channel/capabilities.rs:83-324 | Sound for every document and mirror, and complete for a document that leads to no key that faults |
| CapabilityMirrors.CompleteExactly | crates/bliti-core/src/channel/capabilities.rs:160-244 | The mirrors for which every document within them is accepted, and no other, are exactly those of whose objects none can have its selectors set, and nothing else, in a way within it that meets a key that faults |
| CapabilitySettings.SteadyExactly | crates/bliti-core/src/channel/capabilities.rs:189-244 | Whether an object of a mirror is such a one is decided by finitely many settings of its three selectors, taken from its own keys, where text tells values apart |
| CapabilitySettings.CompleteByKeys | crates/bliti-core/src/channel/capabilities.rs:160-244 | So the mirrors the check is complete for are exactly those a walk of the mirror alone finds so |
| CapabilityGap.AFaultHidesAKey | crates/bliti-core/src/channel/capabilities.rs:214-219 | A document that parses and is within capabilities, refused because an earlier key faults |
| CapabilityTheorems.RefusalNamesAPlace | crates/bliti-core/src/channel/capabilities.rs:334-365 | The path of a refusal reads back to a node of the document or an unset selector of one of its objects, and the reason given is true of it |
| CapabilityTheorems.FurthestFirst | crates/bliti-core/src/channel/capabilities.rs:163-178 | Of the faults of its resolutions an object reports the first of those that got furthest |
| Config.Parse | crates/bliti-core/src/channel/config.rs:294-357 | Reads candidates in order, then hotspot, then domain, and faults at the first thing wrong |
| ConfigAccepts.AcceptedExactly | crates/bliti-core/src/channel/config.rs:294-810 | A document is accepted exactly where its candidates, hotspot and domain each fit and no two candidates are dynamic on one interface, whatever else it carries |
| ConfigFields.ReadsEachField | crates/bliti-core/src/channel/config.rs:294-707 | What a document is read as is exactly what its members say, field by field, and what security each kind is |
| ConfigFields.FaultIsWhatDoesNotFit | crates/bliti-core/src/channel/config.rs:294-810 | A refusal names the first part that does not fit, and that part is what does not |
| ConfigTheorems.DocumentIsSound | crates/bliti-core/src/channel/config.rs:294-540 | A document accepted has at most one dynamic candidate an interface, an address in each static one, and no band twice |
| ConfigTheorems.ReadsBackExactly | crates/bliti-core/src/channel/config.rs:294-707 | A document is read back from what it is written as exactly where it is well formed |
| ConfigTheorems.Settles | crates/bliti-core/src/channel/config.rs:294-707 | Whatever is accepted, written and read again is the same document |
| ConfigTheorems.NothingInvented | crates/bliti-core/src/channel/config.rs:361-707 | What is written of a document read says nothing the document did not |
| ConfigTheorems.FaultNamesAPlace | crates/bliti-core/src/channel/config.rs:294-707 | A document refused is faulted at a node of it or a member of an object of it |
| Power.AnswersExactly | crates/bliti/src/power.rs:260-293 | An ask is accepted exactly where the act is listed and nothing was accepted before; refused at `$['act']` where not listed and at `$` where something was; a refusal changes nothing |
| Power.LowBatteryExactly | crates/bliti/src/power.rs:301-315 | A low battery takes the slot to power off, for its own cause, exactly where that is listed and the slot free, and says which it was where not |
| Power.Controller.Decide | crates/bliti/src/power.rs:260-293 | Takes the slot for a listed act where it is free, and otherwise refuses at the act or at the whole message, leaving everything as it was |
| Power.Controller.LowBattery | crates/bliti/src/power.rs:301-315 | Takes the slot to power off where that is offered and the slot free |
| Power.Feed.Told | crates/bliti/src/power.rs:409-420 | Leaves the count once, told, dropped or both |
| Power.Departure.Step | crates/bliti/src/power.rs:327-364 | Each uninterrupted action of going away changes what it should of the controller and nothing else |
| PowerProtocol.StepKeeps | crates/bliti/src/power.rs:260-420 | Every step of every interleaving keeps slot, counts and what feeds have seen consistent |
| PowerProtocol.ReachableKeeps | crates/bliti/src/power.rs:260-420 | So does every run from the start |
| PowerTheorems.OneActAtATime | crates/bliti/src/power.rs:260-364 | An empty slot means nothing announced, ending or under way; what is announced is what was accepted; one thing at most is under way; counts are of what is there |
| PowerTheorems.NothingUnderflows | crates/bliti/src/power.rs:382-420 | A feed can always be told or closed and a session let go of without a count passing nought |
| PowerTheorems.CarriedOutInOrder | crates/bliti/src/power.rs:327-355 | In every run an act carried out was, immediately before and in this order, accepted, announced, told, ended, closed and the links dropped |
| PowerTheorems.AcceptedOnlyAfterFailure | crates/bliti/src/power.rs:352-364 | A later act is accepted only after the earlier one was carried out, failed and was let go of |
| PowerTheorems.EveryFeedTold | crates/bliti/src/power.rs:330-338 | The wait is met exactly when every open feed has announced, this act if it opened since the last was let go of; else it timed out |
| PowerTheorems.NotToldAgain | crates/bliti/src/session.rs:509-520 | In every run, what an open feed has announced stays what it was: one that outlives a failed act is not told of the next |
| PowerTheorems.EverySessionClosed | crates/bliti/src/power.rs:340-349 | The wait is met exactly when no session is open; else it timed out |
| PowerTheorems.LateFeedSees | crates/bliti/src/power.rs:234-242 | A feed registered after the announcement and before a failure sees it |
| PowerOutcomes.CarriedOutRegardless | crates/bliti/src/power.rs:327-355 | Once going away has begun, in every run in which its waits time out often enough the act is carried out, among whatever else happens in whatever order |
| PowerOutcomes.NeverBegunExactly | crates/bliti/src/power.rs:437-452 | In every run, the slot is held by an act accepted and never begun exactly where some answer could not be sent |
| PowerOutcomes.LossWasItsOwn | crates/bliti/src/power.rs:437-452 | And that answer was the one to the ask whose act holds the slot |
| PowerOutcomes.HowItSticks | crates/bliti/src/power.rs:327-355 | The slot held with nothing under way was last carried out exactly where no answer was lost, and last accepted exactly where one was |
| PowerOutcomes.AnAnswerLost | crates/bliti/src/power.rs:446-452 | Two steps from the start lead there |
| PowerOutcomes.CarriedOutExactlyIfAnswered | crates/bliti/src/power.rs:446-452 | From every reachable state, some run carries an act asked for out exactly where its answer is sent |
| PowerOutcomes.LowBatteryCan | crates/bliti/src/power.rs:301-315 | A shutdown for a low battery, once accepted, always can be |
| PowerOutcomes.CarriedOutExactly | crates/bliti/src/power.rs:260-364 | In every run, the act that holds the slot was carried out or still can be exactly where no answer was lost |
| PowerTheorems.LostAnswerSticks | crates/bliti/src/power.rs:446-452 | An answer that cannot be sent leaves the slot taken and nothing begun |
| PowerTheorems.StuckForGood | crates/bliti/src/power.rs:279-293 | From then on no act is accepted or carried out in any run, a low-battery shutdown among them |
| PowerObjects.Ask | crates/bliti/src/power.rs:260-293 | The controller, asked, takes the protocol's step |
| PowerObjects.GoOn | crates/bliti/src/power.rs:327-364 | A departure's next action is the protocol's next step, and it waits exactly where the protocol has none |
| PowerObjects.CloseFeed | crates/bliti/src/power.rs:409-420 | A feed dropped in any reachable state can leave the count, and takes the protocol's step |
| PowerObjects.CloseSession | crates/bliti/src/power.rs:382-386 | So can a session let go of |
| Sampler.KeyTellsApart | crates/bliti/src/sampler.rs:239-269 | Two entries share a key exactly where name and kind run together, distinguishing traits and any telling value are the same; where neither name holds the separator, name and kind are each the same |
| ReadingKeys.OneKeyExactly | crates/bliti/src/sampler.rs:220-269 | Two entries share a key exactly where they are alike in name and kind run together, in an address's value, and in every trait but nine, an interface but for two members of it and a battery but for three |
| ReadingKeys.AlikeIsOne | crates/bliti/src/sampler.rs:220-269 | However text is written, entries alike in all that have one key |
| Sampler.ASeparatorInAName | crates/bliti/src/sampler.rs:264-269 | Where a name does hold it, two entries of different names share a key |
| Instances.JsonTextIsFaithful | crates/bliti/src/sampler.rs:257-269 | There is a printer of JSON that tells values apart and never writes the separator, as the key asks |
| Sampler.EndedIsTheSame | crates/bliti/src/sampler.rs:194-199 | An entry sent once more as ended has the key it had |
| Sampler.TickBringsLevel | crates/bliti/src/sampler.rs:158-207 | One tick, fast or slow, brings a reader that agreed to hold exactly what the sampler holds |
| Sampler.TickSays | crates/bliti/src/sampler.rs:168-199 | After a slow tick the device holds what it took and has ended all else; after any other it holds that besides, and ends nothing |
| Sampler.FeedFollows | crates/bliti/src/sampler.rs:136-209 | So does every run of ticks with none missed |
| Sampler.SnapshotAgrees | crates/bliti/src/sampler.rs:84-106 | What a feed opens with is such a start, though it counts the clients afresh |
| Sampler.Sampler.Endings | crates/bliti/src/sampler.rs:193-198 | Each entry held and not taken is sent ended, once, and nothing else is |
| Sampler.Sampler.Turn | crates/bliti/src/sampler.rs:136-209 | One turn of the loop keeps and sends what a tick should, slow every fifth, with the sessions counted; stops and clears at the half hour without one, and with one open never |
| Sampler.ChangeBringsLevel | crates/bliti/src/session.rs:562-570 | A change of facts takes a reader of the last facts to the current ones, and nothing else |
| Sampler.FactsFeed.Due | crates/bliti/src/session.rs:534-544 | Each look sends nothing exactly where the facts say the same, and leaves a reader with what was last sent |
| Sampler.SameButForWhen | crates/bliti/src/session.rs:625-637 | Facts say the same where they are but for when they were taken |
| Feed.FeedHoldsBoth | crates/bliti/src/session.rs:470-545 | However ticks and changes of facts take turns on one feed, a reader holds the facts last said and what the sampler holds, each untouched by the other |
| Feed.OpensLevel | crates/bliti/src/session.rs:467-485 | The batch a feed opens with, the facts and then the snapshot, starts a reader so |
| Feed.PartsByName | crates/bliti/src/sampler.rs:239-269 | Entries of names apart and without the separator have keys apart |
| Gatt.PollTakes | crates/bliti/src/gatt.rs:107-137 | A read takes from the front of what is left and leaves the rest |
| Gatt.EndExactly | crates/bliti/src/gatt.rs:107-137 | The end is read exactly with nothing left and the sender gone, and a read waits exactly with nothing left and it not |
| Gatt.TakesAllItCan | crates/bliti/src/gatt.rs:107-137 | A read takes as much as there is room for of the first chunk there is anything of |
| Gatt.HoldsSixtyFive | crates/bliti/src/gatt.rs:31-39 | A client may be sixty-five chunks ahead of its session and no more |
| Gatt.InboundSink.Deliver | crates/bliti/src/gatt.rs:31-39 | Reaches the client's own channel and no other; one that cannot take it is cut off |
| Gatt.InboundSink.Install | crates/bliti/src/gatt.rs:42-47 | The client's channel is the new one and its earlier one has lost its sender |
| Gatt.InboundSink.Remove | crates/bliti/src/gatt.rs:51-59 | Removes the channel only where it is still the one installed |
| Gatt.GattTransport.PollRead | crates/bliti/src/gatt.rs:108-136 | Reads as the reader does, passing over empty chunks |
| Gatt.GattTransport.PollWrite | crates/bliti/src/gatt.rs:140-159 | Sends as much as one notification carries, where there is room |
| Gatt.GattTransport.Drop | crates/bliti/src/gatt.rs:100-105 | Uninstalls itself and never its replacement |
| GattTheorems.RunSends | crates/bliti/src/gatt.rs:26-136 | In every run a session is sent all its client writes while installed, in order with nothing left out, and nothing after |
| GattTheorems.ReadsItsOwnClient | crates/bliti/src/gatt.rs:26-136 | What a session reads is a prefix of what its own client writes from its opening on, whatever others do |
| GattTheorems.StaysInstalled | crates/bliti/src/gatt.rs:31-59 | A session loses its place exactly by its client opening another, by overflowing, or by being dropped itself |
| GattTheorems.ReplacedReadsOut | crates/bliti/src/gatt.rs:41-47 | A session replaced reads what it was sent and then the end |
| GattObjects.Open | crates/bliti/src/gatt.rs:74-98 | A transport opened takes the clients' step, and cuts off the one it replaces |
| GattObjects.Deliver | crates/bliti/src/gatt.rs:31-39 | So does a write delivered |
| GattObjects.Read | crates/bliti/src/gatt.rs:107-137 | So does a read, and what it reads is what the session has read besides |
| GattObjects.Drop | crates/bliti/src/gatt.rs:100-105 | So does a transport dropped |

## Left out

- Cryptography: key derivation, the handshake and the inside of the Noise cipher are library code; a cipher is a pair of functions of a counter, and opening gives back what was sealed.
- Deflate: library code; a codec is any pair of state machines that keep the contract in `Compress`, one of which `Instances` gives.
- Yamux: library code; the driver is proved against any replies the multiplexer gives, and the layers beneath it end at the bytes it is handed.
- JSON text and UTF-8: messages start as a parsed listing of members, so the faults for bytes that are not UTF-8 or not JSON are not here. A number is whole, or digits and a power of ten as text carries it, without the rounding of floating point; `Instances` gives a printer, and no parser.
- Message types: eleven of them stand for the rest, which repeat their shapes: the two pinned ones, raw traits, raw documents, no critical member, one, and several optional ones.
- Messages.ReadsBackExactly: the map of a message is built and read as a value, where the program inserts into a map and fills one in a loop; nothing observes the map half built.
- Readings.EndedSaysSo: the status is set on a copy of the entry, where the program sets it in place on a copy it has just made.
- Reasons: the words of a fault or a refusal are left out but for those of the power controller; where a fault is, and in which case, is kept.
- Placement and channel rules: the checks made after the mirror is held against the document need a module that is not part of this model.
- Exchange.Read: the outcome for a member refused carries the same set of names; the wording of refusals and logs is left out.
- ExchangeTheorems.OrderIsNothing: which fault is reported of several does depend on the order of members, as it does in the program.
- Real time: a wait that may time out either ends or does not; how long it takes is not modelled.
- PowerProtocol.StepKeeps: waiting on a counter is one step at which the counter is looked at; that a watcher is woken is the runtime's promise.
- Sampler.FeedFollows: the moment a session joins, between the snapshot and the live subscription, and a subscriber that lags behind are left out; the theorem is about a reader that misses nothing.
- Stack.Connection.PollRead: after a frame that does not open nothing is said of the connection, which has ended; `Run` shows that the other end never sends one.
- Stack.Act: an end that has failed is called no more, as the driver drops it; and one cipher stands for the two directions' keys.
- Instances.JsonTextIsFaithful: it is one printer, with the escapes of RFC 8259; how the serde_json library writes a fraction is library code.
- PowerObjects.Ask: sending an answer and recording a low battery are steps of the protocol with no object of their own.
- Sampler.Sampler.Turn: waiting for a session once sampling has stopped is not a step of its own, and sources are taken to send nothing as ended and no count of clients, as the device's own does not.
- Gatt.InboundSink.Deliver: a channel takes one chunk beyond its depth from its one sender, as the channel of the futures library does; flushing and closing the notifying side are left out.
- Served topics, the order of a feed's first batch, device identity, provisioning, the fact and reading sources, and every user interface: correct by short cases or input and output.
