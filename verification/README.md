# Verified model of the DoH proxy's core

This Dafny 4.11 project models the parts of the proxy whose correctness is hard to see from reading
one function, and proves what they promise for every input, every run or every interleaving.

- **The DNS wire engine.** Five independent loops walk domain names (`Names`), and the program is
  right only because they agree where it matters (`NameAgreement`); where exactly they differ is
  stated too (`NameLimits`). The message codec (`Messages`, `RrTypes`) is inverse to itself exactly
  on the stated messages and packets (`CodecRoundTrip`). The answer rewriter works twice, once on
  the decoded message and once on the raw bytes (`AnswerRewrite`); the byte form refines the message
  form exactly when the names survive (`RewriteRefinement`, `RewriteWitness`). `Layout` describes a
  packet by the spans of its records; every editor of the additional section is proved against it:
  TTL and OPT handling and padding (`Edns`, `MinTtlTheorem`, `EdnsTheorems`, `PaddingTheorems`) and
  client-subnet insertion (`Ecs`, `EcsTheorems`, `EcsBounds`). On packets the decoder accepts, names
  compressed or not, the same editors are proved to edit the decoded message (`MessageEdits`).
- **The fastest-address cache.** A doubly linked list threaded through a map (`LruCache`) refines a
  sequence, and runs of it behave as a least-recently-used cache (`LruRuns`). On top are the
  replacement policy (`FastestPolicy`) and the choice of an address and a reply (`FastestSelection`).
- **Protocols.** The HTTP/3 correlation table (`H3Pending`), the HTTP/3 failure window and backoff
  (`H3Backoff`), the rebuild throttle (`RebuildThrottle`), client admission (`Admission`) and the
  load-balancing failover loop (`LoadBalance`), each with nondeterministic outcomes and clock
  readings as inputs and each property over all runs.
- **Queries.** The bootstrap resolver's builder and parser (`HostNames`, `Bootstrap`), and a JSON
  query from its parameters to the packet sent upstream (`JsonQuery`).

Code that changes state is modelled by methods, in classes where the source has objects, and each
is proved equal to a specification function; the lemmas then speak of those functions. So that
this is not circular, what the functions compute is also stated in numbers and octets of the wire,
against an independent reading, or as something that must happen in a run. A packet the
source grows is a `PacketBuffer`, one it only overwrites is an `array`. Random draws, clock readings,
probe results, ping arrivals and upstream replies are parameters.

Where the code and its documentation or intent part, the model follows the code and says so with a
lemma: `min_ttl` fails on every packet without records although it has a branch for them
(`MinTtlExact`); `padded_len` leaves out the option header, so a padded packet is a block length
plus 4 (`PadLast`), and padding swallows the next record when the OPT is not last
(`PaddingSwallowsNext`, `PaddingBreaksReply`); the subnet editor reads past the end of a packet
whose additional section is cut short (`PanicsIffCutShort`, `OwnerOnlyCrashes`), which happens only
because its caller ignores that the editor before it refused the packet (`SuccessKeepsInside`,
`CrashedIff`); the "pad with zero bits" rule of the subnet option holds only for whole octets
(`ConformsIffWholeOctets4`); the overflow check of the additional count never fires
(`CountNeverOverflows`); the JSON walker never leaves a loop of pointers, which a name inside record
data of an accepted reply can be (`JsonHaltsIffNoReturn`, `DataNameNeverReturns`); a rewrite may
change a later name that points into an address, or leave a reply that does not decode
(`PointerIntoDataRenames`, `PointerIntoDataBreaks`); the bootstrap parser compares names as text, in
which a dot inside a label reads like one between labels (`DottedLabelSameText`,
`SameTextIffSameName`); a ping of an IPv6 address with an IPv4 form is stored where a lookup of that
address never finds it (`PingFoundIff`); and a rejection in progress can turn away a connection
while nobody is served (`SpuriousRejection`).

`dafny verify dfyconfig.toml` checks the whole project.

## Model

| member | source | states |
|---|---|---|
| `Names.FromWire` | src/libdoh/src/upstream/msg.rs:94-141 | The decoding loop equals a recursive specification of a name: its labels, where the message goes on, and the error it meets, with the limits of 255 octets and 128 pointers (section 4.1.4 of RFC 1035) |
| `Names.SkipWire` | src/libdoh/src/upstream/msg.rs:143-168 | The skipping loop equals its specification for every packet and offset, errors included |
| `Names.SkipNameLoop` | src/libdoh/src/dns.rs:63-90 | The raw walker equals its specification, including its demand for a byte after the name and its limit of 256 |
| `Names.ParseDnsNameLower` | src/libdoh/src/lib.rs:2913-2976 | The bootstrap parser equals the lower-cased dotted text of the labels it walks; it fails in exactly the specified cases, the bound on jumps among them |
| `Names.ParseNameJson` | src/libdoh/src/dns_json.rs:135-180 | Where the JSON walker halts at all, it returns the dotted text of the labels it walks |
| `NameAgreement.WalkersAgree` | src/libdoh/src/upstream/msg.rs:94-168 | Wherever the full decoder succeeds all five walkers give its labels and its next offset; the raw walker does exactly when a pointer ends the name or a byte follows it |
| `NameAgreement.SkipNameExact` | src/libdoh/src/dns.rs:63-90 | The raw walker succeeds if and only if the simple one does, a byte follows an inline root, and the name has at most 256 octets in line; then both return the same offset |
| `NameAgreement.JsonHaltsIffBounded` | src/libdoh/src/dns_json.rs:135-180 | The JSON walker has no jump bound: it halts if and only if it halts within packet-length + 1 steps |
| `NameAgreement.JsonHaltsIffNoReturn` | src/libdoh/src/dns_json.rs:135-180 | It fails to halt if and only if its walk comes back to a position it has stood on |
| `NameAgreement.JsonSelfPointer` | src/libdoh/src/dns_json.rs:135-180 | In any packet, a pointer that points at itself keeps it busy for any number of steps |
| `NameLimits.AcceptedIff` | src/libdoh/src/upstream/msg.rs:94-141 | Where the walkers differ: the bootstrap parser accepts exactly the names with labels under 64 octets, the decoder exactly those of them with at most 128 pointers and 255 octets, and refuses the others with one of two errors |
| `NameLimits.AcceptedNamesRead` | src/libdoh/src/dns_json.rs:86-133 | On every packet the decoder accepts the JSON walker returns at each question and each owner, with the decoder labels and offset |
| `NameLimits.DataNameNeverReturns` | src/libdoh/src/dns_json.rs:236-240 | On a reply that the decoder accepts and whose TTL is found, the walk over the name inside a CNAME record does not return |
| `NameAgreement.StopsWithinLength` | src/libdoh/src/lib.rs:2913-2976 | A walk that ends never visits a position twice, so it makes at most packet-length moves: the jump bound never cuts off a name that decodes |
| `NameFrames.DecodeFrame` | src/libdoh/src/upstream/msg.rs:94-141 | Bytes that a decoding does not read do not influence it |
| `NameFrames.SkipSuffix` | src/libdoh/src/upstream/msg.rs:143-168 | Skipping depends only on the bytes from its offset on, also when it fails |
| `NameLimits.TwoLabels` | src/libdoh/src/upstream/msg.rs:94-141 | Two labels of 1 to 63 octets on the wire, each behind its length and the root behind them, are read in that order |
| `NameLimits.PointerOctets` | src/libdoh/src/upstream/msg.rs:104-121 | A pointer is 192 plus the high six bits of an offset and then its low eight; the name goes on there and the message behind the two octets |
| `NameLimits.RefusedFor` | src/libdoh/src/upstream/msg.rs:94-168 | Which error the decoder and the two skippers give for each way in which the octets at hand can be wrong |
| `NameLimits.SelfPointerRefused` | src/libdoh/src/upstream/msg.rs:94-141 | The decoder refuses a pointer at itself as a loop |
| `Names.LowerOctets` | src/libdoh/src/lib.rs:2913-2976 | Lower-casing maps A to Z to a to z and keeps every other octet |
| `RrTypes.CodeRoundTrip` | src/libdoh/src/upstream/rr_types.rs:97-283 | Code to type to code is the identity on all 65536 codes |
| `RrTypes.TypeRoundTrip` | src/libdoh/src/upstream/rr_types.rs:97-283 | Type to code to type is the identity exactly on types that are not an unknown type with a known code |
| `RrTypes.CodesTo21` | src/libdoh/src/upstream/rr_types.rs:97-190 | Which code number is read as each named type, up to 21 |
| `RrTypes.CodesTo43` | src/libdoh/src/upstream/rr_types.rs:97-190 | The same from 22 to 43 |
| `RrTypes.CodesTo65` | src/libdoh/src/upstream/rr_types.rs:97-190 | The same from 44 to 65 |
| `RrTypes.CodesTo65535` | src/libdoh/src/upstream/rr_types.rs:97-190 | The same from 66 on |
| `RrTypes.ReadAsIff` | src/libdoh/src/upstream/rr_types.rs:97-283 | A code is read as a type if and only if it is the code written for that type, so the numbers above hold in both directions |
| `RrTypes.AddressCodes` | src/libdoh/src/upstream/rr_types.rs:97-283 | The address types are exactly codes 1 and 28 |
| `Messages.BitsRoundTrip` | src/libdoh/src/upstream/msg.rs:41-86 | Unpacking a flag word and packing it again gives the same 16 bits |
| `Messages.HeaderRoundTrip` | src/libdoh/src/upstream/msg.rs:41-86 | Packing a header and unpacking it gives it back if and only if opcode and rcode have four bits |
| `Messages.FlagWord` | src/libdoh/src/upstream/msg.rs:41-86 | Which bits of the 16-bit flag word each header field is (section 4.1.1 of RFC 1035) |
| `Messages.UnpackMsg` | src/libdoh/src/upstream/msg.rs:214-258 | The unpacking loops equal a recursive specification of the message, with its error cases |
| `Messages.UnpackSection` | src/libdoh/src/upstream/msg.rs:472-497 | A section is the records decoded one after another, or the error of the first that fails |
| `Messages.PackInto` | src/libdoh/src/upstream/msg.rs:170-185 | A name is appended as length-prefixed labels and a root octet; it is refused exactly when a label has 64 octets or more |
| `Messages.PackRecord` | src/libdoh/src/upstream/msg.rs:499-515 | A record is appended with all its fields, or refused for its data length before its name |
| `Messages.PackMsg` | src/libdoh/src/upstream/msg.rs:260-305 | The packing loops equal the encoding of the header and of the four sections in order, with the first error any of them meets |
| `CodecRoundTrip.PackThenUnpack` | src/libdoh/src/upstream/msg.rs:214-305 | Every well-formed message packs, and unpacking what was packed gives it back; the packed form has no pointer |
| `CodecRoundTrip.UnpackedIsOk` | src/libdoh/src/upstream/msg.rs:214-305 | Every message the decoder produces is well-formed, so packing and unpacking it is the identity |
| `CodecRoundTrip.UnpackThenPack` | src/libdoh/src/upstream/msg.rs:214-305 | Packing a decoded packet gives its bytes back if and only if none of its names uses a compression pointer |
| `AnswerRewrite.RewriteAnswerIps` | src/libdoh/src/upstream/msg.rs:350-365 | The in-place loop over the answers replaces the data of exactly the matching records |
| `AnswerRewrite.ListAnswerIps` | src/libdoh/src/upstream/msg.rs:311-335 | The loop lists the addresses of class IN in the order of the answers |
| `AnswerRewrite.RewriteSubstitutes` | src/libdoh/src/upstream/msg.rs:311-365 | The list of answer addresses after a rewrite is the list before it with every address of the chosen family replaced, each in its place |
| `AnswerRewrite.RewriteAnswerIpsInPacket` | src/libdoh/src/upstream/msg.rs:403-469 | The walk that overwrites the packet under its own feet leaves exactly the specified bytes and outcome, also when it fails after having written |
| `RewriteRefinement.RewriteKeepsWalk` | src/libdoh/src/upstream/msg.rs:403-469 | On any packet at all, rewriting changes neither the outcome nor any record span, of the answers or of the sections behind them |
| `RewriteRefinement.RewriteChangesOnlyChosenData` | src/libdoh/src/upstream/msg.rs:403-469 | A byte outside the data of a chosen answer never changes, and the data of every chosen answer become the address |
| `RewriteRefinement.RewriteInOctets` | src/libdoh/src/upstream/msg.rs:403-469 | In the octets of any packet: the data of an answer become the address if and only if its class is 1 and its type and length are 1 and 4 for an IPv4 address, 28 and 16 for an IPv6 one |
| `RewriteRefinement.AcceptedIffWalks` | src/libdoh/src/upstream/msg.rs:214-469 | A packet is accepted by the decoder if and only if the in-place rewrite succeeds on it and every name on the way decodes |
| `RewriteRefinement.RecordRefusedFor` | src/libdoh/src/upstream/msg.rs:429-497 | Which error a record gives, to the decoder and to the rewriter, for its name, its fixed part and its data |
| `RewriteRefinement.RewriteIdempotent` | src/libdoh/src/upstream/msg.rs:403-469 | Rewriting twice is rewriting once |
| `RewriteRefinement.RewriteRefinesIff` | src/libdoh/src/upstream/msg.rs:350-469 | On a packet the decoder accepts the byte-level rewrite succeeds and keeps the length; what it leaves decodes to the message-level rewrite if and only if it holds the same names in the same places |
| `RewriteRefinement.RewriteRefines` | src/libdoh/src/upstream/msg.rs:350-469 | It does so whenever no decoded name reads a byte that changes |
| `RewriteRefinement.RewriteRefinesClear` | src/libdoh/src/upstream/msg.rs:350-469 | In terms of the packet alone: it does so whenever no decoded name reads the data of an answer to be rewritten |
| `RewriteRefinement.RewriteRefinesUncompressed` | src/libdoh/src/upstream/msg.rs:350-469 | In particular it does so on every packet without compression pointers |
| `RewriteRefinement.RewrittenIps` | src/libdoh/src/upstream/msg.rs:311-469 | Whenever the rewritten packet decodes, its answer addresses are the old ones with those of the chosen family replaced, whatever its names point at |
| `Layout.TraverseRrs` | src/libdoh/src/dns.rs:92-134 | The record walk ends where the specified walk of spans ends, or with its error |
| `Layout.WalksMoved` | src/libdoh/src/dns.rs:92-134 | Records copied to another place are walked there, each span moved by the same distance |
| `Layout.LayoutEdit` | src/libdoh/src/dns.rs:187-218 | Editing one additional record, with all before and behind it kept, keeps every other span, those behind it moved |
| `Edns.ComputeMinTtl` | src/libdoh/src/dns.rs:136-162 | The method equals its specification: every guard in its order, then the least TTL of the walk |
| `MinTtlTheorem.MinTtlExact` | src/libdoh/src/dns.rs:136-162 | On every packet of at most 4096 bytes that decodes with one question, the raw walk succeeds if and only if there is a record, and returns the clamped least TTL of the decoded records other than OPT |
| `MinTtlTheorem.MinTtlOnEveryPacket` | src/libdoh/src/dns.rs:136-162 | On every packet at all: success if and only if it has at most 4096 bytes and one question, its records walk exactly to its end and there is one; the value is the least TTL field of types other than 41, clamped |
| `EdnsTheorems.RefusedAtOnce` | src/libdoh/src/dns.rs:136-291 | Up to 12 bytes, over 4096 or without exactly one question, the TTL walk and both editors give the error of the first of these and leave the packet alone |
| `Edns.AddEdnsSection` | src/libdoh/src/dns.rs:164-185 | Appends eleven bytes and raises the count, or leaves the packet alone with the error of the first limit met |
| `Edns.SetEdnsMaxPayloadSize` | src/libdoh/src/dns.rs:187-218 | The editing walk leaves exactly the specified bytes: the class of the first OPT overwritten even when a later record makes it fail |
| `EdnsTheorems.SetEdnsSucceedsIff` | src/libdoh/src/dns.rs:187-218 | On a one-question packet that walks to its end, it succeeds if and only if there is at most one OPT and, when there is none, room for eleven bytes |
| `EdnsTheorems.SetEdnsUpdates` | src/libdoh/src/dns.rs:187-218 | With one OPT only its class changes; the layout is the same and the OPT carries the size |
| `EdnsTheorems.AddSectionLaid` | src/libdoh/src/dns.rs:164-185 | With no OPT the layout gains exactly one record, at the end, and the count agrees with the walk |
| `EdnsTheorems.SetEdnsNormalises` | src/libdoh/src/dns.rs:187-218 | After any success there is exactly one OPT, it carries the size, the packet walks to its end, and a second call changes nothing |
| `EdnsTheorems.SetEdnsRefuses` | src/libdoh/src/dns.rs:187-218 | Two OPT records anywhere make it fail with the duplicate error |
| `EdnsTheorems.CountNeverOverflows` | src/libdoh/src/dns.rs:39-45 | The overflow error of the additional count cannot occur in either of the two editors that raise the count, on any input |
| `EdnsTheorems.BeforeKept` | src/libdoh/src/dns.rs:114-134 | Records before an edited one keep their bytes and their being an OPT or not |
| `EdnsTheorems.AfterKept` | src/libdoh/src/dns.rs:114-134 | Records behind an edited one keep their bytes at their new place and their being an OPT or not |
| `Edns.AddEdnsPadding` | src/libdoh/src/dns.rs:231-291 | The method leaves exactly the specified bytes and outcome in each of its branches |
| `Edns.PaddedLenLeast` | src/libdoh/src/dns.rs:220-229 | The padded length is the least block length not below the given one, 4096 when there is none |
| `Edns.PaddingOctets` | src/libdoh/src/dns.rs:268-291 | The option appended is number 12, its length and that many octets X |
| `Edns.OptOctets` | src/libdoh/src/dns.rs:164-185 | The record appended, octet by octet (section 6.1.2 of RFC 6891) |
| `PaddingTheorems.PadLast` | src/libdoh/src/dns.rs:231-291 | Padding a last OPT succeeds exactly up to 4080 bytes, gives a block length plus 4, and changes the walk only by one padding option in the OPT (section 3 of RFC 7830) |
| `PaddingTheorems.PaddingExact` | src/libdoh/src/dns.rs:231-291 | With one OPT, wherever it stands: success exactly up to 4080 bytes; then all bytes before the length field are kept, the length is raised to match and one padding option is appended. A failure leaves the packet as it was |
| `PaddingTheorems.PaddingTooLarge` | src/libdoh/src/dns.rs:281-284 | Over 4080 bytes the refusal says too large and leaves the packet alone |
| `PaddingTheorems.PaddingExactLast` | src/libdoh/src/dns.rs:231-291 | The same with the OPT last, where the packet also walks to its new end with only that record longer |
| `PaddingTheorems.PaddingExactAbsent` | src/libdoh/src/dns.rs:231-291 | Without an OPT: success exactly when the packet and eleven bytes make at most 4080, with the same bytes and walk on top of the added OPT; a failed padding leaves exactly the packet with the OPT added |
| `PaddingTheorems.PaddingSwallowsNext` | src/libdoh/src/dns.rs:231-291 | With an OPT that is not last and at most 4080 bytes, padding succeeds and the OPT reaches over the start of the record behind it |
| `PaddingTheorems.PaddingKeepsIffLast` | src/libdoh/src/dns.rs:231-291 | Up to 4080 bytes, padding leaves every other record in place if and only if the OPT is the last record |
| `PaddingTheorems.OptFirstLaid` | src/libdoh/src/dns.rs:231-291 | A reply with an OPT followed by another additional record: padding succeeds and the other record is not left in place |
| `Ecs.BuildEcsOption` | src/libdoh/src/edns_ecs.rs:44-78 | The pushes equal the specified data; what these are is stated by EcsOctets |
| `Ecs.EcsOctets` | src/libdoh/src/edns_ecs.rs:44-78 | Octet by octet for every address and prefix: family number, prefix, scope zero, and octet i of the address for each i below both its length and the prefix in octets |
| `Ecs.EcsOptionOctets` | src/libdoh/src/edns_ecs.rs:174-199 | The option is number 8, its length, and those data |
| `Ecs.EcsExample` | src/libdoh/src/edns_ecs.rs:44-78 | For 192.0.2.77 and 24 bits: 0 8 0 7 0 1 24 0 192 0 2 |
| `Ecs.ConformsIffWholeOctets4` | src/libdoh/src/edns_ecs.rs:44-78 | For IPv4 the option has as many octets as section 6 of RFC 7871 asks and zero unused bits, for every address, if and only if the prefix is a multiple of 8 up to 32 |
| `Ecs.ConformsIffWholeOctets6` | src/libdoh/src/edns_ecs.rs:44-78 | The same for IPv6 and 128 |
| `Ecs.AddEcsToPacket` | src/libdoh/src/edns_ecs.rs:80-199 | The in-place splice leaves exactly the specified bytes and outcome, a panic on a malformed packet being one outcome |
| `EcsTheorems.ScanFindsSubnet` | src/libdoh/src/edns_ecs.rs:140-172 | On well-formed options the scan, bounded by the packet too, finds an option 8 if and only if there is one |
| `EcsTheorems.EcsSplices` | src/libdoh/src/edns_ecs.rs:80-199 | With a root-owned OPT whose options are well-formed and hold no option 8: success, one option 8 behind the old ones, a length that does not wrap, all else untouched or moved as it is |
| `EcsTheorems.EcsKeepsExisting` | src/libdoh/src/edns_ecs.rs:80-199 | An option 8 already there leaves the packet byte for byte as it is |
| `EcsTheorems.EcsRefusedAtOnce` | src/libdoh/src/edns_ecs.rs:80-104 | Length and question count are tested first, each with its error, the packet left alone |
| `EcsTheorems.EcsNeedsRootOpt` | src/libdoh/src/edns_ecs.rs:110-138 | Without a root-owned OPT nothing is inserted and the error says so |
| `EcsTheorems.EcsIdempotent` | src/libdoh/src/edns_ecs.rs:80-199 | A second insertion, with any address, changes nothing; it reports success exactly when the grown packet has at most 4096 bytes |
| `EcsBounds.PanicsIffCutShort` | src/libdoh/src/edns_ecs.rs:80-136 | On every packet: the search reads past its end if and only if question and main sections walk and, within the additional count and before any root-owned OPT, a root-owned record is cut short before its type or, an OPT, before its data |
| `EcsBounds.OwnerOnlyCrashes` | src/libdoh/src/lib.rs:1171-1193 | A packet of 18 bytes that the first editor refuses and at which the second, run all the same, leaves the packet |
| `EcsBounds.SuccessKeepsInside` | src/libdoh/src/lib.rs:1171-1193 | On every packet: once the payload size is set the subnet editor stays inside the packet |
| `EcsBounds.CrashedIff` | src/libdoh/src/lib.rs:1171-1193 | A request is lost if and only if it has 17 bytes or more, the first editor refuses it, and what that editor leaves is cut short |
| `EcsBounds.OtherwiseSent` | src/libdoh/src/lib.rs:1171-1193 | Under 17 bytes a request is refused; any other that is not lost goes out as the editors leave it, the first of them with 4096 |
| `MessageEdits.AcceptedLaid` | src/libdoh/src/dns.rs:63-134 | Every packet with one question that the decoder accepts is laid out, its additional records and OPT records where the message has them |
| `MessageEdits.SetEdnsSetsClass` | src/libdoh/src/dns.rs:187-218 | An accepted packet with one OPT anywhere: what is left unpacks to the message with the class of that OPT set, when no name reads that field |
| `MessageEdits.SetEdnsAddsRecord` | src/libdoh/src/dns.rs:167-218 | An accepted packet without OPT: what is left unpacks to the message with one OPT more, when no name reads the additional count |
| `MessageEdits.PaddingAddsOption` | src/libdoh/src/dns.rs:231-291 | An accepted packet whose one OPT is last, at most 4080 bytes: what is left unpacks to the message with one option 12 more in it, when no name reads its length field |
| `MessageEdits.PaddingAddsRecord` | src/libdoh/src/dns.rs:231-291 | Without OPT and with room: what is left unpacks to the message with one OPT more that holds the padding |
| `MessageEdits.EcsAddsOption` | src/libdoh/src/edns_ecs.rs:80-199 | An accepted packet whose one OPT is last and root-owned, without option 8: what is left unpacks to the message with one option 8 more in it, when no name reads its length field |
| `MessageEdits.PaddingBreaksReply` | src/libdoh/src/dns.rs:231-291 | The reply whose OPT is not last unpacks, is padded with success, and then does not unpack |
| `MessageEdits.TrailingRefused` | src/libdoh/src/upstream/msg.rs:247-258 | An accepted packet with anything behind it is refused for its trailing bytes |
| `LruCache.FastestIpCache.WithMaxSize` | src/libdoh/src/globals.rs:121-128 | An empty cache of at least one entry |
| `LruCache.FastestIpCache.Detach` | src/libdoh/src/globals.rs:203-230 | Unlinking a key takes exactly it out of the list and keeps every entry |
| `LruCache.FastestIpCache.MoveToFront` | src/libdoh/src/globals.rs:181-201 | A held key becomes the first of the sequence, the others in their order; an absent key changes nothing |
| `LruCache.FastestIpCache.Remove` | src/libdoh/src/globals.rs:167-171 | The key leaves the list and the map; the rest stays as it was |
| `LruCache.FastestIpCache.Get` | src/libdoh/src/globals.rs:130-138 | Refines the sequence cache: an expired key is removed and not returned, a live one is returned and moved to the front |
| `LruCache.FastestIpCache.EvictIfNeeded` | src/libdoh/src/globals.rs:173-180 | Removes the last key when there is one too many, else nothing |
| `LruCache.FastestIpCache.Upsert` | src/libdoh/src/globals.rs:140-165 | Refines the sequence cache; list and map stay one acyclic doubly linked list over exactly the map keys, within the size |
| `LruCache.UpsertCoherent` | src/libdoh/src/globals.rs:140-165 | Insertion keeps the sequence free of duplicates, equal to the keys and within the size, and drops at most the last key, never the new one |
| `LruRuns.RunInv` | src/libdoh/src/globals.rs:130-180 | Over every run the order of the keys is the order of their last use, and each holds the value stored last |
| `LruRuns.GetReturnsLatest` | src/libdoh/src/globals.rs:130-138 | After any run a lookup returns the latest value stored under a held, unexpired key |
| `LruRuns.EvictsLeastRecentlyUsed` | src/libdoh/src/globals.rs:140-180 | After any run an insertion drops at most one key, only from a full cache, and it is the one used longest ago |
| `LruRuns.LookupElsewhere` | src/libdoh/src/globals.rs:130-138 | A lookup, a hit, a miss or an expiry, changes of no other key whether it is held, its entry or its place among the others |
| `LruRuns.HeldAfter` | src/libdoh/src/globals.rs:130-180 | Over every run a key leaves the cache if and only if it is removed, is looked up when expired, or is the one used longest ago when another key is stored in a full cache |
| `LruRuns.HeldWhileFewOthers` | src/libdoh/src/globals.rs:130-180 | A stored key stays, with its entry, while it is not removed or stored anew, is looked up in time only and fewer other keys than the cache holds are stored or looked up |
| `FastestPolicy.StoreFastestFailure` | src/libdoh/src/upstream/fastest_addr.rs:326-346 | A failure is stored only for a key that a lookup does not find |
| `FastestPolicy.StoreFastestSuccess` | src/libdoh/src/upstream/fastest_addr.rs:348-370 | A success replaces nothing, a failure or a slower success |
| `FastestPolicy.EntriesReflectPings` | src/libdoh/src/upstream/fastest_addr.rs:316-370 | Over every interleaving of stores and lookups on all keys an entry is Failure exactly when no success was stored since the key became resident, else it holds the least latency of those |
| `FastestPolicy.StoresUnderKey` | src/libdoh/src/upstream/fastest_addr.rs:316-370 | What each kind of store leaves under its key, status, latency and the ten minutes until it expires |
| `FastestPolicy.StoresElsewhere` | src/libdoh/src/upstream/fastest_addr.rs:316-370 | Any other entry stays as it is, and goes only as the least recently used of a cache full of others |
| `FastestPolicy.StoresInFront` | src/libdoh/src/upstream/fastest_addr.rs:316-370 | The key stored or found becomes the most recently used, the others keep their order |
| `FastestSelection.CollectIps` | src/libdoh/src/upstream/fastest_addr.rs:49-58 | The set of candidates is exactly the specified addresses in the answers of decodable replies |
| `FastestSelection.UnspecifiedAre` | src/libdoh/src/upstream/fastest_addr.rs:49-58 | The addresses left out are exactly 0.0.0.0 and :: |
| `FastestSelection.PingAll` | src/libdoh/src/upstream/fastest_addr.rs:204-274 | The two loops choose the best cached success, or the first ping to succeed unless the cache has a strictly faster one, whatever other tasks store or look up between the lookups |
| `FastestSelection.FastestIsBest` | src/libdoh/src/upstream/fastest_addr.rs:204-274 | The choice is an address asked about, no slower than any success a lookup found or the first ping; there is none exactly when both kinds are missing |
| `FastestSelection.ChoiceExplained` | src/libdoh/src/upstream/fastest_addr.rs:204-274 | Which one: the earliest of the fastest successes found when every lookup finds an entry, else the first successful ping unless a success found is strictly faster |
| `FastestSelection.FewAddresses` | src/libdoh/src/upstream/fastest_addr.rs:204-218 | Without an address there is no choice, and one address is chosen unasked |
| `FastestSelection.KnownIs` | src/libdoh/src/upstream/fastest_addr.rs:225-240 | Each lookup asks for its own address, after the lookups before it and all that other tasks did |
| `FastestSelection.PingDoTcp` | src/libdoh/src/upstream/fastest_addr.rs:276-314 | A result is stored under the IPv4 form of an IPv6 address that has one, and reported under the address itself |
| `FastestSelection.PingKeyOctets` | src/libdoh/src/upstream/fastest_addr.rs:299-308 | The key in octets: the last four of an IPv6 address that begins with ten zeros and then twice 0 or twice 255, else the address |
| `FastestSelection.PingRecorded` | src/libdoh/src/upstream/fastest_addr.rs:276-370 | After a successful ping its key holds a success no slower; after a failed one what was known, else a failure |
| `FastestSelection.PingFoundIff` | src/libdoh/src/upstream/fastest_addr.rs:276-314 | After any run of pings and lookups, a ping result is found under the address pinged if and only if that address has no IPv4 form |
| `FastestSelection.MappedNeverFound` | src/libdoh/src/upstream/fastest_addr.rs:299-308 | An address with an IPv4 form is never found, at any time after any run |
| `FastestSelection.ContainsIffListed` | src/libdoh/src/upstream/msg.rs:311-348 | Testing for an address and listing the addresses agree |
| `FastestSelection.AnswerWith` | src/libdoh/src/upstream/fastest_addr.rs:77-93 | The loop returns the first reply with the address, rewritten in place |
| `FastestSelection.AnswerCarriesFastest` | src/libdoh/src/upstream/fastest_addr.rs:49-93 | For any collected address a reply has it and its rewrite succeeds, so neither fallback is taken; the answer lists the addresses of that reply with all of that family replaced if and only if it still decodes, and so whenever no name of the reply reads an address that is replaced |
| `FastestSelection.AnswerOtherwise` | src/libdoh/src/upstream/fastest_addr.rs:77-93 | When no reply lists the address the first reply is the answer, unchanged |
| `RewriteWitness.PointerIntoDataRenames` | src/libdoh/src/upstream/msg.rs:403-469 | A reply with one question and an address of its own, which the program may choose: the second owner points into the first address; the rewrite and the TTL step succeed, and that owner has another name |
| `RewriteWitness.PointerIntoDataBreaks` | src/libdoh/src/upstream/fastest_addr.rs:49-93 | Another address of such a reply: the rewrite and the TTL step succeed, and the answer no longer decodes |
| `H3Pending.DohH3Pending.NewOutboundRequest` | src/libdoh/src/lib.rs:374-382 | The stream is recorded only for a request still waiting |
| `H3Pending.DohH3Pending.CompleteStream` | src/libdoh/src/lib.rs:467-484 | Both maps forget the stream and its request, whose sender is returned if there is one |
| `H3Pending.DohH3Pending.ClearRequest` | src/libdoh/src/lib.rs:461-465 | Neither map mentions the request any more; the rest stays |
| `H3Pending.DohH3Pending.FailAll` | src/libdoh/src/lib.rs:486-495 | Both maps are emptied and every waiting sender is returned |
| `H3Pending.StreamsInjective` | src/libdoh/src/lib.rs:231-235 | Over every interleaving the stream map is injective and its values are waiting requests |
| `H3Pending.DeliversOnce` | src/libdoh/src/lib.rs:467-495 | A request is told at most once, never after its guard is gone, and a completion reaches only the request its stream was opened for |
| `H3Pending.FailAllTellsEveryone` | src/libdoh/src/lib.rs:486-495 | A connection failure tells every waiting request and leaves both maps empty |
| `H3Pending.CompletionReaches` | src/libdoh/src/lib.rs:374-484 | Over every run, whatever happens to others: a request registered and then given a stream, with no cleanup and no connection failure since, is told exactly what the first completion of that stream brings |
| `H3Pending.FailureReaches` | src/libdoh/src/lib.rs:486-495 | Such a request without a stream is told of a connection failure |
| `H3Pending.OpenedFailureReaches` | src/libdoh/src/lib.rs:486-495 | And so is one whose stream is not completed yet |
| `H3Pending.FinishedLeavesNoTrace` | src/libdoh/src/lib.rs:244-277 | Once a guard is disarmed, its request having been told, or its cleanup has run, no later state of either map mentions the request |
| `H3Backoff.DohUpstream.RecordH3Failure` | src/libdoh/src/lib.rs:3175-3200 | The counter, its time and the backoff after one retryable failure; the result says whether backoff was armed |
| `H3Backoff.DohUpstream.SelectDohProtocol` | src/libdoh/src/lib.rs:1570-1600 | HTTP/2 during backoff or when the name does not resolve, else what the probes settle |
| `H3Backoff.DohUpstream.ProxyDoh` | src/libdoh/src/lib.rs:1339-1410 | The whole new state and the events of one request, for every outcome of probes, exchange and timeout |
| `H3Backoff.CounterIsChainModThree` | src/libdoh/src/lib.rs:3164-3200 | Over every run the counter is the length, modulo three, of the current chain of retryable failures, gaps at most 60 s, and the stored time is its last |
| `H3Backoff.ArmedExactlyAtEachThird` | src/libdoh/src/lib.rs:3175-3200 | Backoff is armed by exactly every third failure of a chain |
| `H3Backoff.NoPostDuringBackoff` | src/libdoh/src/lib.rs:1350-1391 | By neither the cached hint nor a probe does an HTTP/3 exchange start within 30 s of an arming, short of the end of the 64-bit clock |
| `H3Backoff.FinalFailurePins` | src/libdoh/src/lib.rs:1379-1386 | After a failure that is not retryable HTTP/3 is tried again only after a timeout |
| `H3Backoff.ExchangeStarts` | src/libdoh/src/lib.rs:1350-1391 | The next request does start an HTTP/3 exchange when the last thing learnt is a success, and when nothing is known, the probe finds HTTP/3 and every arming is thirty seconds ago; never without one of the two |
| `H3Backoff.TurnShape` | src/libdoh/src/lib.rs:1339-1410 | What each request does in turn: an HTTP/3 failure is followed by an HTTP/2 exchange, a timeout ends the request |
| `RebuildThrottle.GrantsAreSpaced` | src/libdoh/src/lib.rs:3123-3137 | Under any interleaving with stale clocks any two grants are recorded in order, 1000 ms apart for every grant between them |
| `RebuildThrottle.UndisturbedGranted` | src/libdoh/src/lib.rs:3123-3137 | A call nobody disturbs is granted if and only if nothing was granted yet or 1000 ms have passed since the last grant |
| `Admission.ClientsCount.Decrement` | src/libdoh/src/globals.rs:281-292 | Undisturbed, takes one off a positive count and leaves zero alone |
| `Admission.CounterIsHolders` | src/libdoh/src/lib.rs:2000-2028 | Under every interleaving of both accept paths the counter is the admitted clients plus the rejections not undone, and admitted clients stay within max_clients |
| `Admission.DecrementNeverMeetsZero` | src/libdoh/src/globals.rs:281-292 | Neither the load nor the exchange of a decrement ever meets zero |
| `Admission.ZeroAtQuiescence` | src/libdoh/src/tls.rs:113-133 | The counter is zero if and only if every connection is gone |
| `Admission.RejectedIffFull` | src/libdoh/src/tls.rs:113-118 | A connection is rejected if and only if admitted clients and pending rejections reach the limit |
| `Admission.SpuriousRejection` | src/libdoh/src/lib.rs:2004-2008 | So one can be rejected while nobody is served: a run with a limit of one |
| `Admission.ServedIff` | src/libdoh/src/tls.rs:113-133 | Over every run a connection is served if and only if it was let in without TLS or completed its handshake, and its service is not over |
| `Admission.TlsNeedsHandshake` | src/libdoh/src/tls.rs:113-133 | Nobody is served over TLS whose handshake was not completed |
| `LoadBalance.CalcWeights` | src/libdoh/src/upstream/load_balance.rs:76-94 | Every weight is positive: the inverse mean round trip, or one without measurements |
| `LoadBalance.WeightOfMean` | src/libdoh/src/upstream/load_balance.rs:76-94 | Weight times mean round trip is one for a measured upstream; any other weighs one |
| `LoadBalance.FasterWeighsMore` | src/libdoh/src/upstream/load_balance.rs:76-94 | Of two measured upstreams the faster on average weighs more |
| `LoadBalance.SampleWeightedIndex` | src/libdoh/src/upstream/load_balance.rs:96-122 | The two loops pick the first position whose interval of the weight line reaches the draw |
| `LoadBalance.PickedIffHit` | src/libdoh/src/upstream/load_balance.rs:96-122 | The pick is in range, and a position is picked if and only if the draw falls in its own interval, so in proportion to its weight |
| `LoadBalance.PickedIffDrawn` | src/libdoh/src/upstream/load_balance.rs:96-122 | In numbers: a position of positive weight is picked if and only if the draw times the total falls in the interval of that length behind the weights before it |
| `LoadBalance.TotalSums` | src/libdoh/src/upstream/load_balance.rs:96-104 | The total is the sum of the positive weights |
| `LoadBalance.PickedHasWeight` | src/libdoh/src/upstream/load_balance.rs:96-122 | The pick has positive weight whenever any remaining upstream has |
| `LoadBalance.OrderPermutes` | src/libdoh/src/upstream/load_balance.rs:32-40 | Whatever the draws, sampling and removal bring up every upstream exactly once |
| `LoadBalance.EachAttemptIsSampled` | src/libdoh/src/upstream/load_balance.rs:32-40 | Attempt k goes to the upstream that draw k picks among exactly those not tried before |
| `LoadBalance.ExchangeLoadBalance` | src/libdoh/src/upstream/load_balance.rs:10-74 | Error if and only if all fail; then the failures are in the order tried and the statistics in upstream order. Else it stops at the first success, having tried the sampled order up to it |
| `LoadBalance.AttemptsAreDistinct` | src/libdoh/src/upstream/load_balance.rs:32-67 | No upstream is tried twice, and a loop that runs out has tried a permutation of all |
| `HostNames.SplitJoins` | src/libdoh/src/lib.rs:2808-2815 | The labels of a host joined by dots are the host |
| `HostNames.SameTextIffSameName` | src/libdoh/src/lib.rs:2882-2882 | Names whose labels are not empty and hold no dot have equal text if and only if they have the same labels up to case |
| `HostNames.DottedLabelSameText` | src/libdoh/src/lib.rs:2882-2882 | A label that holds a dot reads like two labels, so two names have one text |
| `Bootstrap.BuildBootstrapDnsQuery` | src/libdoh/src/lib.rs:2796-2823 | Refused exactly when the trimmed host is empty or a label is empty, longer than 63 or holds a zero; else header, name, type and class |
| `Bootstrap.AcceptedHosts` | src/libdoh/src/lib.rs:2796-2815 | Accepted are exactly the hosts that, without the dots at their end, are labels of 1 to 63 octets without NUL joined by dots |
| `Bootstrap.QueryReadsBack` | src/libdoh/src/lib.rs:2796-2823 | For every accepted host the parser reads back the lower-cased trimmed host and a final dot, and lands on the type and class, four bytes before the end |
| `Bootstrap.ParseBootstrapDnsResponse` | src/libdoh/src/lib.rs:2825-2911 | The parsing loops equal the specified result, or fail with it |
| `Bootstrap.CollectsContributing` | src/libdoh/src/lib.rs:2862-2911 | The addresses are those of the answers with the text of the question name, class IN, the type asked and the right length, in order, and the TTL is their least |
| `Bootstrap.ContributingConcat` | src/libdoh/src/lib.rs:2862-2905 | Each answer contributes on its own, and in the order of the answers |
| `Bootstrap.AddressIsData` | src/libdoh/src/lib.rs:2882-2902 | The address of an answer is its data, 4 octets of type 1 or 16 of type 28, in class 1 under the question name |
| `Bootstrap.ReadersOfAddressesAgree` | src/libdoh/src/upstream/msg.rs:311-335 | The two readers of addresses in the program agree on every decoded record of class IN |
| `Bootstrap.OtherPacketsRefused` | src/libdoh/src/lib.rs:2825-2848 | A packet with another id, without the response bit or without a question is refused |
| `Bootstrap.ResponseAgreesWithUnpack` | src/libdoh/src/lib.rs:2825-2911 | On every response the message decoder accepts, this parser returns what the decoded message says |
| `Bootstrap.ContributesIffOwned` | src/libdoh/src/lib.rs:2882-2902 | Where no label holds a dot, an answer contributes if and only if it is owned by the question name, up to case, is class IN and is an address of the type asked; the names of every accepted response qualify, but for the dots (`AcceptedNamesOk`) |
| `JsonQuery.BuildDnsQuery` | src/libdoh/src/dns_json.rs:326-400 | The pushes and patched counts give exactly the specified packet, length octets taken modulo 256 |
| `JsonQuery.NonEmptyConcat` | src/libdoh/src/dns_json.rs:346-353 | The pieces that are not empty, each on its own and in their order |
| `JsonQuery.QueryText` | src/libdoh/src/dns_json.rs:346-353 | With no empty piece between its dots, the labels joined by dots are the name without the dots at its end |
| `JsonQuery.AskedInNumbers` | src/libdoh/src/dns_json.rs:326-400 | The message asked for in numbers: flags, type 1 by default, class 1, and an OPT of class 4096 with the DO bit and the /24 of the subnet, present if and only if either is wanted |
| `JsonQuery.BuiltUnpacksIff` | src/libdoh/src/dns_json.rs:326-400 | The packet unpacks to the message asked for if and only if its labels have 1 to 63 octets and its name at most 255 |
| `JsonQuery.SetEdnsSimple` | src/libdoh/src/dns.rs:187-218 | On a one-question packet the payload editor gives the packing of the same message with its OPT added or its class changed |
| `JsonQuery.AddEcsSimple` | src/libdoh/src/edns_ecs.rs:80-199 | On such a packet subnet insertion gives the packing of the message with one option 8, the one it had if it had one |
| `JsonQuery.PrepareQuery` | src/libdoh/src/lib.rs:1171-1193 | The two editors one after the other, their failures ignored, short packets refused |
| `JsonQuery.JsonQueryReachesUpstream` | src/libdoh/src/lib.rs:1171-1193 | What goes upstream unpacks to the same question, one OPT and one subnet option in it: the client's own when valid, else the one made from its address |
| `JsonQuery.UpstreamAsksForText` | src/libdoh/src/lib.rs:1171-1193 | What goes upstream asks for the dotted name given and the type given, with one OPT of class 4096 that holds the subnet of the query or else that of the client |

## Left out

- Names are byte sequences: lossy UTF-8 decoding, text rendering of record data, base64 and JSON output are not part of this model.
- `usize` arithmetic is unbounded here; the source's 64-bit offsets cannot wrap for packets that fit in memory. 16-bit, 32-bit and 64-bit fields, masks and truncations are explicit.
- Error values carry their kind and not their text, and the failure of `Vec` allocation is not modelled.
- Bit masks on length octets and flag words are written as comparisons and digits; `LengthByteMasks` relates the masks to the comparisons.
- JsonQuery.BuildDnsQuery: the subnet parameter arrives parsed (absent, not an address, an IPv4 address), because address parsing belongs to the standard library.
- RewriteRefinement.RewriteRefines: its hypothesis on read bytes, and that of RewriteRefinement.RewriteRefinesClear on the packet alone, are sufficient and not necessary, because a changed pointer may still reach an equal name; RewriteRefinement.RewriteRefinesIff gives the exact condition.
- EcsTheorems.EcsSplices: assumes a root-owned OPT with a well-formed option list, as the editor recognises no other OPT; what it does on every other packet is the specification that Ecs.AddEcsToPacket is proved equal to.
- FastestSelection.AnswerCarriesFastest: that no name reads a replaced address is sufficient and not necessary for the reply to decode; RewriteWitness.PointerIntoDataBreaks shows that it cannot be dropped.
- NameLimits.DataNameNeverReturns: the conversion of record data to text around the walk is not modelled.
- Layout theorems about the editors speak of packets with one question that walk to their last byte; on other packets the exact bytes and errors are stated, by the methods, and where the subnet editor reads past the packet, by EcsBounds.
- MessageEdits: that no name reads the field written is sufficient and not necessary, because a changed octet may still lead to an equal name.
- MessageEdits.EcsAddsOption: an OPT that is not last is covered by EcsTheorems.EcsSplices on spans only, because the names of the records behind it move while the pointers to them stay.
- H3Backoff.NoPostDuringBackoff: a reading at the very end of the 64-bit clock is excepted, because the source saturates there.
- H3Backoff.DohUpstream.ProxyDoh: one upstream that is not h3_only, its requests one after another; the retries inside one HTTP/3 exchange count as that exchange, and which errors are retryable is an input.
- Admission: the steps of a connection are atomic and all interleavings are covered, but memory orderings weaker than sequential consistency are not.
- H3Pending: request ids do not repeat and the transport opens at most one fresh stream for a request; sending on a dropped channel has no effect.
- RebuildThrottle.GrantsAreSpaced: clock readings are positive, because zero means "never" in the source.
- LoadBalance: weights are real numbers, so rounding and non-finite weights are left out; replies are taken after packet validation, and the update of the round-trip statistics by each attempt is not modelled.
- LoadBalance.ExchangeLoadBalance: addresses and durations in failures and statistics are reduced to the index of the upstream.
- FastestSelection.PingAll: lookups, stores and other tasks interleave as whole operations under the cache's mutex; which pings arrive before the wait ends is an input.
- FastestSelection.CollectIps: the arbitrary order of a hash set becomes the argument order of PingAll; the parallel exchange with all upstreams is an input.
- The 64-bit clock of the fastest-address cache is modelled with its saturating addition; its mutex makes every operation atomic.
- `Msg::qtype_from_packet`, the wire length of a message and the header readers that take one field are left out.
- `traverse_rrs` with a callback that only reads and `traverse_rrs_mut` share one walk; the callbacks are part of the methods that pass them.
- HTTP/1, HTTP/2 and HTTP/3 handlers, headers, content negotiation and cache-control strings, because they are glue over libraries.
- Sockets, TLS, QUIC, certificates, listeners, the supervisor loop and task scheduling.
- ODoH encryption and key rotation, CLI parsing, DNS stamps, URL handling, statistics display and the round robin of the connection pool.
- The bootstrap and response caches around the modelled parsers.
