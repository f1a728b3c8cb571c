# A verified model of the peer-to-peer node's discovery and retry engines

This project models, and proves properties of, the three parts of the node that keep state over an
unreliable world:

- **mDNS discovery on the wire** (`Bytes`, `Time`, `Names`, `Config`, `Multiaddrs`, `Dns`, `Messages`,
  `Query`, `Codec`, `RoundTrip`, `Spaces`, `Limits`). The encoder is written as the program writes it,
  with methods that push bytes into a growing vector and fill and clear a list of records, each proved
  against a function that says which bytes it produces. The receiver is the program's classifier, peer
  fold and extraction, on top of a small decoder for uncompressed DNS messages (sections 3.1, 3.3,
  3.3.12, 3.3.14 and 4.1.1 to 4.1.3 of RFC 1035) that stands for the DNS library. The main results say
  what a receiver makes of what a sender sent.
- **mDNS discovery as a protocol** (`Table`, `Iface`, `Discovery`, `Exchange`). A class with the
  behaviour's expiring table and event queue, a class with the prioritised poll loop of one interface
  task, and a transition system of any number of tasks, the channel, and the behaviour. The main results
  hold in every run, that is, for every interleaving and whatever the network, the sockets, the clock and
  the channel do.
- **Retries** (`Backoff`, `Gossip`, `Dht`, `DhtRuns`, `DhtRetries`). The exponential timer, the republishing queue of
  gossip messages, and the put and get queries and the bootstrap of the DHT, over backends that accept or
  refuse as they please.

Texts are kept as bytes, since every length the program takes is a byte length. Instants and durations
are nanoseconds. Classes hold the fields the program updates; each class has a `Model()`, its state as a
value, and its methods state the whole new `Model()`. Functions and lemmas about those values carry the
properties.

What the outside world contributes is a parameter: transaction ids, peer names, jitter, the clock, the
listen addresses, `address_translation` (an arbitrary partial function), and the outcomes of socket reads
and writes, channel sends and backend calls (one `Turn`, `Step` or backend answer at a time).

## What the code does that a reader may not expect

- A value with a space is quoted, but its length octet counts the unquoted value, and quotes are escaped
  but never unescaped. The receive buffer has 4096 bytes, and a packet that does not fit is lost whole.
  Through that buffer a response is learned exactly as sent if and only if nothing is sent, or no value has
  a space, every packet has at most 4096 bytes, and the service name has at most 253 bytes and nothing to
  escape (`Limits.ReceivedRoundTripExactly`; `Spaces.ResponseRoundTripExactly` is the part that concerns the
  bytes alone). Each condition can fail: `Spaces.SpacedAddress`, `Limits.PacketNotReceived`,
  `Config.LongName` and `Config.SpacedName` give the inputs.
- Received names are compared in a text form that escapes every byte but letters, digits, hyphens and
  underscores, with configured names that are not escaped. So a node recognizes a query for its own service
  if and only if its name fits the limit of names and has nothing to escape
  (`RoundTrip.OwnQuestionsAreRecognized`). With the configured name `a b` the encoder does not panic, and yet
  the node recognizes none of its own queries (`RoundTrip.SpacedNameIsNotRecognized`) and learns nothing from
  any packet (`RoundTrip.UnrecognizedIsIgnored`).
- One value with a space and nothing to escape costs the receiver all addresses of its packet
  (`Spaces.AllOrNothing`).
- A full packet whose values have 95 bytes or more never fits the receive buffer, while the comment on
  `MAX_TXT_VALUE_LENGTH` expects 170 to 190 (`Limits.FullPacketIsNotReceived`).
- `MAX_TXT_RECORD_SIZE` is documented as a conservative maximum. It is one only while the encoded peer
  name and the value together take at most 289 bytes (`Limits.RecordSize`), and without that a packet can
  be larger than `MAX_PACKET_SIZE` (`Limits.OversizedPacket`).
- A configured name makes the encoder panic unless it is empty or a valid name once an underscore is put
  before it, and the two derived names keep within the limit of names up to 223 bytes
  (`Config.ConfiguredNames`).
- The interface loop ends on a datagram it does not understand, with whatever is behind it unread
  (`Iface.PassEndsExactly`).
- The probe interval is compared with the query interval after doubling, but never doubled
  (`Iface.PassProbes`).
- The branch that puts an address back when a ready channel refuses it would keep the interface loop going
  round for as long as that lasts (`Iface.RefusingChannelSpins`). It is defensive only: the channel the
  program uses is not expected to refuse right after it was ready. But for that and for endless ticks and
  datagrams the loop ends (`Iface.InterfaceState.Poll`).
- The loop over postponed puts ends only once the backend has said yes as often as puts are postponed
  (`Dht.DrainNeedsYeses`). With a backend that always gives the same answer it ends if and only if nothing is
  postponed, or the answer is yes and no bootstrap is under way (`Dht.DrainEndsExactly`); during bootstrap it
  merely turns the queue round (`Dht.BootstrapRotates`).
- After a completed bootstrap, `begin_bootstrap` holds puts up again but no poll starts a bootstrap
  (`DhtRuns.FinishedForGood`). Failed bootstraps are retried after a flat second, because the timer is
  restarted as after a success (`DhtRuns.BootstrapRetryIsFlat`).
- A get is asked again after its last result even when records were found, until its retries are used up
  (`DhtRuns.GetBudget`), and the records counted so far are dropped. The
  queue of postponed gets is never filled (`DhtRuns.IdsWereOffered`).

## Model

| member | source | states |
|---|---|---|
| `Bytes.TakeU16OfU16` | src/behaviours/mdns_bhv/iface/dns.rs:265-269 | A big-endian 16-bit integer is read back from any longer buffer, leaving just the rest |
| `Bytes.TakeU32OfU32` | src/behaviours/mdns_bhv/iface/dns.rs:257-263 | The same for 32 bits |
| `Names.EncodedNameLength` | src/behaviours/mdns_bhv/iface/dns.rs:301-314 | An encoded name takes exactly two bytes more than its text, the fact behind both capacity assertions |
| `Names.DecodeOfEncodeName` | src/behaviours/mdns_bhv/iface/dns.rs:301-314 | Labels are recovered from any longer buffer, consuming just the name's bytes, if and only if the name has at most 253 bytes; a limit the encoder does not check |
| `Names.EncodeOfDecodeLabels` | src/behaviours/mdns_bhv/iface/dns.rs:301-314 | Conversely, whatever decodes is the encoding of the labels returned, all of them valid, followed by the unread bytes |
| `Names.RenderExactly` | src/behaviours/mdns_bhv/iface/query.rs:45 | Two names with the same text form are the same name, whatever has to be escaped in them |
| `Names.RenderOwn` | src/behaviours/mdns_bhv/iface/query.rs:45 | The text form of a name is the name and a final dot, as the FQDNs are spelled, if and only if it has nothing to escape |
| `Names.RenderOther` | src/behaviours/mdns_bhv/iface/query.rs:45 | A text without backslashes is the text form of a name if and only if it is that name, with nothing to escape |
| `Names.SameNameExactly` | src/behaviours/mdns_bhv/iface/query.rs:223 | Names are taken for the same, in the comparison that finds a peer's records, if and only if they differ in nothing but the case of letters |
| `Config.ServiceNamesAgree` | src/behaviours/mdns_bhv/config.rs:56-74 | For every configured name the two FQDNs are the two names and a final dot, and are never equal |
| `Config.ConfiguredNames` | src/behaviours/mdns_bhv/config.rs:56-74 | Exactly which configured names give names the encoder accepts, which give names with nothing to escape, and which keep both names within the limit of names |
| `Config.LongName` | src/behaviours/mdns_bhv/config.rs:56-74 | A configured name that is accepted, has nothing to escape, and is still too long for the limit of names |
| `Config.SpacedName` | src/behaviours/mdns_bhv/config.rs:56-74 | The configured name `a b` is accepted and within the limit, and has something to escape |
| `Multiaddrs.ParseOfPrint` | src/behaviours/mdns_bhv/iface/query.rs:247-250 | Every address, with or without a trailing peer id, is recovered from its printed text |
| `Multiaddrs.PrintOfParse` | src/behaviours/mdns_bhv/iface/query.rs:247-250 | Every text that parses is the printed form of what it parses to |
| `Multiaddrs.PrintWithPeer` | src/behaviours/mdns_bhv/iface/dns.rs:110 | Appending the peer id to the printed address is printing the address with that component pushed |
| `Dns.DurationToSecs` | src/behaviours/mdns_bhv/iface/dns.rs:249-255 | The least number of seconds not shorter than the duration, capped at the largest 32-bit value |
| `Dns.AppendU16` | src/behaviours/mdns_bhv/iface/dns.rs:265-269 | Appends the big-endian bytes and changes nothing before them |
| `Dns.AppendU32` | src/behaviours/mdns_bhv/iface/dns.rs:257-263 | Appends the big-endian bytes and changes nothing before them |
| `Dns.AppendQname` | src/behaviours/mdns_bhv/iface/dns.rs:301-314 | For every valid name appends the section 3.1 encoding that `Names.DecodeOfEncodeName` reads back |
| `Dns.PeerNameIsOneLabel` | src/behaviours/mdns_bhv/iface/dns.rs:281-291 | Every name the generator can draw is a valid single label, so its encoding never panics |
| `Dns.AppendCharacterString` | src/behaviours/mdns_bhv/iface/dns.rs:317-343 | Non-ASCII text is refused with the buffer untouched; text without spaces is appended as it is, other text quoted and escaped |
| `Dns.QuotedReadsBack` | src/behaviours/mdns_bhv/iface/dns.rs:322-341 | Whatever the text holds, a reader that takes what follows a backslash as it is finds the text between the quotes, and where it ends |
| `Dns.AppendTxtRecord` | src/behaviours/mdns_bhv/iface/dns.rs:346-374 | Fails, with which error, exactly on values over 255 bytes or not ASCII; otherwise appends the whole record. A refused value leaves the record's first part behind |
| `Dns.BuildQuery` | src/behaviours/mdns_bhv/iface/dns.rs:51-80 | The query packet, of exactly the capacity reserved for it |
| `Dns.BuildServiceDiscoveryResponse` | src/behaviours/mdns_bhv/iface/dns.rs:161-205 | The service discovery packet, of exactly the capacity reserved for it |
| `Dns.QueryResponsePacket` | src/behaviours/mdns_bhv/iface/dns.rs:208-247 | The packet of given records, whose count the header gives |
| `Dns.PackAddresses` | src/behaviours/mdns_bhv/iface/dns.rs:102-131 | Full packets hold 29 records each, fewer than 29 records stay open, and together they are the accepted addresses in order |
| `Dns.BuildQueryResponse` | src/behaviours/mdns_bhv/iface/dns.rs:85-158 | The packing loop yields one packet for each piece of 29 of the accepted addresses among the first 65535, and one empty packet for none |
| `Dns.ChunksCount` | src/behaviours/mdns_bhv/iface/dns.rs:121-155 | There are max(1, ceil(n / 29)) pieces |
| `Dns.ChunksSizes` | src/behaviours/mdns_bhv/iface/dns.rs:121-155 | All pieces but the last have 29 addresses, none has more, and only an empty response has an empty piece |
| `Dns.FlattenOfChunks` | src/behaviours/mdns_bhv/iface/dns.rs:109-143 | The pieces together are the accepted addresses, in order, none lost or repeated |
| `Messages.DecodeMessageBefore` | src/behaviours/mdns_bhv/iface/query.rs:32 | Bytes behind a message do not change how it is read |
| `Messages.NoPrefixDecodes` | src/behaviours/mdns_bhv/iface/query.rs:32 | No proper prefix of a message without trailing bytes decodes |
| `Codec.DecodeOfRecord` | src/behaviours/mdns_bhv/iface/dns.rs:346-374 | The decoder reads a written record back, or rejects it, by its name's length and its data |
| `Codec.DecodeManyOf` | src/behaviours/mdns_bhv/iface/query.rs:32 | Decoding concatenated items gives all their values in order, or nothing when one of them does not decode |
| `Codec.StringReadsBackExactly` | src/behaviours/mdns_bhv/iface/dns.rs:364-372 | A value's record holds just that value for the receiver if and only if the value has no space |
| `Codec.SpacedValueIsUnreadable` | src/behaviours/mdns_bhv/iface/dns.rs:322-341 | With a space and nothing to escape the record is not even well formed |
| `Query.FoldString` | src/behaviours/mdns_bhv/iface/query.rs:234-264 | One call of the stateful closure keeps the first peer id and the addresses announced for it, over all strings seen |
| `Query.NewPeer` | src/behaviours/mdns_bhv/iface/query.rs:217-272 | The traversal that sets the peer id as it goes gives the in-order sublist of valid addresses naming the first valid peer id, and none exactly when there is no valid string |
| `Query.UnquotedExactly` | src/behaviours/mdns_bhv/iface/dns.rs:32-49 | A string is unquoted to a text if and only if it is the text, not beginning with a quote, or the text between two quotes |
| `Query.PeerUnderExactly` | src/behaviours/mdns_bhv/iface/query.rs:217-272 | For every set of records, whoever wrote them: of all strings of TXT records under the name, in order, the first valid one says who the peer is, and every valid one that says the same adds its address |
| `Query.PeersExactly` | src/behaviours/mdns_bhv/iface/query.rs:135-154 | For every set of answers: one peer for each pointer from the service name under whose target there is one, in order, with that answer's time to live |
| `Query.ObservedText` | src/behaviours/mdns_bhv/iface/query.rs:181-187 | The observed address reads `/ip4/<ip>/udp/<port>`, or `/ip6/<ip>/udp/<port>`, of the datagram's source |
| `Query.ExtractedExactly` | src/behaviours/mdns_bhv/iface/query.rs:156-174 | From every response: for each peer but the local one, in order, its addresses as far as they can be translated to where the response comes from, valid for that peer's time to live from now |
| `Query.NeverExtractsSelf` | src/behaviours/mdns_bhv/iface/query.rs:156-174 | Nothing taken from any response concerns the local peer |
| `RoundTrip.DecodeOfSentRecord` | src/behaviours/mdns_bhv/iface/dns.rs:346-374 | A record is read back with the sender's name, class and time to live, or makes the packet malformed, by the readability of its value alone |
| `RoundTrip.DecodeOfPacket` | src/behaviours/mdns_bhv/iface/dns.rs:208-247 | A packet decodes, with nothing left over, to one answer and exactly its records if and only if the service name fits and every value is readable |
| `RoundTrip.CandidateOfValue` | src/behaviours/mdns_bhv/iface/query.rs:234-264 | The value sent for an address parses back to that address and the sender's peer id |
| `RoundTrip.CandidateExactly` | src/behaviours/mdns_bhv/iface/query.rs:234-264 | Of all strings just the value a sender writes for an address, bare or between quotes, is taken for that address of that peer |
| `RoundTrip.PeerOfPacket` | src/behaviours/mdns_bhv/iface/query.rs:217-272 | The records of a packet announce exactly the sender with the addresses in them, or no one when there are none |
| `RoundTrip.ReadPacket` | src/behaviours/mdns_bhv/iface/query.rs:26-40 | A packet without spaced values is classified as a response of the sender alone, with its time to live |
| `RoundTrip.ResponseRoundTrip` | src/behaviours/mdns_bhv/iface/query.rs:135-154 | End to end, for all ids, peers, addresses and times to live: every packet announces the sender alone, and the addresses learned, packet after packet, are the accepted ones among the first 65535, in order |
| `RoundTrip.SendableExactly` | src/behaviours/mdns_bhv/iface/dns.rs:85-131 | Of every address list a response sends just those among the first 65535 whose value is ASCII and has at most 255 bytes, in order |
| `RoundTrip.DecodeOfQuery` | src/behaviours/mdns_bhv/iface/dns.rs:51-80 | A built query decodes to its single question if and only if the name fits |
| `RoundTrip.AsksExactly` | src/behaviours/mdns_bhv/iface/query.rs:42-46 | Some question asks for a name's text form if and only if some question has exactly its labels |
| `RoundTrip.MessagesAreClassified` | src/behaviours/mdns_bhv/iface/query.rs:26-66 | Every message, however many questions it has, when the service's names have nothing to escape: without questions a response, of the peers of its answers; with one for the service a query, whatever else it asks for; else with one for the meta name a service discovery request; else nothing of ours |
| `RoundTrip.QuestionsAreClassified` | src/behaviours/mdns_bhv/iface/query.rs:42-66 | For every name asked for and every configuration: malformed beyond the limit of names, else a query, a service discovery request or nothing of ours, as its text form is the service's FQDN, the meta name's, or neither |
| `RoundTrip.PlainQuestionsAreClassified` | src/behaviours/mdns_bhv/iface/query.rs:42-66 | With derived names that have nothing to escape: a question for the service is a query, for the meta name a service discovery request, for any other name nothing of ours |
| `RoundTrip.OwnQuestionsAreRecognized` | src/behaviours/mdns_bhv/iface/query.rs:42-66 | A node recognizes its own query, and its own meta question, if and only if the name fits the limit of names and has nothing to escape |
| `RoundTrip.ConfiguredNamesRecognized` | src/behaviours/mdns_bhv/config.rs:56-74 | Of the configured names the encoder accepts, those within the limit give a service that recognizes its own questions if and only if they have nothing to escape |
| `RoundTrip.SpacedNameIsNotRecognized` | src/behaviours/mdns_bhv/config.rs:56-74 | With the configured name `a b` it recognizes none |
| `RoundTrip.UnrecognizedIsIgnored` | src/behaviours/mdns_bhv/iface/query.rs:139-142 | Nothing is learned from any packet of a service whose name is too long or has something to escape |
| `RoundTrip.DecodeOfServiceDiscovery` | src/behaviours/mdns_bhv/iface/dns.rs:161-205 | The answer to service discovery decodes, if and only if both names fit, to the one record that points from the meta name to the service, with the question's id and the configured time to live |
| `RoundTrip.ServiceDiscoveryAnnouncesNoOne` | src/behaviours/mdns_bhv/iface/query.rs:139-150 | The answer to service discovery is read as a response without peers |
| `Spaces.AllOrNothing` | src/behaviours/mdns_bhv/iface/dns.rs:322-341 | Parsing a packet yields all its addresses when none has a space and the service name comes back, and none of them when one has a space and nothing to escape, or the service name does not come back |
| `Spaces.SpacedAddress` | src/behaviours/mdns_bhv/iface/dns.rs:322-341 | For every sender with a peer id of ordinary length there is an address that is accepted and sent, and of which nothing is learned |
| `Spaces.CandidateText` | src/behaviours/mdns_bhv/iface/query.rs:236-263 | A string accepted by the receiver is, unquoted, exactly the value a sender writes for what was parsed from it |
| `Spaces.ShorterAddress` | src/behaviours/mdns_bhv/iface/dns.rs:364-372 | Whatever strings a value with a space falls apart into, only addresses shorter than its own can be learned from them |
| `Spaces.LearnedOnlyIf` | src/behaviours/mdns_bhv/iface/query.rs:217-272 | Whichever packets of an answer are lost: who still learns exactly the addresses sent has lost none with an address in it, and no value has a space |
| `Spaces.ResponseRoundTripExactly` | src/behaviours/mdns_bhv/iface/dns.rs:85-158 | For every sender and address list, parsing the whole packets yields the addresses sent if and only if there are none, or the service name fits and has nothing to escape and no value sent has a space |
| `Limits.RecordSize` | src/behaviours/mdns_bhv/iface/dns.rs:15-17 | The exact size of a record, and that it is at most `MAX_TXT_RECORD_SIZE` if and only if encoded peer name and value together take at most 289 bytes |
| `Limits.PacketSize` | src/behaviours/mdns_bhv/iface/dns.rs:208-247 | A packet has exactly 22 bytes, the two encoded names, and for each record the encoded peer name, 11 bytes and the value |
| `Limits.PacketWithinLimit` | src/behaviours/mdns_bhv/iface/dns.rs:19-26 | If records keep within their limit and the encoded names take at most 210 bytes, a packet keeps within the RFC 6762 limit |
| `Limits.FullPacketExceedsLimit` | src/behaviours/mdns_bhv/iface/dns.rs:19-26 | Under the longest peer name, 29 values of the greatest accepted length exceed the maximum packet size |
| `Limits.OversizedPacket` | src/behaviours/mdns_bhv/iface/dns.rs:85-158 | For every such sender there are addresses for which the program does build and send such a packet |
| `Limits.ReceivedExactlyWhenItFits` | src/behaviours/mdns_bhv/iface.rs:232-241 | After the receive buffer a readable packet decodes if and only if it has at most 4096 bytes |
| `Limits.LearnedThroughBuffer` | src/behaviours/mdns_bhv/iface.rs:232-241 | Whatever its values hold, a packet that fits the buffer is learned from as if parsed whole, and one that does not fit not at all |
| `Limits.ReceivedRoundTripExactly` | src/behaviours/mdns_bhv/iface.rs:232-280 | For every sender and address list, a receiver with that buffer learns exactly the addresses sent, in order, if and only if there are none, or the service name fits and has nothing to escape, no value sent has a space, and every packet fits the buffer |
| `Limits.FullPacketIsNotReceived` | src/behaviours/mdns_bhv/iface.rs:55-61 | Nothing is learned from a full packet whose values have 95 bytes or more |
| `Limits.PacketNotReceived` | src/behaviours/mdns_bhv/iface.rs:55-61 | For every sender with a peer id of ordinary length there are addresses without spaces that are all sent and of which none is learned |
| `Table.LookupOfAbsorb` | src/behaviours/mdns_bhv.rs:181-191 | On the pairs, taking in an announcement is a map update with the later expiration |
| `Table.LookupOfUnexpired` | src/behaviours/mdns_bhv.rs:202-210 | On the pairs, a sweep removes exactly those whose expiration is not after the clock |
| `Table.SweepSplits` | src/behaviours/mdns_bhv.rs:202-210 | A sweep keeps the entries that expire later and gives up the pairs of the others, both in table order |
| `Table.TableHoldsSurvivors` | src/behaviours/mdns_bhv.rs:178-210 | After any history a pair is in the table exactly when some announcement of it outlasted every later sweep, with the latest expiration of those that did |
| `Table.EarliestIsMinimum` | src/behaviours/mdns_bhv.rs:208 | The running minimum the sweep keeps is the earliest expiration and belongs to an entry |
| `Table.PollLeavesFuture` | src/behaviours/mdns_bhv.rs:199-220 | After a poll every entry is later than the clock, and when there is one the timer sits at the exact minimum; without one the timer is left alone |
| `Table.NewPairsExactly` | src/behaviours/mdns_bhv.rs:178-197 | A Discovered lists just the announced pairs that had no entry, each once |
| `Table.NewPairsInOrder` | src/behaviours/mdns_bhv.rs:178-197 | And in the order in which they were announced |
| `Table.QueuedIsAdded` | src/behaviours/mdns_bhv.rs:194-214 | A poll adds a Discovered if and only if some announced pair had no entry, then an Expired if and only if some entry was past its expiration once the announcements were absorbed, and never an empty event |
| `Table.PollHandsOutOldest` | src/behaviours/mdns_bhv.rs:221-224 | From any state a poll hands out nothing if and only if nothing was queued and it adds nothing, and otherwise the oldest, keeping the others in order |
| `Table.Behaviour.AbsorbOne` | src/behaviours/mdns_bhv.rs:181-191 | Extends the entry of the pair in place or appends one, and says which |
| `Table.Behaviour.Retain` | src/behaviours/mdns_bhv.rs:202-210 | Keeps the unexpired entries in order, and gives the expired pairs in order and the earliest expiration kept |
| `Table.Behaviour.Poll` | src/behaviours/mdns_bhv.rs:176-224 | The whole new state of a poll; it hands out the oldest of the events queued and those it adds, a Discovered just when an announced pair had no entry and an Expired just when the sweep removed one, and nothing when there is none |
| `Table.Behaviour.HandlePendingOutboundConnection` | src/behaviours/mdns_bhv.rs:88-108 | The addresses offered for a peer are those of its entries, in table order |
| `Table.OfferedInOrder` | src/behaviours/mdns_bhv.rs:100-107 | The addresses offered for a peer are those of its entries, in table order |
| `Table.OfferedOnce` | src/behaviours/mdns_bhv.rs:100-107 | In a table without duplicate pairs each is offered once |
| `Table.OfferedAddressesSurvive` | src/behaviours/mdns_bhv.rs:88-108 | Those are exactly the addresses some announcement of which outlasted every sweep since |
| `Table.PairsAlternate` | src/behaviours/mdns_bhv.rs:178-214 | Over any history each pair appears, disappears, appears, and so on, and is in the table exactly when it appeared last |
| `Table.TableIsReplayed` | src/behaviours/mdns_bhv.rs:178-214 | Replaying the appearances and disappearances of any history gives the pairs of the table, in the order of their last appearance |
| `Table.PollsFollowSteps` | src/behaviours/mdns_bhv.rs:176-223 | Over any polls the table is the one the single steps leave, and the events handed out followed by those queued carry the steps' appearances and disappearances, in order |
| `Table.EventsInOrder` | src/behaviours/mdns_bhv.rs:194-223 | Over any polls the events handed out, at most one a poll, followed by those queued, are the polls' events whole and in order: of each poll a Discovered of the announced pairs without an entry if there is one, then an Expired of the pairs swept if there is one; none of them empty |
| `Table.NextPollHandsOut` | src/behaviours/mdns_bhv.rs:176-224 | After any polls the next one hands out the oldest event not yet handed out, and nothing if and only if none is queued, every announced pair has an entry and no entry is past its expiration; no event, handed out or queued, is ever empty |
| `Table.EventsTellTable` | src/behaviours/mdns_bhv.rs:176-224 | After any polls, replaying the events handed out and then those queued gives the pairs of the table, in table order |
| `Table.EventsAlternate` | src/behaviours/mdns_bhv.rs:194-223 | Over any polls each pair's events alternate beginning with Discovered, and the table is exactly the pairs whose last event is Discovered |
| `Table.PolledTableHoldsSurvivors` | src/behaviours/mdns_bhv.rs:178-210 | After any polls no pair has two entries, and each entry is the latest surviving announcement |
| `Table.ReceivedStaysOffered` | src/behaviours/mdns_bhv.rs:88-108 | After any polls, an address received in one of them is offered for its peer through all later polls before its expiration |
| `Iface.PassConserves` | src/behaviours/mdns_bhv/iface.rs:173-309 | In a pass, what waited followed by what came is what went out followed by what waits, for packets and for addresses; an address is lost only when the interface task ends |
| `Iface.PassQueues` | src/behaviours/mdns_bhv/iface.rs:173-306 | What a pass queues is the query of its tick, if there is one, and then, if and only if it gets as far as reading, the whole answer to what it reads; what it takes from a datagram goes behind the addresses that wait |
| `Iface.HeardQueryIsAnswered` | src/behaviours/mdns_bhv/iface.rs:243-262 | A pass that hears a query leaves in the send buffer what waited and then every packet of the listen addresses, under the query's id and with the configured time to live |
| `Iface.HeardMetaQuestionIsAnswered` | src/behaviours/mdns_bhv/iface.rs:281-295 | A pass that hears a meta question leaves what waited and then the one packet that names the service |
| `Iface.PassMakesProgress` | src/behaviours/mdns_bhv/iface.rs:173-309 | Without new input the loop goes round again only with less in its buffers |
| `Iface.PassPriorities` | src/behaviours/mdns_bhv/iface.rs:174-231 | A tick is served first; nothing is delivered or read while a packet can be sent, and nothing is read while an address can be delivered; of what is delivered one goes out when the channel accepts it and one is lost when it is gone |
| `Iface.PassNeverFindsSelf` | src/behaviours/mdns_bhv/iface.rs:263-279 | Whatever is received, the local peer is never queued nor delivered |
| `Iface.PassProbes` | src/behaviours/mdns_bhv/iface.rs:183-191 | There are only two probe states, the timer runs on the current one's interval, and probing ends, for good, if and only if a tick comes when twice the probe interval reaches the query interval, or a response is read that leaves an address to deliver |
| `Iface.PassEndsExactly` | src/behaviours/mdns_bhv/iface.rs:194-308 | A pass ends the loop to wait if and only if nothing can be sent, nothing can be delivered, and nothing it understands can be read; it ends the task if and only if the channel is gone; and what it leaves waiting could not go anywhere |
| `Iface.BuffersEmpty` | src/behaviours/mdns_bhv/iface.rs:194-229 | While no tick comes and socket and channel oblige, all that waits has been sent and delivered, in order, after as many passes as there was to hand out, whatever datagrams have come |
| `Iface.PassesConserve` | src/behaviours/mdns_bhv/iface.rs:173-309 | Over any number of passes packets and addresses leave in the order they came, none lost or doubled |
| `Iface.PassesProbe` | src/behaviours/mdns_bhv/iface.rs:136-191 | Over any number of passes a new task probes on the probe interval until the first pass that ends probing, and asks at the query interval from then on |
| `Iface.RefusingChannelSpins` | src/behaviours/mdns_bhv/iface.rs:214-229 | With an address waiting, a channel that is ready and then full keeps the loop running through every number of passes |
| `Iface.InterfaceState.constructor` | src/behaviours/mdns_bhv/iface.rs:136-152 | A new task probes on the probe interval with empty buffers |
| `Iface.InterfaceState.ResetTimer` | src/behaviours/mdns_bhv/iface.rs:155-159 | The timer runs on the interval of the probe state |
| `Iface.InterfaceState.Tick` | src/behaviours/mdns_bhv/iface.rs:175-192 | A tick queues one query behind what waits and settles the probe state |
| `Iface.InterfaceState.Answer` | src/behaviours/mdns_bhv/iface.rs:232-306 | The whole new state and whether the loop goes on for each kind of datagram; the packets queued are all of the answer, the addresses queued all that are taken |
| `Iface.InterfaceState.Once` | src/behaviours/mdns_bhv/iface.rs:173-309 | One pass in the priority order, query, send, deliver, receive, with its whole new state; what was sent and what waits is what waited, the query of the tick, and the whole answer to what was read |
| `Iface.InterfaceState.PollAtMost` | src/behaviours/mdns_bhv/iface.rs:169-310 | In any world, the loop watched for a number of passes: it stops early only by waiting or ending the task, never goes on after that, and sends and delivers what its passes do |
| `Iface.InterfaceState.Poll` | src/behaviours/mdns_bhv/iface.rs:169-310 | If after some pass nothing new comes, the loop ends; every pass but the last goes round again, and what was sent and delivered is what those passes sent and delivered |
| `Discovery.EveryRunDelivers` | src/behaviours/mdns_bhv/iface.rs:214-229 | In every run of any number of tasks, what a live task extracted is what the behaviour absorbed from it, then what is in the channel, then what it holds, in order; of a finished or aborted task, what got through is a prefix |
| `Discovery.FoundIsOffered` | src/behaviours/mdns_bhv.rs:176-192 | In every run, what a task found in a pass is offered for dialing once all the task had extracted by then has been absorbed, and through every poll before its expiration |
| `Discovery.EveryRunKeepsOneTaskEach` | src/behaviours/mdns_bhv.rs:139-174 | In every run each address in the map of interface tasks has its own task, not aborted, and every other interface task has been aborted |
| `Discovery.TasksFollowInterfaces` | src/behaviours/mdns_bhv.rs:139-174 | In every run an address has a task if and only if it has come up, not loopback, of the configured family and with its sockets opened, and not gone down since |
| `Discovery.EveryTaskKeepsItsSettings` | src/behaviours/mdns_bhv/iface.rs:125-152 | In every run each task works on the node's configuration, with the jitter drawn when its address came up, and is in one of the two probe states these give |
| `Discovery.TasksStayAlive` | src/behaviours/mdns_bhv/iface.rs:216-221 | In every run, as long as the channel is there, a task ends only when it was told to |
| `Discovery.RunTable` | src/behaviours/mdns_bhv.rs:137-223 | Whatever tasks and interfaces do in between, the table and events of a run are those of its polls |
| `Discovery.EveryRunAlternates` | src/behaviours/mdns_bhv.rs:176-223 | In every run of the whole protocol, events alternate for each pair and its entry is the latest surviving announcement |
| `Discovery.NeverDiscoversSelf` | src/behaviours/mdns_bhv/iface/query.rs:156-174 | In every run, whatever arrives, the local peer is in no task's queue, the channel, the table or any event |
| `Exchange.QueryIsHeardExactly` | src/behaviours/mdns_bhv/iface.rs:232-243 | Through the receive buffer, a query for its service is heard as one if and only if the service name fits the limit of names and has nothing to escape |
| `Exchange.QueryIsAnswered` | src/behaviours/mdns_bhv/iface.rs:232-262 | A pass that reads a query for the node's service, when the name comes back, leaves in the send buffer what waited and then all packets of its listen addresses, and learns nothing from it |
| `Exchange.AnswerIsSent` | src/behaviours/mdns_bhv/iface.rs:194-262 | With a socket that takes packets and nothing else to do, what the task then sends is what waited and the whole answer |
| `Exchange.AnswerReachesAsker` | src/behaviours/mdns_bhv/iface.rs:243-280 | From each datagram of what the answering node's pass leaves to be sent, read at its own time, the asker takes its piece of the addresses sent, translated to the ip and UDP port that datagram comes from, in order and valid for the sender's time to live; from its own answer, nothing |
| `Exchange.AnswerTakenExactly` | src/behaviours/mdns_bhv/iface.rs:232-280 | Between two peers of any one service, the query is heard and all that was sent is taken from what the answering pass leaves to be sent, whatever the translation is, if and only if the service name fits and has nothing to escape, no value sent has a space, and every packet of the answer fits the receive buffer |
| `Exchange.AnswerPieceArrives` | src/behaviours/mdns_bhv/iface.rs:232-280 | Each packet that the answering pass leaves to be sent gets through by itself when it fits the buffer and no value of its piece has a space |
| `Exchange.AskerCanDial` | src/behaviours/mdns_bhv.rs:88-108 | From the poll that receives them, and through any later polls before the time to live runs out, the asker offers each address of a packet that gets through, whatever its table held before and whatever became of the other packets |
| `Exchange.AnswerIsOfferedInRun` | src/behaviours/mdns_bhv.rs:137-192 | The same in every run of the whole protocol, through the task's queue and the channel: once what the task had extracted by then has been absorbed |
| `Backoff.ExponentialBackoff.constructor` | src/utils.rs:82-89 | The first timeout is the given one times the factor, while a reset goes back to the given one |
| `Backoff.ExponentialBackoff.Default` | src/utils.rs:117-126 | Half a second, factor two, not started |
| `Backoff.ExponentialBackoff.Reset` | src/utils.rs:92-94 | Goes back to the reset value |
| `Backoff.ExponentialBackoff.StartNext` | src/utils.rs:96-106 | Restarts from the reset value after a success, from the product after a failure unless it overflows |
| `Backoff.ExponentialBackoff.IsExpired` | src/utils.rs:108-114 | Expired if never started or strictly more than the timeout has passed |
| `Backoff.FailuresMultiply` | src/utils.rs:96-106 | After any number of failures the timeout is the first one times a power of the factor, and the power is short of the failures only when the next product would not fit |
| `Backoff.DefaultTimeout` | src/utils.rs:96-126 | From the default timer, k failures give 500 ms times 2^min(k, 64) |
| `Backoff.TimeoutByFailures` | src/utils.rs:96-126 | After any uses of the default timer its timeout is 500 ms times 2^min(k, 64), for the k failures since the last success, and it runs since the last use |
| `Backoff.SuccessForgets` | src/utils.rs:97-99 | A success wipes out everything before it |
| `Backoff.FailuresSpreadOut` | src/utils.rs:96-114 | If all but perhaps the last of two or more uses of a fresh default timer fail, the last is later than the first by more than the sum of all timeouts between |
| `Backoff.LeastSpanIs` | src/utils.rs:101-103 | That sum is 500 * (2^n - 2) ms for n uses up to 65, and grows by a constant from there on |
| `Gossip.Behaviour.constructor` | src/behaviours/gossip_bhv.rs:30-44 | Starts with nothing queued and the default timer |
| `Gossip.Behaviour.Publish` | src/behaviours/gossip_bhv.rs:53-62 | A refused message goes to the back of the queue, if republishing is enabled |
| `Gossip.DrainSplits` | src/behaviours/gossip_bhv.rs:86-99 | A drain is decided by the first refusal: what is before it was taken, and the queue left is the untried suffix followed by the refused message |
| `Gossip.DrainOffers` | src/behaviours/gossip_bhv.rs:86-99 | What a drain takes is the queue up to the first refusal, which goes to the back, and it succeeds if and only if the backend takes every message |
| `Gossip.Behaviour.DrainPublish` | src/behaviours/gossip_bhv.rs:86-99 | The pop and push loop does that, and says whether all were taken |
| `Gossip.Behaviour.Poll` | src/behaviours/gossip_bhv.rs:197-200 | The whole new state; with republishing and the timeout passed since the last start, or without a start, it offers the queue from its front and restarts the timer, and otherwise it changes nothing |
| `Gossip.MessagesAreConserved` | src/behaviours/gossip_bhv.rs:53-99 | In every run with republishing, the messages published are, as a multiset, those the backend took and those queued |
| `Gossip.RefusedIsDropped` | src/behaviours/gossip_bhv.rs:58-60 | Without republishing nothing is ever queued and refused messages are gone |
| `Gossip.UntriedMovesUp` | src/behaviours/gossip_bhv.rs:86-99 | A message not yet offered is still in the queue and has moved up a place or more with every drain |
| `Gossip.OfferedInTurn` | src/behaviours/gossip_bhv.rs:86-99 | The message at position i is offered within the next i + 1 drains, whatever the backend answers and whatever is published meanwhile |
| `Gossip.TimerFollowsDrains` | src/behaviours/gossip_bhv.rs:197-200 | In every run the timer has seen exactly the drains, each of which waited for it |
| `Gossip.PollOffersExactly` | src/behaviours/gossip_bhv.rs:197-200 | In every run with republishing and at every moment: a poll offers the queue from its front and restarts the timer if and only if no poll has offered yet, or more than 500 ms times 2^min(k, 64) have passed since the last that did, k of them having failed since the last success; otherwise it takes nothing and changes nothing |
| `Gossip.NoPollOffers` | src/behaviours/gossip_bhv.rs:197-200 | In every run without republishing no poll offers anything or touches the timer |
| `Gossip.FailingDrainsSpreadOut` | src/behaviours/gossip_bhv.rs:197-200 | In every run, n consecutive drains that start afresh and fail, all but perhaps the last, take more than 500 * (2^n - 2) ms (up to 65; beyond, the saturated sum) |
| `Dht.Behaviour.constructor` | src/behaviours/dht_bhv.rs:70-92 | Starts with nothing open, and a bootstrap timer of one second doubled to two |
| `Dht.Behaviour.DrainAtMost` | src/behaviours/dht_bhv.rs:402-408 | In any world, the loop watched for a number of turns: it stops early only with the queue empty, and never goes on with it empty |
| `Dht.Behaviour.DrainQueuedPuts` | src/behaviours/dht_bhv.rs:402-408 | With nothing postponed, or outside bootstrap with a clock that goes on and a backend that takes everything from some turn on, the loop ends, with the first turn that leaves the queue empty |
| `Dht.DrainAccounts` | src/behaviours/dht_bhv.rs:402-408 | Through any number of turns a postponed put is taken by the backend once or still postponed once; during bootstrap none is taken |
| `Dht.BootstrapNeverEnds` | src/behaviours/dht_bhv.rs:140 | During bootstrap the queue is empty after any number of turns if and only if it was empty before |
| `Dht.BootstrapRotates` | src/behaviours/dht_bhv.rs:140 | During bootstrap any number of turns leaves the queue rotated and everything else as it was |
| `Dht.DrainEndsWhenAccepted` | src/behaviours/dht_bhv.rs:402-408 | From a turn at which all timers have run out, with a yes every time, each put is taken in its turn |
| `Dht.DrainNeedsYeses` | src/behaviours/dht_bhv.rs:402-408 | The loop has not ended before the backend has said yes as often as puts were postponed |
| `Dht.DrainEndsOnceTaken` | src/behaviours/dht_bhv.rs:402-408 | Outside bootstrap, with a clock that goes on, a backend that takes everything from some turn on ends the loop |
| `Dht.DrainEndsFrom` | src/behaviours/dht_bhv.rs:402-408 | Once the backend gives always the same answer, the loop ends if and only if it has ended by then, or it is outside bootstrap and the answer is yes |
| `Dht.DrainEndsExactly` | src/behaviours/dht_bhv.rs:402-408 | With a backend that always gives the same answer and a clock that goes on, the loop ends if and only if nothing is postponed, or it is outside bootstrap and the answer is yes |
| `DhtRuns.IdsWereOffered` | src/behaviours/dht_bhv.rs:395-401 | In every run ids in progress were given out by the backend, and no get is ever postponed |
| `DhtRuns.PutOpens` | src/behaviours/dht_bhv.rs:121-143 | Whatever the backend answers and whether or not a bootstrap is under way, a put given to it is in progress or postponed afterwards, once |
| `DhtRuns.FinishedCloses` | src/behaviours/dht_bhv.rs:145-152 | A result takes just its own put out of those in progress: into the successes, or back among the postponed |
| `DhtRuns.TurnKeepsOpen` | src/behaviours/dht_bhv.rs:402-408 | A turn of the loop over postponed puts loses and repeats none |
| `DhtRuns.PutsAreConserved` | src/behaviours/dht_bhv.rs:121-152 | In every run with fresh ids, the puts given are, as a multiset, those in progress, those postponed and those that succeeded |
| `DhtRuns.AskedBalances` | src/behaviours/dht_bhv.rs:154-174 | A new get opens a call that has one query in progress, for its key and with its timer, and the rest of its retries left, or none of either |
| `DhtRuns.ProgressBalances` | src/behaviours/dht_bhv.rs:176-205 | A result keeps the balance of queries issued and retries left of its own call, and touches no other call |
| `DhtRuns.GetBudget` | src/behaviours/dht_bhv.rs:154-205 | In every run with fresh ids, a get with n retries has at most one query in progress, which asks for the call's key with the call's timer, and at most n issued: exactly n less those left while one is in progress, and exactly n once none is, whatever was found |
| `DhtRuns.GetsKeepTheirKey` | src/behaviours/dht_bhv.rs:154-205 | In every run with fresh ids, each query in progress was issued for one of the run's calls and has that call's key and timer, however often it was asked again |
| `DhtRuns.RecordsAreCounted` | src/behaviours/dht_bhv.rs:176-205 | In every run with fresh ids, a query in progress has counted each value as often as it was found under its id and no others; what earlier queries of the call found is dropped |
| `DhtRuns.AllGetsAddUp` | src/behaviours/dht_bhv.rs:154-205 | In every run with fresh ids, the queries issued for all gets and the retries left to those in progress are together exactly the retries requested |
| `DhtRuns.BootstrapHoldsUp` | src/behaviours/dht_bhv.rs:245-260 | In every run puts are held up if and only if some begin has not been followed by a completed bootstrap |
| `DhtRuns.CompletionsAreReported` | src/behaviours/dht_bhv.rs:245-260 | In every run one event is queued for each completed bootstrap and none for anything else |
| `DhtRuns.NoPutWhileHeldUp` | src/behaviours/dht_bhv.rs:121-143 | From a begin until a bootstrap completes, no put joins those in progress or takes the place of one |
| `DhtRetries.StepTracks` | src/behaviours/dht_bhv.rs:121-152 | A put can be followed through every step: postponed, in progress or finished, with its timer restarted just when it was refused or failed |
| `DhtRetries.HandedWhenExpired` | src/behaviours/dht_bhv.rs:402-408 | In every run a put is handed to the backend again only when its own timer, restarted at each of its refusals and at nothing else, has run out |
| `DhtRetries.RetriesSpreadOut` | src/behaviours/dht_bhv.rs:402-408 | In every run a put that started with the default timer is handed over again, after its n-th refusal, only when more than 500 * 2^min(n, 64) ms have passed |
| `DhtRetries.JustGiven` | src/behaviours/dht_bhv.rs:121-143 | Where a put given with the default timer is, and what its timer has seen, for every answer of the backend and during bootstrap |
| `DhtRuns.AskedOnce` | src/behaviours/dht_bhv.rs:367-375 | After a poll that started a bootstrap no later poll asks for another, unless one fails |
| `DhtRuns.FinishedForGood` | src/behaviours/dht_bhv.rs:367-385 | After a completed bootstrap, another begin holds puts up, and as long as no bootstrap fails no poll at any time asks the backend for one |
| `DhtRuns.BootstrapRetryIsFlat` | src/behaviours/dht_bhv.rs:262-276 | In every run an attempt waits only for more than one second since the last failure, however many there were |
| `DhtRuns.PollAsksExactly` | src/behaviours/dht_bhv.rs:367-385 | In every run and at every moment, a poll asks the backend if and only if, by the history alone, a bootstrap was begun and has not completed, each one started or completed was followed by a failure, and the last failure is over a second ago |

## Left out

- The DNS library's parser: name compression, record types other than PTR and TXT, and EDNS. The model's decoder reads what the program's encoder can write.
- The text forms the DNS library has for labels that begin with a hyphen, an asterisk or `xn--`: the model escapes as section 5.1 of RFC 1035 does and translates nothing, and the exact results on recognition ask for service names without such labels.
- The multiaddress library: peer ids are their base58 texts, and addresses a small grammar of protocols with one value, with none, or with a peer id; values are any text without a slash.
- `generate_peer_name`, transaction ids and timer jitter: random draws are arbitrary values of their ranges.
- `src/behaviours/mdns_bhv/socket.rs` and `src/behaviours/mdns_bhv/timer.rs`, and the sockets opened by `InterfaceState::new`: only their outcomes are modelled.
- Clocks: every reading is an arbitrary instant; results that need an order derive it from the timers.
- The channel's capacity: whether it is ready and whether it accepts are arbitrary each time, which includes every bounded channel.
- A poll of the mDNS behaviour empties the channel and reads the clock as one step; tasks take their steps before or after it.
- The wakers of the timer at the earliest expiration: the model keeps when it is set to fire.
- `libp2p`'s gossipsub and Kademlia: each call is accepted, refused or given a fresh query id arbitrarily.
- Gossip subscriptions and received messages, `lookup_peer`, closest-peer queries, the disabled random walk, boot nodes and their re-adding, and the emission of the DHT's own event: they add only easy facts.
- Iteration of the DHT's drain loops within one poll is not forced: runs interleave single turns with all other steps, which includes the program's order.
- Dht.Behaviour.DrainQueuedPuts: requires a world in which the loop has to end, since the program's loop need not; Dht.Behaviour.DrainAtMost watches it in any world, and the lemmas beside it say when it ends.
- Dht.DrainEndsExactly: supposes a backend that always gives the same answer, since for changing answers whether the loop ends depends on which puts they meet; Dht.DrainNeedsYeses and Dht.DrainEndsOnceTaken hold for any.
- The methods of the DHT behaviour that handle one event are proved against functions of the same name or kind and have no rows of their own; what those functions do to every run is in DhtRuns.
- Iface.InterfaceState.Poll: has a precondition that new input eventually stops, since the program's loop runs as long as input keeps coming; Iface.InterfaceState.PollAtMost watches it in any world.
- Backoff.ExponentialBackoff.constructor: requires the product to fit, where the program panics.
- Dns.AppendQname: requires a valid name, where the program panics; in debug builds it also panics on names that are not ASCII, which the model does not tell apart.
- `src/behaviours/rendezvous_bhv.rs`, `src/node.rs`, `src/commands.rs`, `src/config.rs`, `src/constants.rs`, the delegated network behaviour methods, `SubscribableMutex` and the channels of `src/utils.rs`.
