# Uqda Core: a model and its proofs

Uqda Core is a node of an encrypted IPv6 mesh network. Every node is known by an
Ed25519 key; its IPv6 address and its /64 subnet are computed from the key. Nodes
peer over links they dial or accept, and open each link with a signed handshake.
A key store maps the addresses in IPv6 packets back to the keys the routing layer
wants, and nodes can ask each other for debug information.

This project models the parts of the node where several pieces of state have to
agree, and proves what they promise for every input, every run or every reachable
state. `dafny verify dfyconfig.toml` checks all of it.

## What is modelled

| files | what |
|---|---|
| `Bits`, `Address`, `AddressLaws` | the address scheme bit by bit (`src/address/address.go`): the encoder and decoder loops on arrays, the partial inverse, and the lookup transform |
| `KeyOrder`, `Brute` | the key generators: the order of keys against the order of addresses (`cmd/genkeys/main.go`), and the C search with its bounded best list and byte-shift encoder (`contrib/uqda-brute-simple`) |
| `Constants`, `Octets`, `Crypto`, `Hello`, `HelloCode`, `HelloLaws` | the hello message (`src/core/version.go`): its meaning as functions, `encode` and `decode` as methods on a struct and a reader, and the laws of the format |
| `Handshake`, `Agreement`, `Completion`, `Meeting` | the handshake in `handler` (`src/core/link.go`): the sequential handler, a world of many sessions with an adversary who owns the wire and all dishonest keys, and two honest ends as step machines over buffered byte channels; runs that show both are about something |
| `Routing`, `KeyStore` | the key store (`src/ipv6rwc/ipv6rwc.go`): a state machine with its laws, and the five maps, timers and packet filters as a class that refines it |
| `Dialling`, `Links` | the dial loop with its backoff, and the table of dialled links (`src/core/link.go`) |
| `Requests`, `Packing` | request tables and replies (`src/core/proto.go`, `src/core/nodeinfo.go`, `Core.MTU`) |

## How it is modelled

- **Cryptography is ideal.** A digest is the pair of password and data, so hashing
  is injective. A ledger records who signed what under which 64 bytes;
  verification is membership, and no signature stands for two digests of one key.
  Whoever shows a TLS certificate holds its key, so behind an honest key's
  certificate there is a session of that key, and what arrives is what it sent.
  Passwords above 64 bytes fail, as BLAKE2b keys do. Nonces and signatures are
  parameters; honest nodes never draw the same nonce twice.
- **Concurrency is a state machine.** What holds a mutex or runs inside an actor
  is one step; runs are all sequences of enabled steps. A timer that was stopped
  may fire all the same, because its callback may already be waiting; the key
  store tells armed timers from such late ones. Calls of `WriteTo` made just after the mutex is released
  belong to the step. Objects the source compares by pointer carry the number of
  their allocation.
- **Bytes come in two types.** The address scheme works on bits and uses `bv8`;
  message formats move whole bytes and use numbers below 256.
- **Widths are written out** where they matter: the count byte of an address, the
  16-bit length of a hello, the 64-bit shift of a duration and the 64-bit MTU.

## What came out differently from what one might expect

- A key of 256 zero bits counts round to 0. It beats every key in the generator's
  order and has the lowest address of all (`ZeroKeyLowestAddress`); for all other
  keys order is kept (`OrderKeptExactly`).
- A comment inside the encoder speaks of a 7-bit count; the code uses a whole byte,
  and the model follows the code.
- `make_addr` reads past its 64-byte hash exactly if the hash starts with more
  than 398 ones (`ReadsInBoundsExactly`). With more than 255 ones the count wraps.
- For keys with more than 143 leading zeros the shift form and the bit-serial
  form agree exactly if the bits the serial form drops are zeros
  (`ShiftFormRefinesSerial`).
- A transcript signature as the very first field closes nothing, since copying an
  empty slice gives nil; the decoder then reads on. Coverage still holds
  (`SignatureCoversEverything`).
- Two keys that share an address or subnet can strand a packet: it waits although
  one of them is live, and reporting that key again does not release it
  (`StrandedPacket` gives two such keys). A set of keys is served on every run exactly if no two share either
  (`ServedExactlyIfDistinct`).
- A removed link can still come up, depending on its transport
  (`RemovedPeerMayComeUp`): over SOCKS, whose dialer ignores its context, if it is
  removed between its check and the entry of its connection; over TCP, TLS, UNIX
  and QUIC only between the end of the dial and that entry; over WebSocket, whose
  connections end with their context, never. Such a link stays up until its
  connection ends or the peer is removed once more (`SecondRemovalCloses`), and
  until its loop has ended the peer cannot be added again (`AnswersTellLoops`).
- Agreement holds for connections if and only if a secure handshake is required or
  the link runs over TLS: otherwise a legacy signature that a key once made
  connects whoever replays it (`PartneredExactlyIfSecure`). QUIC and secure
  WebSocket links count as plain here, as the check of the certificate passes them by.
- Replies are capped at 65536 bytes even on wider connections, so the packed list
  is the longest that fits the connection exactly if that cap does not bite
  (`LongestUnlessCapped`). On a connection of fewer than three bytes no reply fits
  (`MessageFits`).

## Model

| member | source | states |
|---|---|---|
| `Address.CountByteValue` | src/address/address.go:69-76 | counting up once for every leading zero gives that number, except that 256 zeros give 0 |
| `Address.Invert` | src/address/address.go:61-65 | every bit of the copied key is flipped, in place |
| `Address.CountAndPack` | src/address/address.go:66-88 | the loop counts the leading zeros of the key (ones of its inverse), drops the bit that ends them, and packs exactly floor((255-n)/8) whole bytes of the bits after it |
| `Address.AddrForKey` | src/address/address.go:51-94 | for every 32-byte key, prefix 2, the count byte and the next 112 inverted bits, zero where the packed bytes run out; nothing for a key of another length |
| `Address.SubnetForKey` | src/address/address.go:101-114 | the first eight bytes of the address with the lowest prefix bit set; nothing for a key of another length |
| `Address.OrInto` | src/address/address.go:119-137 | setting one bit of the key under construction changes that bit only |
| `Address.CopyPayload` | src/address/address.go:125-137 | every payload bit that fits lands below the count and the zero after it, the others are skipped |
| `Address.GetKey` | src/address/address.go:118-142 | the recovered key is, inverted, the counted ones, a zero, the payload bits and zeros |
| `Address.SubnetGetKey` | src/address/address.go:146-150 | a subnet recovers the key of the address that continues it with zeros |
| `AddressLaws.RecoveredKey` | src/address/address.go:51-142 | for every non-zero key with n leading zeros, the key recovered from its address equals it on the first n+1+min(112, 8*floor((255-n)/8)) bits and is all ones after |
| `AddressLaws.AddressRoundTrip` | src/address/address.go:51-142 | encoding the key recovered from an address gives it back if and only if its prefix is valid and the bits no key can encode are zero |
| `AddressLaws.ShortCountsAreClear` | src/address/address.go:51-142 | every address with a count of at most 143 meets that condition |
| `AddressLaws.AddressStable` | src/address/address.go:51-142 | for every key, zeros included, the address survives recovery and re-encoding |
| `AddressLaws.XformKeepsSubnet` | src/core/core.go:95-97 | the lookup transform keeps the subnet of every key |
| `AddressLaws.LookupTransform` | src/core/core.go:95-101 | the transform is idempotent; keys recovered from an address or subnet transform as the full key does; two keys transform alike if and only if their subnets are equal |
| `KeyOrder.IsBetter` | cmd/genkeys/main.go:61-71 | the loop decides the lexicographic order, the new key being the smaller |
| `KeyOrder.BetterKeyHigherAddress` | cmd/genkeys/main.go:61-71 | a smaller non-zero key has an address at least as high, and the same one if and only if both keys agree on every bit an address holds |
| `KeyOrder.ZeroKeyLowestAddress` | cmd/genkeys/main.go:61-71 | the zero key is smaller than every other and its address is at most theirs, equal exactly for keys with a leading one and no payload |
| `KeyOrder.OrderKeptExactly` | cmd/genkeys/main.go:61-71 | for every two keys, the smaller one has an address not below the other if and only if it is not zero or both addresses are the lowest |
| `KeyOrder.TrackBest` | cmd/genkeys/main.go:42-58 | after any list of keys the loop holds the smallest; if that is not zero, no key of the list has a higher address |
| `Brute.CountOnes` | contrib/uqda-brute-simple/util.c:38-50 | the nested scan counts the leading ones of the hash |
| `Brute.ReadsInBoundsExactly` | contrib/uqda-brute-simple/util.c:55-61 | all bytes read by the 14 copies lie inside the hash if and only if there are at most 398 ones |
| `Brute.JoinAt` | contrib/uqda-brute-simple/util.c:57-58 | two shifted bytes joined are the eight hash bits from an offset, for every offset |
| `Brute.MakeAddr` | contrib/uqda-brute-simple/util.c:30-62 | prefix 2, the count modulo 256 and the 112 bits after the first zero; bytes after the 16th are untouched |
| `Brute.ShiftFormRefinesSerial` | contrib/uqda-brute-simple/util.c:30-62 | on an inverted key the byte-shift form gives the same address as the bit-serial encoder if and only if the bits the latter drops are zeros, and always up to 143 leading zeros |
| `Brute.MemcmpPositive` | contrib/uqda-brute-simple/util.c:3-12 | the comparison is the lexicographic order |
| `Brute.FindWhere` | contrib/uqda-brute-simple/util.c:3-12 | the last row of the leading run of smaller hashes, or -1 |
| `Brute.Insert` | contrib/uqda-brute-simple/util.c:14-28 | in place, rows up to the place move down by one, the first falls out, and the item takes the place; later rows stay |
| `Brute.InsertedIsPermutation` | contrib/uqda-brute-simple/util.c:14-28 | an insertion trades exactly the first row for the new one |
| `Brute.ConsiderKeepsBest` | contrib/uqda-brute-simple/util.c:3-28 | one candidate keeps the list sorted and the best of everything offered |
| `Brute.Consider` | contrib/uqda-brute-simple/uqda-brute-multi-curve25519.c:78-83 | a candidate enters all three lists at one place, so they stay aligned, sorted and best |
| `Brute.Search` | contrib/uqda-brute-simple/uqda-brute-multi-curve25519.c:62-87 | after any candidates the three lists are aligned and ascending, and are the best of as many zeros and all candidates, as a multiset |
| `Hello.PrintSizes` | src/core/version.go:76-129 | a current hello is always the same size, its signed part followed by one signature field and the trailing signature |
| `HelloCode.Reader.ReadFull` | src/core/version.go:132-150 | all bytes asked for, or an error that tells an empty stream from a short one and leaves nothing |
| `HelloCode.VersionMetadata.Encode` | src/core/version.go:76-129 | the receiver gains nonce, capability bit, both signatures and the bytes it sends; a password over 64 bytes fails after nonce and capability are set |
| `HelloCode.VersionMetadata.Decode` | src/core/version.go:132-243 | error, every field of the receiver (partial results on failure included) and the bytes left are those of the functional meaning |
| `HelloCode.VersionMetadata.StoreField` | src/core/version.go:166-209 | one field changes what its number says, or fails exactly on a wrong length and changes nothing |
| `HelloCode.VersionMetadata.DecodeFields` | src/core/version.go:156-215 | the field loop stores, closes and fails exactly as its functional meaning does |
| `HelloLaws.ParsePrinted` | src/core/version.go:156-215 | the loop runs through every printed list of well-sized, well-placed fields and stores each of them |
| `HelloLaws.PrintedParse` | src/core/version.go:156-215 | whatever the loop runs through is such a list |
| `HelloLaws.AcceptedFields` | src/core/version.go:156-215 | the loop succeeds if and only if the bytes are such a list |
| `HelloLaws.StoreAllLast` | src/core/version.go:156-215 | each decoded value is the last of its kind, or zero |
| `HelloLaws.DecodeAccepts` | src/core/version.go:132-243 | an accepted message carries its own length, consumes exactly itself, and its fields and signatures were checked |
| `HelloLaws.DecodeExactly` | src/core/version.go:132-243 | decode accepts an input if and only if it is a framed list of well-sized, well-placed fields with anything after it, in which there is a key, its signature over itself stands at the end and, if confirmation is offered, the last of at least two fields is its signature over all before it |
| `HelloLaws.SignatureCoversEverything` | src/core/version.go:151-243 | for every byte stream: an accepted hello that offers confirmation is signed fields and one final signature field, the signature verifies over exactly those bytes, and every decoded value comes from inside them |
| `HelloLaws.HelloRoundTrip` | src/core/version.go:76-243 | decode of encode, with anything after it, restores every field and the wire and succeeds if and only if the passwords are equal; otherwise it fails with the matching error |
| `HelloLaws.OldNodeReadsNewHello` | src/core/version_test.go:306-359 | a 0.5 parser, which skips the new fields, recovers version and key of every new hello, and the priority if it reads that field, if and only if password and version match |
| `HelloLaws.NewNodeReadsOldHello` | src/core/version.go:132-243 | a hello without the new fields is accepted if and only if the passwords are equal, with version, key and priority restored and no confirmation offered |
| `Handshake.ReadConfirmation` | src/core/version.go:305-324 | reads exactly the confirmation bytes and accepts exactly a signature of the peer over both hellos |
| `Handshake.ConfirmationExactly` | src/core/version.go:305-324 | a confirmation is accepted if and only if there are 68 bytes, the right mark, and the peer's signature over both hellos |
| `Handshake.ConfirmationPossible` | src/core/version.go:270-303 | once both hellos are there, building the confirmation cannot fail |
| `Handshake.Converse` | src/core/link.go:667-731 | verdict, bytes written, bytes left unread and whether the connection is closed are those of the sequential meaning, for every input and every failing write |
| `Handshake.Handler` | src/core/link.go:648-752 | the whole handler up to the hand-over, a failing deadline or write at any of its places included; nothing is written if the password is too long |
| `Handshake.ConnectedExactly` | src/core/link.go:648-752 | the handler connects to a key with a priority if and only if: the hello decodes, to that key, not its own, and version 0.5; it offers confirmation with a nonce that is not zero and a confirmation follows, or offers none and none is required; TLS, if any, shows exactly that key; it is pinned or nothing is; the link is local or dialled, or the allow list is empty or holds the key; and the priority is the greater of the two |
| `Handshake.HandlerExactly` | src/core/link.go:667-699 | what it writes and reads on for, and that it has met itself exactly if a good hello has its own key |
| `Handshake.FaultsOnlyRefuse` | src/core/link.go:656-708 | whatever fails below, a connection comes about if and only if it would without failure and nothing on its way fails, and is then the same; what is written is a beginning of what would be; the handler closes the connection itself exactly after a bad hello |
| `Handshake.PassGate` | src/core/link.go:703-731 | transport identity, then clearing the deadline, then pins, then the allow list for accepted connections: the first that fails decides |
| `Handshake.Connection.Write` | src/core/link.go:659-665 | all of the bytes, or on a fault so many of them and a failure |
| `Agreement.UniqueSplit` | src/core/version.go:270-292 | two self-delimiting messages in a row can be cut in one way only |
| `Agreement.TranscriptsAgree` | src/core/version.go:270-292 | equal transcripts of parties that name each other mean each received exactly what the other sent |
| `Agreement.DomainsApart` | src/core/version.go:245-292 | a confirmation can be mistaken neither for a hello signature nor for a legacy one |
| `Agreement.StepKeepsInv` | src/core/link.go:648-752 | every step of any session, and everything an adversary can sign, keeps the invariant on ledger and sessions |
| `Agreement.RunKeepsInv` | src/core/link.go:648-752 | and so does every run |
| `Agreement.AcceptedHasPartner` | src/core/link.go:683-699 | a session that accepts an honest key has a session of that key with exactly mirrored hellos |
| `Agreement.PartnersUnique` | src/core/link.go:683-699 | partners are one to one and agree on the link priority |
| `Agreement.AgreementOnEveryRun` | src/core/version.go:270-324 | on every run against every adversary: an accepted confirmation of an honest key comes from exactly one session of it, which sent exactly the hello received here and received exactly the hello sent here, serves no other session, and has the same priority |
| `Agreement.SecureConnectionsAgree` | src/core/link.go:683-731 | on every run against every adversary: a node that requires a secure handshake, or runs over TLS, and is connected to an honest peer has its one partner there |
| `Agreement.CertifiedHelloOffers` | src/core/tls.go:34-57 | behind an honest key's certificate, whatever decodes as a hello is a hello some session of that key sent, and offers confirmation |
| `Agreement.UnconfirmedByHandler` | src/core/link.go:700-731 | a peer taken without confirmation is one the handler connects to, or refuses only at its gate |
| `Completion.FragmentationIrrelevant` | src/core/link.go:648-752 | against every peer and for every way its bytes are cut, the step machine ends as the sequential handler does, having read and written the same |
| `Completion.HonestReads` | src/core/version.go:132-150 | an honest peer's hello and confirmation are accepted |
| `Completion.StepKeepsInv` | src/core/link.go:648-752 | every step of either end keeps track of exactly what was sent and consumed |
| `Completion.StepUsesWork` | src/core/link.go:648-752 | every handshake step uses up work; traffic after the handshake uses none |
| `Completion.EndCanMove` | src/core/link.go:648-752 | while an end is not done there is a step that can be taken |
| `Completion.HandshakeCompletes` | src/core/link.go:648-752 | two honest current nodes with one password, in every interleaving and fragmentation: no deadlock, at most 610 handshake steps, each end consumes exactly the other's hello and confirmation and nothing after, reaches the verdict of the gate, and both hand over the same priority |
| `Completion.EveryRunCanFinish` | src/core/link.go:648-752 | every run of two honest ends can be carried on until both are done |
| `Completion.HonestPairsExist` | src/core/link.go:648-699 | for all settings with different keys and one password, and all nonces and distinct signatures, there is such a pair, so the above is about something |
| `Meeting.HelloNoted` | src/core/link.go:663-697 | an honest hello reaching a session with another key and the same password is noted and confirmed |
| `Meeting.TwoSessionsMeet` | src/core/link.go:648-699 | for all such settings, unless a node is shown its own key's certificate, there is a run of the adversarial world in which two honest sessions accept each other |
| `Meeting.AcceptedByHandler` | src/core/link.go:667-731 | a session that took a hello and, with a ledger grown meanwhile, a confirmation did what the handler does on the two in a row |
| `Meeting.OldHelloTaken` | src/core/link.go:667-702 | a session that does not require a secure handshake takes an old hello under any legacy signature of a key for that key |
| `Meeting.PartneredExactlyIfSecure` | src/core/link.go:700-705 | for all settings and every peer that passes the gate: in every world and on every run a connection to that honest peer has its one partner, if and only if a secure handshake is required or the link runs over TLS; otherwise a replayed legacy signature connects |
| `Routing.StepKeepsIndex` | src/ipv6rwc/ipv6rwc.go:77-183 | every send, update and timer keeps each index entry live under its own key, and never an entry beside a waiting packet |
| `Routing.StepKeepsBooks` | src/ipv6rwc/ipv6rwc.go:77-183 | every step keeps each packet in exactly one place |
| `Routing.IndexOnEveryRun` | src/ipv6rwc/ipv6rwc.go:77-183 | on every run each address or subnet entry leads to a live key that derives it |
| `Routing.SendToKnown` | src/ipv6rwc/ipv6rwc.go:79-82 | on every run a packet for an indexed destination is sent at once, to the live key that derives it, whose timer starts anew; nothing else changes |
| `Routing.SendToUnknown` | src/ipv6rwc/ipv6rwc.go:84-100 | on every run a packet for any other destination is the one that waits there from now on, under a timer started anew or for a new buffer; one that waited is superseded; nothing else changes |
| `Routing.PathToKnown` | src/ipv6rwc/ipv6rwc.go:141-158 | on every run a path to a known key starts its timer anew and changes nothing else |
| `Routing.PathToUnknown` | src/ipv6rwc/ipv6rwc.go:141-162 | on every run a path to any other key makes it known under its own address and subnet, as a new object, and sends it what waits for the address and then for the subnet; nothing else changes |
| `Routing.KeyTimerTakesItsKey` | src/ipv6rwc/ipv6rwc.go:170-182 | on every run a key's timer, in time or late, takes exactly the entries that are still that very object, and no packet |
| `Routing.BufferTimerTakesItsBuffer` | src/ipv6rwc/ipv6rwc.go:94-100 | on every run a buffer's timer, in time or late, takes that very buffer, whose packet expires, or nothing |
| `Routing.ConservationOnEveryRun` | src/ipv6rwc/ipv6rwc.go:77-164 | on every run each accepted packet either waits at its destination or has exactly one fate: sent to a key that derives its destination, superseded by a later packet to it, or expired |
| `Routing.FatesAreCaused` | src/ipv6rwc/ipv6rwc.go:77-183 | on every run each fate has its event: a packet is sent as it comes in or when a path to the key is found later, superseded when the later one comes in, and expires only if a timer of its destination's buffer runs after it came in |
| `Routing.DistinctKeysFlushed` | src/ipv6rwc/ipv6rwc.go:135-164 | if the keys seen share no address or subnet, the three maps stay in bijection and an update leaves nothing waiting for its key, all of it having been sent |
| `Routing.SharedDestinationStrands` | src/ipv6rwc/ipv6rwc.go:135-183 | with a shared destination, a run after which a packet waits for a live key and a further update does not send it |
| `Routing.SharedAddress` | src/address/address.go:51-94 | two different keys, given byte by byte, with one address |
| `Routing.StrandedPacket` | src/ipv6rwc/ipv6rwc.go:77-183 | with these two keys, a run that strands a packet |
| `Routing.ServedExactlyIfDistinct` | src/ipv6rwc/ipv6rwc.go:77-183 | a set of keys is served on every run if and only if no two share an address or a subnet |
| `Routing.NothingStays` | src/ipv6rwc/ipv6rwc.go:77-183 | on every run everything known and everything waiting has exactly one armed timer, so once every armed timer has run nothing is known and nothing waits, whatever stopped ones do |
| `Routing.ArmedTimersSuffice` | src/ipv6rwc/ipv6rwc.go:77-183 | and from every run that comes about when each armed timer fires once |
| `KeyStore.EndToEnd` | src/ipv6rwc/ipv6rwc.go:228-314 | a packet one node lets out to a key is returned by that key's node byte for byte, if it fits its MTU |
| `KeyStore.RouteExactly` | src/ipv6rwc/ipv6rwc.go:283-314 | what writePC decides, told from the bytes: a route exactly for IPv6 packets of at least 40 bytes from the node's address or subnet to an address (first byte 2) or subnet (first byte 3), and otherwise which refusal |
| `KeyStore.EveryPacketFindsItsWay` | src/ipv6rwc/ipv6rwc.go:228-314 | every IPv6 packet from one node's address or subnet to another's is routed to a destination of that node and returned by it byte for byte, if it fits its MTU |
| `KeyStore.ReadExactly` | src/ipv6rwc/ipv6rwc.go:232-279 | what readPC makes of a delivery, told from the bytes: returned, its sender noted, answered as too big, or dropped, each exactly when |
| `KeyStore.FirstThatPasses` | src/ipv6rwc/ipv6rwc.go:228-281 | readPC returns the first delivery that passes under the MTU then in force, with all before it taken into account and nothing after it, and fails only if none does |
| `KeyStore.LookupFindsKey` | src/ipv6rwc/ipv6rwc.go:102-131 | a send to a destination that is not indexed makes exactly one lookup, and its transform is that of every key the destination belongs to; no other send makes any |
| `KeyStore.EveryPacketSentIsReadable` | src/ipv6rwc/ipv6rwc.go:228-314 | on every run of a store fed by writePC, every packet sent to a key is returned by that key's readPC |
| `KeyStore.ReadPromises` | src/ipv6rwc/ipv6rwc.go:228-281 | whatever readPC returns, and whatever others do between deliveries, is IPv6, has a header, fits the MTU then in force, is addressed to this node and comes from an address of the key that sent it |
| `KeyStore.KeyStore.constructor` | src/ipv6rwc/ipv6rwc.go:58-75 | a new store is the empty machine, with MTU 1280 |
| `KeyStore.KeyStore.SendToAddress` | src/ipv6rwc/ipv6rwc.go:77-104 | the five maps after the call stand for the machine after a send; the core is handed the packet exactly if the address is indexed, and else asked to look it up |
| `KeyStore.KeyStore.SendToSubnet` | src/ipv6rwc/ipv6rwc.go:106-133 | the same for subnets |
| `KeyStore.KeyStore.PassToKnown` | src/ipv6rwc/ipv6rwc.go:79-82 | a packet for a known key restarts its timer and is handed to the core for that key |
| `KeyStore.KeyStore.HoldForAddress` | src/ipv6rwc/ipv6rwc.go:84-100 | a packet replaces the one that waits or gets a new buffer, and a timer starts for that buffer |
| `KeyStore.KeyStore.HoldForSubnet` | src/ipv6rwc/ipv6rwc.go:113-129 | the same for subnets |
| `KeyStore.KeyStore.Update` | src/ipv6rwc/ipv6rwc.go:135-164 | the maps stand for the machine after an update of the key, the core is handed exactly what waited for a new one, and the key's entry is returned |
| `KeyStore.KeyStore.Enter` | src/ipv6rwc/ipv6rwc.go:141-148 | a new key is entered in all three maps under its own address and subnet |
| `KeyStore.KeyStore.HandOverWaiting` | src/ipv6rwc/ipv6rwc.go:149-162 | what waits at the address and then at the subnet is handed over and no longer waits |
| `KeyStore.KeyStore.InfoTimerFired` | src/ipv6rwc/ipv6rwc.go:166-183 | the maps stand for the machine after this key's timer |
| `KeyStore.KeyStore.Forget` | src/ipv6rwc/ipv6rwc.go:173-181 | each map loses its entry only if it is still this very object |
| `KeyStore.KeyStore.BufferTimerFired` | src/ipv6rwc/ipv6rwc.go:94-129 | the maps stand for the machine after this buffer's timer, which takes the buffer only if it is still this one |
| `KeyStore.KeyStore.WritePC` | src/ipv6rwc/ipv6rwc.go:283-314 | the packet is accepted, dropped or refused for the reasons given; only an accepted one changes anything, and is handed over or looked up as its destination is indexed or not |
| `KeyStore.KeyStore.ReadPC` | src/ipv6rwc/ipv6rwc.go:228-281 | skips deliveries until one passes, with every effect and lookup the skipped ones have, whatever writes, paths, timers and MTU changes come between, and returns it cut to the caller's room |
| `KeyStore.KeyStore.Disturb` | src/ipv6rwc/ipv6rwc.go:77-183 | a write, a path, a timer in time or late, or a new MTU, between two deliveries |
| `KeyStore.KeyStore.ReadDelivery` | src/ipv6rwc/ipv6rwc.go:232-277 | one delivery: dropped, answered as too big, or noted and passed |
| `KeyStore.Clamped` | src/ipv6rwc/ipv6rwc.go:322-333 | the wish if it lies between 1280 and what the core carries, else the nearer bound, 1280 winning |
| `KeyStore.KeyStore.SetMTU` | src/ipv6rwc/ipv6rwc.go:322-333 | sets the clamped wish |
| `Dialling.ShiftFits` | src/core/link.go:290-290 | shifting a second keeps its value in 64 bits if and only if by at most 33 places |
| `Dialling.WaitsGrow` | src/core/link.go:282-295 | waits never shrink as failures go on, never pass the limit, and are constant from the 32nd |
| `Dialling.DelayIsWait` | src/core/link.go:282-295 | the wait computed from the counter is the lesser of the limit and 2^i seconds after the i-th failure in a row |
| `Dialling.StepKeeps` | src/core/link.go:282-426 | every step of a loop keeps its invariant |
| `Dialling.Lifecycle` | src/core/link.go:318-426 | on every run an ephemeral link is dialled at most once, no loop is left undialled unless cancelled, a persistent loop is left only after a cancellation, and no connection is entered over another |
| `Dialling.BackoffOnEveryRun` | src/core/link.go:274-312 | on every run the counter stays in -1..32, the shift does not overflow, waits since the last success never shrink nor pass the limit, and are given exactly |
| `Dialling.BackoffFollowsRun` | src/core/link.go:274-312 | on every run of a persistent link, told from its events alone: as many waits as failures since the last completed handshake; unless it met itself since, the counter is that number capped at 32 and the last wait 2^f seconds within the limit; an established link has counter 0 |
| `Dialling.SelfEndsOnlyBySuccess` | src/core/link.go:392-395 | the counter becomes -1 exactly when the peer is the node itself, leaves -1 only by a completed handshake, and meanwhile no timer but only a kick or a cancellation ends a wait |
| `Dialling.NewLinkCanComeUp` | src/core/link.go:318-426 | a new link of any kind has a run on which it comes up |
| `Dialling.CancelledLoopEnds` | src/core/link.go:318-426 | after its cancellation a loop takes at most nine steps, and starts a dial only if it was already past its check, and then one |
| `Dialling.CancelledLoopCanMove` | src/core/link.go:318-426 | until it is gone a cancelled loop has a step to take |
| `Dialling.RemovedLinkMayComeUp` | src/core/link.go:431-456 | remove cancels and closes the connection that is entered; after it the link can still be up, established and not closed, if and only if its loop had a connection not yet entered that outlives its context, or could still get one from a dialer that does not heed its context |
| `Dialling.ClosedHandlerStops` | src/core/link.go:656-752 | on a closed connection the handler can only stop, unless it is past its last use that a closed connection fails, when it may still report success |
| `Dialling.Dialer.NextWait` | src/core/link.go:282-295 | the counter is bumped below 32 unless negative, and the wait is capped, or without a timer |
| `Dialling.Dialer.Interrupt` | src/core/link.go:133-144 | the node's stop cancels, its shutdown closes an entered connection, a removal does both; a WebSocket connection ends with its context |
| `Dialling.Dialer.Await` | src/core/link.go:296-305 | the select: again after a kick or the timer, out after a cancellation |
| `Dialling.Dialer.AfterFailure` | src/core/link.go:342-363 | after a failed dial or a dead connection a persistent link backs off and any other ends |
| `Dialling.Dialer.Handle` | src/core/link.go:390-424 | the handler up to its last use of the connection: meeting oneself sets -1, a closed connection fails |
| `Dialling.Dialer.Admit` | src/core/link.go:709-749 | the rest of the handler up to success, which resets the counter, or a refusal |
| `Dialling.Dialer.StayUp` | src/core/link.go:390-424 | the connection for as long as it lasts; its end clears it |
| `Dialling.Dialer.Dialled` | src/core/link.go:337-371 | from the dialer on: a failure backs off, a connection is entered and handled; a dialer that heeds its context fails once that is cancelled |
| `Dialling.Dialer.EnterAndHandle` | src/core/link.go:369-392 | a connection is entered, never over another, and handled |
| `Dialling.Dialer.Attempt` | src/core/link.go:328-424 | one turn of the loop takes exactly the steps its surroundings decide |
| `Dialling.Dialer.Loop` | src/core/link.go:325-426 | whatever interrupts it at each point where it can be interrupted, and however dials and handlers end, the loop takes a run of the machine, namely the one so decided, and ends outside only after a step that leaves |
| `Links.StepKeepsTable` | src/core/link.go:162-456 | add, remove, stop and every loop step keep table entries and running loops one to one |
| `Links.RunKeepsAll` | src/core/link.go:162-456 | and so does every run, with every link's own invariant |
| `Links.OneLoopEach` | src/core/link.go:244-269 | on every run no two loops run for one peer and no two connections are up for it |
| `Links.LinksOnEveryRun` | src/core/link.go:318-426 | on every run an ephemeral link is dialled at most once, and a persistent loop is left only after its peer was removed or the node stopped |
| `Links.EachLinkRuns` | src/core/link.go:318-426 | every run of the table is, for each link, a run of that link's loop |
| `Links.RemovedLinkLeaves` | src/core/link.go:318-456 | on every run a removed or stopped link takes at most nine more steps and one more dial, and can always move until it is gone |
| `Links.RemovedPeerMayComeUp` | src/core/link.go:431-456 | on every run a removed peer can still be up if and only if at its removal the loop had a connection not yet entered that outlives its context, or could still get one from a dialer that does not heed its context |
| `Links.SecondRemovalCloses` | src/core/link.go:431-456 | on every run a link that is up is in the table, and removing its peer closes the connection and leaves no way up, also if the peer was removed before |
| `Links.StaysUp` | src/core/link.go:390-456 | a link that is up stays up at every step but the end of its handler, the removal of its peer, the shutdown and, for a connection bound to its context, the node's stop; and at none of those |
| `Links.AnswersTellLoops` | src/core/link.go:244-254 | on every run a peer can be added if and only if no loop runs for it, a removal under way included, and removed if and only if one does |
| `Links.AddExactly` | src/core/link.go:216-269 | a limit under five seconds is refused and changes nothing; a known peer is only kicked, back to dialling; an unknown one gets a link of the kind asked for, by default with 4096 seconds, about to check its context |
| `Links.RetryExactly` | src/core/core.go:138-147 | a retry sends exactly the waiting loops it reaches back to dialling |
| `Links.LinkTable.AddPeer` | src/core/link.go:162-269 | an invalid limit changes nothing, a known peer is kicked if it waits, any other gets a link object; map and objects stand for the table after it, entries and loops still one to one |
| `Links.LinkTable.RemovePeer` | src/core/link.go:431-456 | the object in the map is cancelled, its entered connection closed, and the entry stays; an unknown peer is an error; all invariants are kept |
| `Links.LinkTable.RetryPeers` | src/core/core.go:138-147 | kicks the waiting loops and changes nothing else; all invariants are kept |
| `Links.LinkTable.EnterConnection` | src/core/link.go:376-388 | entering a connection never finds another, so the abort is never taken |
| `Links.LinkTable.ClearConnection` | src/core/link.go:346-411 | a failed dial and the end of a handler leave no connection |
| `Links.LinkTable.Stop` | src/core/core.go:159-160 | the node's context ends every link's context, which is derived from it |
| `Links.LinkTable.CloseAll` | src/core/link.go:133-144 | the loop over the map closes exactly the connections that are entered |
| `Links.LinkTable.Leave` | src/core/link.go:319-323 | the deferred delete takes the entry only if it is still this very object; all invariants are kept |
| `Requests.StepKeeps` | src/core/proto.go:106-233 | every request, response, timer and clean-up keeps the table and all requests consistent |
| `Requests.AskOpens` | src/core/proto.go:106-124 | on every run a request is then the newest and open in its slot, made now, with an empty channel and, for debug requests, a timer; one that was open there is superseded by it; no other is touched |
| `Requests.ResponseDelivers` | src/core/proto.go:139-145 | on every run an answer to an open request puts exactly its bytes on that request's channel and closes it, and touches no other; without one nothing changes |
| `Requests.AnswersAreBrought` | src/core/proto.go:139-145 | on every run an answered request nobody has taken from holds exactly the bytes of one response to its slot that came after it was made |
| `Requests.ExpiryExactly` | src/core/nodeinfo.go:43-52 | on every run a timer or the clean-up expires exactly the open request it is for, or the open nodeinfo requests of more than a minute |
| `Requests.TakeEmpties` | src/core/proto.go:262-266 | on every run whoever takes an answer takes the only one and leaves none |
| `Requests.CallbackAtMostOnce` | src/core/proto.go:106-145 | on every run each request's callback runs at most once, exactly if it was answered, and a request is open if and only if the table leads to it |
| `Requests.SendNeverBlocks` | src/core/proto.go:258-261 | on every run the reply channel has room when an answer comes |
| `Requests.NewestStands` | src/core/proto.go:114-120 | on every run the table leads to the newest request, and the timer of an earlier one changes nothing |
| `Requests.NoRequestStays` | src/core/nodeinfo.go:43-67 | on every run an open debug request has a timer to come, and a clean-up closes every nodeinfo request of more than a minute |
| `Requests.SettledForGood` | src/core/proto.go:106-145 | a request answered, superseded or expired stays so and is not called again |
| `Requests.Handler.SendRequest` | src/core/proto.go:106-124 | an open request of the same kind to the same node is superseded by the new one, which starts its own timer |
| `Requests.Handler.HandleResponse` | src/core/proto.go:139-145 | an answer goes to the open request, if any, which is then closed |
| `Requests.Handler.TimerFired` | src/core/proto.go:114-120 | the timer closes its own request if that is still open, and nothing else |
| `Requests.Handler.CleanUp` | src/core/nodeinfo.go:43-52 | nodeinfo requests of more than a minute are dropped, all others stay |
| `Requests.DropStale` | src/core/nodeinfo.go:43-48 | the loop over the callbacks drops exactly the stale ones |
| `Packing.PackKeys` | src/core/proto.go:169-181 | the packed bytes are the first n keys, n the last length that fits the core's MTU with two bytes to spare |
| `Packing.MessageFits` | src/core/proto.go:99-102 | the message with its three type bytes fits the connection for all keys if and only if the connection carries at least three bytes |
| `Packing.DebugMessagesDispatched` | src/core/proto.go:57-102 | exactly what _sendDebug sends reaches the debug handlers, with its kind and payload |
| `Packing.LongestThatFits` | src/core/proto.go:213-225 | a prefix fits the connection and the cap if and only if it is no longer than the packed one |
| `Packing.LongestUnlessCapped` | src/core/core.go:166-173 | it is the longest that fits the connection alone if and only if that carries less than 65539 bytes or there are at most 2047 keys |
| `Packing.SplitKeys` | src/core/proto.go:307-312 | whole keys in order, which put together are the payload but for a rest shorter than a key |
| `Packing.FlattenInjective` | src/core/proto.go:358-363 | whole keys are determined by their concatenation |
| `Packing.AskedKeys` | src/core/proto.go:169-312 | the asking node gets exactly the non-empty keys of the packed prefix |

## Left out

- Ed25519, BLAKE2b, SHA-512, Curve25519 and TLS themselves: ideal, or parameters.
- The routing layer (ironwood): its calls are steps or parameters; path notifications and deliveries may come in any order.
- Transport dialers and listeners, TUN, multicast discovery and its advertisements: input and output.
- Accepted connections in the link table, including an entry shared by a dialled and an accepted link (`src/core/link.go` 555-592): the clean-up there does not keep one owner per entry.
- Link options other than the backoff limit and the link type: their parsing, and the errors it gives.
- The error kept for display beside a link, byte counters and rates.
- Clocks: a timer may fire at any time after it was started, except that debug requests live for at least their minute.
- The text of errors and logs; the admin socket and its JSON; nodeinfo contents; the content of the ICMPv6 answer to an oversized packet, which is a parameter.
- A nodeinfo request without a callback, which registers nothing.
- The comparators of `src/admin/getpeers.go` and the sorting in `contrib/ansible/genkeys.go`, which do not order in general.
- Configuration, command line tools and packaging.
- Brute.MakeAddr: asks for at most 398 leading ones, because beyond that the source reads outside the hash; ReadsInBoundsExactly states that bound both ways.
- KeyOrder.IsBetter: asks that the new key is not shorter than the old one, as the source's indexing does.
- KeyOrder.TrackBest: says nothing about addresses if the best key is all zeros; ZeroKeyLowestAddress says what then holds.
- KeyStore.KeyStore.ReadPC: what it meets is a finite list, after which the read fails; a read that blocks for ever is not modelled.
- KeyStore.KeyStore.ReadDelivery: one step, though the lock is free between reading the MTU and noting the key; nothing read in between is used again.
- Handshake.Handler: a six-second deadline that passes is the end of the input, under another name of the error.
- Dialling.CancelledLoopEnds: counts the loop's own steps; how long a dial, a handshake or a connection lasts is up to the outside.
- Dialling.RemovedLinkMayComeUp: what a transport makes of a cancelled context is one of three kinds, taken from its dialer; a dial that heeds it is taken to fail as soon as it is cancelled.
- Meeting.TwoSessionsMeet: leaves out a node that is shown its own key's certificate, which over TLS talks to itself.
- Agreement.AgreementOnEveryRun: honest nodes are current nodes; an honest 0.5 node is not part of the world.
- Links.LinkTable.Stop: that the packet connection is closed after the links, which ends every handler, is not modelled.
