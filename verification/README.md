# A verified model of the Ratelimitly client core

The client asks a group of rate-limit servers whether a request may go ahead. This project models the
parts of the crate whose correctness is not visible from one function body, and proves what they are for.

- **Steering** (`Steering.dfy`, `FairLock.dfy`, `SteeringPorts.dfy`). Many requests share one UDP socket
  under a read guard. A request that got a steering advisory takes the write guard, binds a new source port,
  swaps the socket, publishes a new epoch under the socket write lock and waits until the response router
  has acknowledged it. The model is a transition system over any number of tasks and the router in which
  every lock operation and every access to shared state is a separate step, with first-come-first-served
  locks; the invariant is inductive, and the results hold on every run. The port search is a walk round the
  dynamic port range.
- **One rate-limit request** (`HaRequest.dfy`, `HaRun.dfy`, `Inflight.dfy`, `ServerTarget.dfy`). Transmission rounds,
  the preference for the oldest server in round 0, first-answer replay rounds, the receive-only phase,
  completion delivery, the books on answers and failed sends, and the routing of datagrams to requests. A
  trace of channel events carries its own times, so a phase hears whatever its window lets in and a late
  answer to an earlier round is heard in a later one. The method is proved against a declarative rule, and
  the rule is proved to leave no freedom; `HaRun.dfy` reads it target by target and event by event.
- **API keys** (`Register.dfy`, `Checksum.dfy`, `Regroup.dfy`, `Bech32.dfy`, `ApiKeyCodec.dfy`, `KnownKey.dfy`).
  The text layer follows BIP 173, "Bech32", without its 90-character limit: the checksum register over 32-bit
  words, bit regrouping against the digits of one unbounded number, text framing, and the packed quota word.
  `KnownKey.dfy` works one key out in full.
- **Request timing** (`RequestPolicy.dfy`). Overflow-avoiding schedules and the horizon against closed forms
  over unbounded integers.
- **Wire format** (`Wire.dfy`, `LittleEndian.dfy`). Little-endian blocks, TLVs, three authentication framings,
  requests and responses, each printer against its parser.
- **Traffic counters** (`Traffic.dfy`). The compare-and-swap loop alone, and under every interleaving of any
  number of callers.

`Prelude.dfy` and `Arithmetic.dfy` hold shared types and arithmetic.

## How to read the model

- Code that updates state in place is a class or a method with loops, proved against a specification
  function or a transition; pure code is a function. A lemma then says what the specification means.
- `u16`, `u32`, `u64` and bytes are integers with their range as a type, so an intermediate value that
  the code keeps in such a type is shown to fit, or its wrap-around is written out. The checksum register
  uses 32-bit vectors; in bit regrouping shifts and masks are multiplication, division and remainder by
  powers of two.
- A specification function is not its own evidence: beside each stand lemmas that say the same thing in other
  terms, by bytes, bits, fields, counts, sums, or as an if-and-only-if over the input.
- A `SocketAddr` is its address, port and, for IPv6, flow information and scope. Text is a sequence of
  characters.
- Sockets, clocks, DNS and randomness are inputs: which sends fail (`Network.fault`), how long sends and waits
  take (`Network.sendTime`, `Event`), what a host name resolves to (`Endpoint`), how single binds end (`Host`),
  and the nonce, time stamp and request id of a packet. Timed waits never end early, and the response
  channel stays open while the request is registered.
- AES-256-GCM is a pair of functions of which only `Lawful` is assumed: decryption under the same additional
  data inverts encryption, which keeps the length. The cookie and key caches hold the secret of the
  configured method, as the constructor of the client sets them.
- A transmission round always goes to every target: a round that heard an accepted answer ends the request,
  so both sets of seen servers are empty when the next round starts. This is proved, not assumed.
- An advisory may be covered by another task's rebind attempt that failed; its own handler then returns without
  an error. `Steering.AdvisoryCovered` says of the covering attempt that it is over, and that it installed a
  newer socket unless local_addr or bind failed in it.

## Model

| member | source | states |
|---|---|---|
| Steering.StepKeepsInv | src/client.rs:1302-1341 | every step of any task, of the router and every arriving datagram keeps lock ownership, the agreement of socket, epoch and acknowledgement, the coverage of advisories, and the record of what rebind attempts came to |
| Steering.RunInv | src/client.rs:1251-1290 | the invariant holds in every state of every interleaving of any number of tasks and the router |
| Steering.RouterListensOnCurrentSocket | src/client.rs:1251-1258 | while any request holds the activity read guard, socket, published epoch and acknowledged epoch agree, and a router in its select receives on the current shared socket |
| Steering.SocketFixedByStep | src/client.rs:331-334 | no step of anybody replaces the shared socket while a request holds the read guard |
| Steering.SocketStableDuringRequest | src/client.rs:331-334 | on every run, from taking the read guard to dropping it a request sees one shared socket, and every select of the router in between is on that socket |
| Steering.SecondCheckFindsPending | src/client.rs:1307-1310 | the second check of the pending flag never finds it cleared, so that early return is never taken |
| Steering.AdvisoryCovered | src/client.rs:1302-1328 | on every run, an advisory whose handler has returned is covered by a finished rebind attempt that cleared the flag after the advisory's store, and that attempt either installed a socket newer than the one shared at the store or had local_addr or bind fail, never both or neither; attempts never outnumber advisories |
| Steering.SomeStepEnabled | src/client.rs:1305-1341 | no deadlock: unless every task is done and the router receives on the current socket, some task or the router has a step that does not wait for a datagram |
| Steering.StepUsesWork | src/client.rs:1305-1341 | every step other than the arrival of a datagram decreases one measure of the whole system |
| Steering.InternalRunsFinish | src/client.rs:1305-1341 | every run without arriving datagrams is bounded by that measure, and when it cannot go on every task is done and the router receives on the current socket |
| Steering.AckApproaches | src/client.rs:1333-1341 | while a steerer waits for its acknowledgement the router is enabled, each router step brings the acknowledgement closer and no other step moves it away |
| Steering.TaskKeepsLocks | src/client.rs:1305-1335 | a task's step leaves every lock sound and exactly as held or awaited as the control points say |
| Steering.TaskKeepsPublished | src/client.rs:1328-1341 | a task's step keeps socket, epoch and acknowledgement matched: they differ only between the swap and the publication, and between the publication and the acknowledgement |
| Steering.RouterKeepsPublished | src/client.rs:1251-1258 | so does a router step: socket and epoch are snapshotted together and published afterwards |
| Steering.TaskKeepsCoalesced | src/client.rs:1302-1310 | a task's step keeps every stored advisory either pending, or covered by a later clear |
| Steering.TaskKeepsRecorded | src/client.rs:1317-1328 | a task's step keeps the record of attempts right: nothing before the swap, an installed socket behind it, and once over exactly one of a newer socket and a failure |
| FairLock.AcquireMoves | src/client.rs:45-47 | admission from the head of the queue changes only the admitted party's standing |
| FairLock.HeadEnters | src/client.rs:45-47 | the head of the queue of a lock that nobody holds is admitted |
| FairLock.NobodyOvertakes | src/client.rs:45-47 | nobody waiting is overtaken: arrivals queue behind it, an admission brings it one place forward, and it is admitted exactly at the head with no holder in its way |
| SteeringPorts.SingleCycle | src/client.rs:820-826 | from any port of the range, one search tries every port of the range exactly once |
| SteeringPorts.SearchStartsAt | src/client.rs:832-836 | the first search starts behind the port in use, at 49152 when that port is 65535 or below the range; a later one starts where the one before it said |
| SteeringPorts.BoundFamilies | src/client.rs:1446-1464 | a bind fails with AddrInUse exactly when either family finds the port taken, otherwise with the IPv4 error exactly when neither binds, and else has exactly the sockets of the families that bind |
| SteeringPorts.BindNextSteeringSocket | src/client.rs:828-860 | the loop returns the result of the first try that does not find its port taken, with the port after it as the next start, and AddrInUse exactly when all 16384 tries find the port taken |
| SteeringPorts.StopIsFirst | src/client.rs:839-852 | every try before the one the search stops at finds its port taken, and that one does not |
| SteeringPorts.FreePortIsFound | src/client.rs:839-852 | with one port of the range free the search does not report the range exhausted, and it succeeds when no try fails otherwise |
| SteeringPorts.NoEarlyReturn | src/client.rs:820-826 | a walk comes back to a port only after at least 16384 steps that visited every port of the range |
| SteeringPorts.PortSteering.Steer | src/client.rs:1323-1325 | a failed attempt changes nothing and returns its error; a successful one extends the ports tried by those of its search, and continues behind the port it bound next time |
| SteeringPorts.BoundAgainAfterFullRound | src/client.rs:1323-1325 | in any series of steering attempts, failed ones in between, whatever ports are in use and however binds end: a port is bound again only after every port of the range was tried since, at least 16384 tries later |
| HaRequest.AgeIsNumericOrder | src/client.rs:455-458 | comparing by start second and id is comparing ids as numbers |
| HaRequest.OldestServer | src/client.rs:362-366 | the oldest allowed server, or none when no ids are named |
| HaRequest.CurrentTargets | src/client.rs:862-898 | targets in listing order, exactly the ids of servers with an address allowed, an address standing for the last server that lists it; nothing when a lookup fails |
| HaRequest.MissingMembers | src/client.rs:478-486 | a target is owed a transmission exactly when its server, or its address where no server is known, has not answered |
| HaRequest.HaClient.RecordSendFailures | src/client.rs:530-542 | one failure booked per mention of a server |
| HaRequest.HaClient.SendToMissing | src/client.rs:460-506 | one datagram to each owing target in order; an error exactly when something was owed and nothing got out, then the last error; failures booked exactly for a delivery that partly got out |
| HaRun.MissingInOrder | src/client.rs:472-486 | the owed transmissions are those of the targets that have not answered, one each, in listing order |
| HaRun.LastFaultIs | src/client.rs:487-503 | the error of a transmission is that of the last owed send that failed |
| HaRun.FailedCount | src/client.rs:487-505 | a server is listed once for every one of its owed targets whose send failed |
| HaRequest.HaClient.AcceptPolicyResponse | src/client.rs:544-570 | returns the parsed response if and only if the datagram parses and authenticates and its server is allowed, then notes server and address and credits the server |
| HaRequest.AcceptedIsAllowed | src/client.rs:551-557 | the server of an accepted answer is an allowed one |
| HaRequest.AcceptedExactly | src/client.rs:551-569 | a datagram is accepted with a result if and only if it parses to that result and its server is allowed or no ids are named, whatever the result says |
| HaRequest.FramedResponseAccepted | src/client.rs:551-569 | the framed response of an allowed server is accepted under every authentication method, denials included, and reports its blocks |
| HaRequest.HaClient.ReceiveRound | src/client.rs:378-407 | among the answers its window lets in, a round listens up to the oldest allowed server's (round 0) or the first (later rounds) and chooses by the rule, at the arrival of the last answer listened to or, when round 0 waited in vain for the oldest, at the end of the wait; without an answer it ends exactly at the end of the wait |
| HaRequest.HaClient.ReceiveFinal | src/client.rs:415-434 | the receive-only loop chooses the first answer of its window when it arrives |
| HaRequest.HaClient.Round | src/client.rs:369-407 | one round sends to every target, fails exactly when nothing got out, and otherwise receives in its own window, ending at the time of its selection |
| HaRequest.HaClient.FinalReceive | src/client.rs:408-435 | the receive-only phase is skipped when it has no units |
| HaRequest.HaClient.Select | src/client.rs:367-438 | the whole loop ends as the rule says, in the phase, with the answers and at the time that the environment determines, with exact transmissions, books and sets of seen servers |
| HaRequest.HaClient.Perform | src/client.rs:438-452 | completion delivery happens exactly for a selection made within the deduplication lifetime under a policy that asks for it, its error is ignored, and steering errors come after the selection |
| HaRequest.HaClient.ValidateRateWindows | src/client.rs:572-589 | accepts exactly requests without a window beyond the quota |
| HaRequest.HaClient.CheckRateLimit | src/client.rs:299-453 | local refusals and the empty request send nothing; otherwise one packet, its selection, its completion and its books are those of the explained run; and every datagram added parses to a header with the key id, request id, time stamp, steering flag and zero padding |
| HaRequest.HaClient.PacketAnnounces | src/client.rs:598-610 | whatever the method and the cipher, a packet parses to a header with the client's key id, the request id, the time stamp, the steering flag as 1 or 0, no management flag and zero padding |
| HaRequest.HaClient.LocalOutcomes | src/client.rs:299-330 | a window beyond the quota, the empty request, which succeeds with empty results, an unacceptable horizon and no targets are settled without sending, in that order, and nothing else is |
| HaRun.AddressesInOrder | src/client.rs:862-898 | targets are listed server by server, each server's in lookup order |
| HaRun.HeardExactly | src/client.rs:375-393 | the answers of a wait are exactly the datagrams that parse to an allowed server's response among the events it gets to, in order, each at the sum of the times up to it |
| HaRun.WaitEndsAt | src/client.rs:378-383 | a wait ends with the first arrival at or after its deadline, or when the channel stays silent past it |
| HaRun.PhaseHears | src/client.rs:367-434 | every phase listens to its own stretch of the events, so no datagram is heard in two phases |
| HaRun.BroadcastAt | src/client.rs:369-371 | datagram round * |targets| + k of the transmissions goes to target k |
| HaRun.ReturnsAnswer | src/client.rs:394-453 | the first phase that hears an answer, no round up to it failing, ends the request: in round 0 with the first answer of the numerically smallest id, later with the first answer; a steering error replaces it |
| HaRun.ReturnsTimeout | src/client.rs:435-453 | a request times out exactly when no phase hears an answer and every round gets something out |
| HaRun.ReturnsSendError | src/client.rs:500-503 | the first round that gets nothing out, with no answer heard before, ends the request with the error of its last send |
| HaRun.RoundZeroListens | src/client.rs:394-404 | round 0 stops listening exactly at the answer of the numerically first allowed server, and otherwise at the end of its window |
| HaRequest.RoundZeroChoosesSmallestId | src/client.rs:394-404 | in round 0 the chosen answer has the smallest server id of all answers of the whole window, and is the oldest allowed server's when that one answered |
| HaRequest.LaterPhasesChooseFirst | src/client.rs:399-401 | corollary of the rule: after round 0 the first answer of the first phase that hears one is chosen, at its arrival |
| HaRequest.RuleDecides | src/client.rs:367-438 | the rule is a function: two explanations of one run are the same, time included, and so are all datagrams sent and all books |
| HaRequest.NothingSelected | src/client.rs:435-436 | a request ends without selection and without error exactly when every transmission got out and no phase heard an answer |
| HaRequest.SendErrorsPrecedeAnswers | src/client.rs:370-371 | a request fails to send exactly when some round gets nothing out before which no phase heard an answer; so never while an answer is held |
| HaRequest.TransmissionCount | src/client.rs:369-371 | a request that ends in phase r made min(r, N) + 1 transmissions to every target, plus one per owing target when it completes, all of the same bytes |
| HaRequest.OwingTargets | src/client.rs:440-446 | completion goes to exactly the targets whose server or address is not among the answers listened to |
| HaRequest.CompletionWithinLifetime | src/client.rs:440-446 | completion starts if and only if the policy asks for it and the answer that ended the listening arrived, or round 0's window that the oldest allowed server left unanswered ended, before the end of the deduplication lifetime |
| HaRequest.PromptSelectionCompletes | src/client.rs:440-446 | without delays every selection completes under such a policy, except exactly one kind: no replay, no receive-only phase, and the oldest allowed server left the only window unanswered |
| HaRequest.SelectionInsidePhase | src/client.rs:375-402 | a selection is made between the end of its phase's sends and the end of its phase |
| HaRequest.BooksBalance | src/client.rs:530-570 | every server is credited once per answer listened to and blamed once per failed send of a partly delivered transmission |
| HaRun.ServerBooks | src/client.rs:460-570 | a server's entry grows by one answer for each of its answers listened to, and by one failure for each failed send to one of its targets in the rounds that got something out and in a completion that did |
| HaRequest.PhasesTakeTheirWindows | src/client.rs:372-378 | no phase starts before the windows of the earlier phases have passed |
| HaRequest.TimeoutNotBeforeHorizon | src/client.rs:451-452 | a timeout comes only after the whole horizon announced as the deduplication lifetime |
| HaRequest.SilentRequestLastsHorizon | src/client.rs:369-435 | without answers a request waits exactly that horizon, besides the time of its N + 1 transmissions |
| Inflight.InflightMap.Route | src/client.rs:1270-1284 | a datagram is appended to the channel of the request whose id it carries, if registered, and to no other |
| Inflight.InflightMap.Take | src/client.rs:380-383 | a request takes its datagrams in the order they were read |
| Inflight.InflightMap.Deregister | src/client.rs:69-73 | dropping the registration removes only that request's channel |
| Inflight.AddressedNext | src/client.rs:1270-1284 | one more datagram read extends exactly its own request's history |
| Inflight.OnlyOwnDatagrams | src/client.rs:1202-1213 | a channel's datagrams are exactly those read whose header parses and carries the request's id |
| Inflight.SelectionIsOwn | src/client.rs:352-357 | when all that a run hears was taken from its request's channel, the selected result was read from a datagram received since the registration whose own header carries that request's id and names an allowed server |
| ServerTarget.ServerIdLabel | src/client.rs:1215-1232 | a target names server n exactly when its first label is s- and the canonical decimal numeral of n, in either case |
| ServerTarget.TrimKeepsLabel | src/client.rs:1218-1219 | trailing dots do not change the first label |
| Register.Polymod | src/api_key_codec.rs:137-149 | the two loops compute the register run over all symbols |
| Register.StepDivides | src/api_key_codec.rs:137-149 | a register step is division by the generator polynomial of BIP 173 over the field of 32 elements |
| Register.RunLinear | src/api_key_codec.rs:137-149 | the register is XOR-linear in start value and input together, over any length |
| Register.StepInjective | src/api_key_codec.rs:140-147 | one step is injective in the register |
| Register.ZeroStepKernel | src/api_key_codec.rs:140-147 | a zero symbol takes only the zero register to zero |
| Register.ShortRun | src/api_key_codec.rs:140-147 | up to six symbols leave an empty register zero only if all are zero |
| Checksum.HrpExpand | src/api_key_codec.rs:125-135 | high bits, a zero and low bits of the prefix |
| Checksum.HrpExpansionBits | src/api_key_codec.rs:125-135 | the expansion has 2n + 1 symbols: for each character its high three bits, a zero, its low five bits |
| Checksum.VerifyChecksum | src/api_key_codec.rs:151-156 | decides whether prefix and data leave the register at one |
| Checksum.CreateChecksum | src/api_key_codec.rs:158-164 | computes the six symbols that the following lemmas are about |
| Checksum.CreatedChecksumVerifies | src/api_key_codec.rs:158-164 | the created six symbols always verify |
| Checksum.ChecksumUnique | src/api_key_codec.rs:151-164 | they are the only six that verify |
| Checksum.BurstChangesPolymod | src/api_key_codec.rs:137-149 | symbol sequences of one length that differ only within six consecutive positions have different registers |
| Checksum.BurstDetected | src/api_key_codec.rs:151-156 | so no two such data parts both verify, whatever their length |
| Regroup.EmitGroups | src/api_key_codec.rs:166-204 | the inner loop keeps the masked accumulator equal to the pending low bits of the unbounded number and emits its groups |
| Regroup.ConvertBits | src/api_key_codec.rs:166-204 | the loops compute the digits, in the new width, of the unbounded number that the input spells |
| Regroup.RegroupedKeepsBits | src/api_key_codec.rs:166-204 | the new groups spell the same bits in the same order; padding is the least and zero, and bits left over are zero and fewer than a group |
| Regroup.FiveBitsRoundTrip | src/api_key_codec.rs:166-204 | eight to five bits with padding and back without is the identity on all byte sequences |
| Regroup.FiveBitsCanonical | src/api_key_codec.rs:166-204 | every accepted five-bit sequence is exactly the regrouping of what it decodes to |
| Bech32.AlphabetInverse | src/api_key_codec.rs:48-123 | reading the character of a value gives the value, and that character is printable, not upper-case and not the separator |
| Bech32.CharInverse | src/api_key_codec.rs:48-123 | printing the value of an accepted character gives the character, and the separator is not accepted |
| Bech32.AlphabetOrder | src/api_key_codec.rs:48-123 | the values are the places in the alphabet string of BIP 173 |
| Bech32.Bech32Decode | src/api_key_codec.rs:206-252 | the scanning loops compute the decoding function, with its order of errors |
| Bech32.DecodeAccepts | src/api_key_codec.rs:206-252 | a text decodes to a prefix and a payload if and only if it is printable, in one case, and in lower case their encoding |
| Bech32.EarlyRefusals | src/api_key_codec.rs:207-227 | nothing, an unprintable character and mixed case are each refused with their own error, exactly then |
| Bech32.FramingRefusals | src/api_key_codec.rs:229-236 | a missing separator, one only in front, and one among the last six characters are each refused with their own error, exactly then |
| Bech32.CharsetRefusal | src/api_key_codec.rs:238-242 | the first character outside the alphabet is the one reported |
| Bech32.DataRefusals | src/api_key_codec.rs:244-250 | a framed text over the alphabet is refused for its checksum exactly when it does not verify, and then for its padding |
| Bech32.Bech32Encode | src/api_key_codec.rs:254-273 | the building loops compute the encoding function |
| Bech32.DecodeEncoded | src/api_key_codec.rs:206-273 | decoding an encoding gives the lower-cased prefix and the payload, for every printable prefix, also one containing the separator |
| Bech32.EncodeDecoded | src/api_key_codec.rs:206-273 | every accepted text is in lower case the encoding of what it decodes to |
| Bech32.SameDecodingSameText | src/api_key_codec.rs:206-252 | two accepted texts decode alike exactly when they differ only in case |
| Bech32.BurstRejected | src/api_key_codec.rs:206-252 | an accepted text, in either case, corrupted within six consecutive characters behind the separator, to any characters but the separator, is rejected |
| ApiKeyCodec.LimitsOfQuotaWord | src/api_key_codec.rs:275-298 | the word packed from representable limits unpacks to those limits |
| ApiKeyCodec.LimitsFields | src/api_key_codec.rs:275-298 | a word is accepted exactly when its two bounded exponents are at most 24 and its lifetime field is 1 to 200, and each limit is the power of two, or ten times the field, at its own place; 31 means an unlimited window |
| ApiKeyCodec.QuotaWordOfLimits | src/api_key_codec.rs:275-298 | every valid 32-bit word is recovered from its limits, so unpacking is injective |
| ApiKeyCodec.PackingKeepsRepresentable | src/api_key_codec.rs:419-435 | the word that the encoder packs from any limits unpacks to those limits if and only if they are representable: powers of two within their bounds, a lifetime of 10 to 2000 ms in tens, and a window that is a power of two or unlimited |
| ApiKeyCodec.EncodeApiKey | src/api_key_codec.rs:407-438 | the buffer holds version, key id, secret where used, and the quota word packed from whatever limits |
| ApiKeyCodec.VersionedAccepted | src/api_key_codec.rs:326-367 | a versioned payload of its method's length is accepted exactly with format version 1 and a valid quota word, and key id, secret and limits are read from their places |
| ApiKeyCodec.PayloadRefusals | src/api_key_codec.rs:300-370 | each error is given exactly for its cause: prefix, method, length, version, quota word |
| ApiKeyCodec.DecodeEncodedSecret | src/api_key_codec.rs:308-325 | a printed secret of the unversioned method decodes, with no key id and no limits, exactly when it has 32 bytes |
| ApiKeyCodec.EncodeDecodedSecret | src/api_key_codec.rs:308-325 | every accepted key without limits is in lower case the printed form of its 32-byte secret |
| ApiKeyCodec.DecodeEncodedKey | src/api_key_codec.rs:300-370 | decoding a printed key returns method, key id, secret and limits if and only if the limits are representable and the secret has the method's length |
| ApiKeyCodec.EncodeDecodedKey | src/api_key_codec.rs:300-370 | every accepted versioned key is in lower case the printed form of what it decodes to |
| KnownKey.KnownKeyDecodes | src/api_key_codec.rs:377-389 | the key of the crate's own test decodes, character by character through the checksum, to its key id and limits |
| RequestPolicy.ComputeUnits | src/request_policy.rs:60-96 | the overflow-free computation equals min(max, initial + round * step) or min(max, initial * factor ^ round), and the errors are exactly the malformed schedules |
| RequestPolicy.NextUnits | src/request_policy.rs:60-96 | a round is the one before it, lengthened by the step or the factor, up to the maximum |
| RequestPolicy.UnitsMonotone | src/request_policy.rs:60-96 | rounds never get shorter |
| RequestPolicy.ComputeHorizonMs | src/request_policy.rs:127-147 | the checked additions never fail, and the result is the closed-form horizon against the limits |
| RequestPolicy.HorizonAccepted | src/request_policy.rs:127-147 | accepted exactly when well formed and at most the limit, the limit included; beyond the limit the key refuses, beyond 32 bits the policy is invalid |
| RequestPolicy.FixedSum | src/request_policy.rs:132-136 | the rounds of a fixed schedule add up to their number times its length |
| RequestPolicy.LinearSum | src/request_policy.rs:132-136 | those of a linear one below its maximum to the arithmetic series |
| RequestPolicy.ExponentialSum | src/request_policy.rs:132-136 | those of an exponential one below its maximum to the geometric series |
| RequestPolicy.DefaultHorizon | src/request_policy.rs:150-160 | the default policy takes 60 ms, accepted at a limit of 60 and not at 59 |
| RequestPolicy.HorizonAtLargerLimit | src/request_policy.rs:119-125 | acceptance at one limit gives the same value at every larger one, so the horizon of a built policy exists |
| RequestPolicy.WindowExact | src/client.rs:372-377 | under an accepted policy no window saturates |
| RequestPolicy.WindowsSumToHorizon | src/client.rs:408-414 | the windows of all rounds and the receive-only phase add up to exactly the horizon |
| RequestPolicy.Build | src/request_policy.rs:224-244 | a built policy has the unit as whole milliseconds and an accepted horizon; the duration error is exactly a zero, fractional or unrepresentable unit |
| Wire.WriteHeader | src/protocol.rs:164-176 | the field writes overwrite exactly the header's 40 bytes of the caller's buffer |
| Wire.WriteGuard | src/protocol.rs:212-220 | the same for a guard block at any offset |
| Wire.WriteResource | src/protocol.rs:251-258 | the same for a resource block |
| Wire.HeaderRoundTrip | src/protocol.rs:164-200 | reading written header bytes gives the header |
| Wire.HeaderLayout | src/protocol.rs:164-176 | every field of a header stands at its own bytes, least significant first |
| Wire.GuardLayout | src/protocol.rs:212-220 | the same for a guard block |
| Wire.ResourceLayout | src/protocol.rs:251-258 | the same for a resource block |
| Wire.HeaderAccepted | src/client.rs:965-993 | a byte string starts with a tenant header exactly when its type and a fitting size of at least 40 are there, and the fields are then its bytes at their places |
| Wire.GuardsRoundTrip | src/client.rs:1132-1152 | reading a printed list of guard blocks in its place gives the list |
| Wire.ResourcesRoundTrip | src/client.rs:1154-1172 | reading a printed list of resource blocks in its place gives the list |
| Wire.LabelTlvFields | src/client.rs:909-937 | a label TLV is a whole number of words, the least that holds it, and carries the label |
| Wire.BuildRateRequestBody | src/client.rs:617-675 | the growing buffer ends as counts, blocks and label |
| Wire.ParseRateResponsePdu | src/client.rs:1095-1187 | the cursor loops stay in bounds on every byte string and compute the parse, success meaning that every guard passed and no resource has a deficit |
| Wire.ResponseAccepted | src/client.rs:1095-1187 | a PDU is accepted if and only if its type, size and counts fit its bytes, and the result reports the blocks that stand there |
| Wire.ResponseRoundTrip | src/client.rs:1095-1187 | parsing a printed response gives, block by block, each guard its own id, threshold and latency with passed exactly for a latency below the threshold, each resource its id, deficit and rate, success exactly without a failed guard or a deficit, server id and steering flag; TLVs behind the blocks and bytes behind the PDU change nothing |
| Wire.ParseIgnoresRest | src/client.rs:1116-1121 | whatever follows an accepted PDU is ignored |
| Wire.PeekAgrees | src/client.rs:1189-1213 | peeking at server or request id succeeds exactly when the header parses, with the same ids |
| Wire.AuthRoundTrip | src/client.rs:995-1093 | for every authentication method, parsing the framing of a PDU gives the PDU, under the same additional data for the sealed form |
| Wire.AuthLayout | src/client.rs:745-780 | the framing of each method byte by byte: type, size, cookie or nonce, tag and ciphertext under the bytes before it as additional data |
| Wire.AuthAccepted | src/client.rs:995-1093 | a framing is accepted with a PDU exactly when its type and size are the method's, its cookie is the secret or its ciphertext opens, and the PDU is what follows |
| Wire.PacketRoundTrip | src/client.rs:965-1093 | header and PDU of a packet are recovered at the fixed 40-byte offset |
| Wire.ResponseNamesPeekedServer | src/client.rs:948-963 | an accepted response names the server that peeking finds |
| Wire.PacketAccepted | src/client.rs:948-963 | a response is accepted exactly when a header, behind it an authentication TLV, and in that a PDU of the right shape are found; the result reports server id, steering flag and blocks |
| Wire.ResponsePacketRoundTrip | src/client.rs:948-963 | a whole framed response is read back block by block, server id and steering flag from its header |
| Wire.BuildPacket | src/client.rs:338-351 | the packet is grown header first, then authentication and PDU, and refused exactly when it would exceed 1200 bytes |
| Wire.RequestAccepted | src/client.rs:338-348 | a request goes out exactly when 48 bytes of headers, authentication, blocks and padded label fit in 1200 bytes, and otherwise the first limit it exceeds is reported |
| Wire.RequestPacketRoundTrip | src/client.rs:340-351 | a packet that passes the size check is exactly 40 + auth + PDU bytes, and its receiver recovers every count, size, block and label untruncated |
| Traffic.TrafficCounters.AddTo | src/traffic.rs:55-76 | the retry loop adds once, saturating, whatever spurious failures occur, and marks an overflow |
| Traffic.TrafficCounters.Record | src/traffic.rs:78-87 | a datagram of any length adds one, its length, and its length plus 28 or 48 in 64-bit arithmetic |
| Traffic.TrafficCounters.CountSent | src/traffic.rs:89-95 | a complete send counts as a datagram, any other as a failure only |
| Traffic.ReplayIsCappedSum | src/traffic.rs:55-76 | replayed additions give the true sums cut off at the maximum, marked exactly when some sum does not fit |
| Traffic.HeaderAccounting | src/traffic.rs:78-95 | the true sums of a direction are its datagrams, their lengths, and these plus 28 for each IPv4 or ::ffff:a.b.c.d peer and 48 for each other one, short of 2^64 per datagram whose own sum wraps; failed or cut-short sends add one failure each and nothing else |
| Traffic.StepKeepsInv | src/traffic.rs:55-76 | every load, failed or successful exchange and mark of any caller keeps the counters equal to the replayed log of successful exchanges |
| Traffic.StepConserves | src/traffic.rs:55-76 | every step conserves, counter by counter, what was added plus what is still to add |
| Traffic.CountersAreCappedSums | src/traffic.rs:55-76 | in every reachable state each counter is the capped sum of its successful additions |
| Traffic.NoUpdateIsLost | src/traffic.rs:55-76 | when all callers have finished, under every interleaving, each counter is the capped sum of everything they set out to add, and incomplete holds exactly when some true sum does not fit |
| Traffic.TotalsInEveryState | src/traffic.rs:55-115 | in every reachable state without an overflow, what is counted plus what is still pending are the datagrams, payload bytes, IP bytes by kind of peer, and failures of all callers' operations |
| Traffic.CompleteTotalsBalance | src/traffic.rs:78-115 | when all callers have finished and totals are complete, IP bytes are payload bytes plus 28 or 48 per datagram by kind of peer, exactly when no datagram's own sum wrapped |

## Left out

- DNS and SRV lookups, refresh timing, resolver construction: I/O; their results are inputs.
- Socket creation, options, the dual-family send and receive, and Windows calls: operating-system calls; bind results are inputs.
- AES-256-GCM, Blake2s content identifiers and random numbers: library code; block identifiers and nonces are inputs.
- Cancelling a request inside the steering handler, a failing `local_addr` after the swap, and the death of the router: the protocol is modelled without them.
- `last_port`, the statistics counters of steering, and log messages: they influence nothing modelled here.
- `report_latency` and its PDU: one fan-out without selection, and it takes no activity guard.
- Builder setters, public wrappers, error texts and `Debug` output: easy members.
- `InflightRegistration` on a request id registered twice: ids are random and treated as distinct.
- The time stamp `last_seen` of a server: written and never read by the modelled code.
- The four-error bound of BIP 173: it needs a search over codewords up to a length the code does not enforce; the burst theorem is proved for all lengths.
- The panic of a debug build when length and header bytes overflow 64 bits: the addition wraps, as in a release build; no datagram is that long.
- Several requests of one client at once, in `HaRequest`: their bookkeeping steps commute, and what they share otherwise, the socket, is the subject of `Steering`.
- Relaxed memory order across different counters: each step acts on one counter or on the mark, and nothing proved relates two of them before the callers have finished.
