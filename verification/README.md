# Altica node: a verified model

Altica is a naming system. Nodes register domains over a shared DHT by taking locks, keeping an index of
pending registrations and voting; an on-chain registry binds the namehash of a domain to a resolver once an
oracle has accepted the binding's signer; listeners carry the chain's events back to the nodes. This project
models that behaviour in Dafny and proves what holds over whole runs, and where the code keeps less than it
seems to promise.

How it is built. Code that updates objects in place is a class whose methods are proved to do what a
specification function says: the contract (`Registry`), the DHT, the record store and the voting manager
(`RecordStore`, against `Store` and `Votes`), the event listener (`Listener`), the gossip manager (`Gossip`)
and record versioning (`Versioning`). Theorems about runs are lemmas over those functions. Hash functions,
signature recovery and point addition are parameters about which nothing is assumed (addition: that two
points may be added in either order); hash results are stated with an explicit collision or zero preimage
computed from the inputs. A Go string is a sequence of characters below 256.

- `Bytes`, `Options`: byte strings, words, addresses, what refutes a hash; an optional value.
- `Namehash`, `Keys`, `Parameters`, `Database`, `Digest`: the namehash loop, the DHT key space, hexadecimal
  parameters, the database's cleaned keys and what is listed under them, the EIP-712 digest.
- `Locks`, `Votes`, `Store`: lock table, vote results, and every call of the store as a function.
- `RecordStore`: the objects of `core/store.go` and `core/voting.go`.
- `Lifecycle`, `Registration`: runs of whole calls by any number of nodes; invariant and consequences.
- `Consensus`, `Availability`: over the same runs, confirmed domains and their saved consensus, what an unchecked
  registration replaces, and what IsDomainAvailable answers.
- `Ballots`, `Ticks`: over the same runs, whose votes are stored and signed for, what a tick does to each domain, and
  the order of the index.
- `Edits`: what edits and events do to a confirmed record, for the node and for the record nodes share.
- `Interleaving`: registrations, votes, decisions and rejections with their single DHT reads and writes
  interleaved; `Stranding`: what that breaks, and exactly when; `Pairing`: what whole interleavings keep when
  that does not happen.
- `Registry`, `Oracle`, `Listener`: the contract, the contract with the oracle, the delivery of logs.
- `Gossip`, `Publishing`, `Delivery`: de-duplication, events from the contract to a node's record, and the runs of
  any number of crashing listeners in between.
- `Versioning`: version histories.

Where the code and its documentation or tests differ, the model follows the code:

- a majority of rejecting votes confirms the record like a majority of accepting ones
  (`Registration.ConfirmedExactlyUnlessChainRefuses`);
- votes outlive their registration and decide the next one (`Registration.VotesDecideExactlyWhen`);
- registering without the check, as the registration request does, can replace a confirmed record
  (`Registration.UncheckedAddSafeExactlyWhen`, `Consensus.ReplacedExactlyWhen`, `Consensus.ConfirmedIsReplaced`);
- a node saves its own, perhaps older copy over the record that nodes share, and edits are lost
  (`Edits.EditReachesSharedExactlyWhen`, `Edits.EditIsLost`);
- `IsDomainAvailable` fails for every domain that is not found but was registered once, a rejected one for
  instance, which test/store_test.go expects to be available (`Availability.AvailableExactlyWhen`);
- a confirmation or rejection that read its record too early, and a registration whose own vote is refused,
  part a domain's lock from its pending record; a domain can be lost to everybody for good
  (`Stranding.SettlePairsExactlyWhen`, `Stranding.VotePairsExactlyWhen`,
  `Stranding.LateRejectionStrandsDomain`, `Stranding.StrandedForGood`); without those they go together whenever
  the calls about the domain are finished (`Pairing.PairedWhenFinished`);
- `resolve` joins its tests with "or": it answers for expired bindings, and with a stranger's resolver that
  nobody accepted (`Registry.ResolveIsCurrentExactlyWhen`, `Registry.ForeignAnswerExactlyWhen`,
  `Oracle.StrangerIsResolved`);
- a failed history query loses logs (`Listener.FailedQueryLosesExactlyWhen`);
- names with a trailing dot do not follow EIP-137 (`Namehash.NamehashIsEip137`), times from 2^63 on do not
  follow the contract's digest (`Digest.GoAgreesBelow63Bits`);
- two bindings of a name in one block share an event id, and the second is dropped
  (`Publishing.NothingIsLostExactlyWhen`, `Publishing.SameBlockUpdateIsLost`);
- `List` asks for a prefix that no key has unless the path of a domain escapes its directory by "..", so
  otherwise the state root is that of an empty store (`Database.ListFindsNothingExactlyWhen`,
  `Database.StateRootIsConstant`, `Database.SomeNamesAreListed`);
- the database cleans its keys like paths, so the names "" and "." share a record there and not in the DHT
  (`Database.RecordKeysAgreeExactlyWhen`).

## Model

| member | source | states |
|---|---|---|
| Namehash.ComputeNamehash | core/resolver.go:16-30 | the loop from the last label to the first computes the fold of the hash over the labels, for every name including the empty one |
| Namehash.Split | core/resolver.go:23 | splitting at dots loses nothing, gives at least one piece and leaves no dot in a piece |
| Namehash.NamehashIsEip137 | core/resolver.go:16-30 | the code equals the recursive definition of EIP-137, section "namehash algorithm", on exactly the names without a trailing dot, or Keccak is broken by computed evidence |
| Namehash.NamehashInjectiveUnlessBroken | core/resolver.go:16-30 | from two names with one namehash two inputs with one digest, or a preimage of the zero word, can be computed |
| Keys.KeysNeverCollide | core/store.go:248-250 | keys of locks, records, metadata, namehash entries, pending records and votes coincide only for the same entry, for every slash-free domain |
| Keys.SlashesCollide | core/store.go:667-684 | with a slash in the domain a record key can be a namehash key, so the condition is needed |
| Keys.HexInjective | core/store.go:682-684 | different hashes have different hexadecimal keys |
| Keys.LowerAgreesExactlyWhen | core/store.go:247-250 | two names share their lock and pending keys exactly when they agree letter by letter, ignoring case |
| Parameters.Hex2Bytes | rpc/records.go:68-82 | every parameter decoded, or an error exactly if there is none or one does not decode |
| Parameters.DecodesExactlyHex | rpc/records.go:75 | a text decodes to some bytes exactly when it is their hexadecimal in either case, so nothing else is accepted |
| Parameters.HexRoundTrip | rpc/records.go:75 | what the program writes in hexadecimal it reads back, with or without 0x |
| Database.RecordKeysAgreeExactlyWhen | core/store.go:902-929 | in the database two slash-free domains share a record key exactly when they are equal or both of "" and "."; none shares one with a namehash entry |
| Database.ListedExactlyWhen | core/store.go:188-214 | a record lies under the prefix List queries exactly when its domain's path climbs to the root and goes down again under that directory; never without ".." |
| Database.ListFindsNothingExactlyWhen | core/store.go:188-214 | List finds exactly the records of such domains, so nothing exactly when there is none |
| Database.SomeNamesAreListed | core/store.go:188-214 | for instance every name ../../record/x |
| Database.ComputeStateRoot | core/store.go:1056-1071 | the loop digests the texts of the listed records in their order |
| Database.SerializedInOrder | core/store.go:1065-1068 | the text of every listed record stands in what is digested, after those of the records before it |
| Database.StateRootIsConstant | core/store.go:1056-1071 | whatever a database of domains without ".." holds, and however the listing is sorted, the state root is the digest of nothing |
| Digest.GetDigest | contracts/evm/utils.go:54-123 | the buffers assembled by hand give the EIP-712 digest of the message whenever both times are below 2^63 |
| Digest.BigEndianSpells | contracts/evm/utils.go:73-106 | a packed number reads, most significant byte first, as the number it was packed from |
| Digest.PackedTimeSpells | contracts/evm/utils.go:73-74 | a time is packed as itself below 2^63, and from there on as the time less 2^64 in 256 bits |
| Digest.EncodedFieldSpells | contracts/evm/contracts/src/AlticaRegistry.sol:119-123 | a word encodes a member exactly when it reads as the member's number, an address as that of its 20 bytes |
| Digest.EncodedInPlace | contracts/evm/contracts/src/AlticaRegistry.sol:119-123 | the i-th member of a struct stands in its i-th word |
| Digest.FieldsFollowType | contracts/evm/contracts/src/AlticaRegistry.sol:113-124 | what is encoded are the members that the type text names, in its order, after the type's hash, as EIP-712 asks |
| Digest.TypeLiterals | contracts/evm/utils.go:55-82 | the type texts in the client are those that EIP-712, section "Definition of encodeType", gives for the two structs |
| Digest.DigestOfBuffer | contracts/evm/utils.go:115-118 | the digest is that of 0x19, 0x01, the domain separator and the struct hash, in this order |
| Digest.GoAgreesBelow63Bits | contracts/evm/utils.go:73-74 | Go and Solidity agree on exactly the times below 2^63, otherwise agreement yields a collision |
| Digest.RepresentablePayloads | contracts/evm/utils.go:62-112 | the packed bytes of both sides are equal exactly when both times are below 2^63 |
| Digest.DigestInjectiveUnlessBroken | contracts/evm/contracts/src/AlticaRegistry.sol:113-124 | one digest for two different messages yields a Keccak collision |
| Digest.TypedPayloadInjective | contracts/evm/contracts/src/AlticaRegistry.sol:119-123 | the encoded struct and domain determine the namehash, resolver, times, chain and contract |
| Locks.HeldUntilReleased | core/store.go:260-320 | from a successful acquire until a release with its id the DHT entry stands and no acquire of the name succeeds, whatever any hosts do |
| Locks.ReleaseSucceedsExactlyForHolder | core/store.go:300-320 | in every reachable state locks are mirrored at their taker, and a release returns true exactly for the held id on the host that took it |
| Locks.ForeignReleaseFreesTheLock | core/store.go:306-319 | a release by another host frees the DHT entry, reports failure and leaves the taker's local copy |
| Votes.CountAccepts | core/voting.go:249-254 | the counting loop counts the accepting peers whatever order the map is visited in |
| Votes.AggregateSignatures | core/voting.go:262-278 | the aggregating loops give one point whatever order the map is visited in |
| Votes.ComputeTally | core/voting.go:246-278 | the deciding half of decide gives the result that Tally names, for every pair of visiting orders |
| Votes.AggregateIsAnySum | core/voting.go:262-273 | the sum of the signatures is the same in every order of the votes |
| Votes.CommutativeExchanges | core/voting.go:266-273 | a commutative and associative addition satisfies the only law assumed of it |
| Votes.VoteCounts | core/voting.go:203-227 | a vote is stored with its choice, signature and time as its peer's latest word and counts once, no other vote changes |
| Votes.SubmitKeepsWellFormed | core/voting.go:180-228 | what a vote saves is well formed if what it read was |
| Votes.StoredAreWellFormed | core/voting.go:180-259 | under any stale reads every result ever stored counts its votes, files them under their peers, has the threshold of its online nodes, and decides by strict majority of a quorum |
| Votes.SubmissionQuorum | core/voting.go:248-282 | in any such history a transaction is submitted only with votes of at least n/3 + 1 distinct accepting peers |
| Votes.SubmissionQuorumIsTight | core/voting.go:193 | for every n some history of votes stores a result that attains the bound |
| Votes.TallyAgain | core/voting.go:248-278 | deciding a decided result again gives the same decision and votes |
| Votes.StoredAreAccounted | core/voting.go:180-278 | in any history, however stale the reads, every stored vote is one its peer cast, signature and time included; a result keeps the nodes and the time it began with, and is signed exactly when decided, with the aggregate of its votes' signatures |
| Votes.AggregateIsOfCast | core/voting.go:262-278 | so the signature of a decided result is the sum, in any order, of points that its voters signed their votes with |
| RecordStore.RecordStore.TryAcquireLock | core/store.go:260-297 | the method has the effect and answer of Store.TryAcquireLock |
| RecordStore.RecordStore.ReleaseLock | core/store.go:300-320 | likewise for Store.ReleaseLock, both failing and both freeing cases |
| RecordStore.RecordStore.TryAcquireIndexLock | core/store.go:363-401 | up to five attempts are one attempt when nobody else runs |
| RecordStore.RecordStore.SaveRecord | core/store.go:902-929 | record and namehash entry go to the DHT and the database |
| RecordStore.RecordStore.Get | core/store.go:151-186 | database, then pending, then DHT with caching |
| RecordStore.RecordStore.IsDomainAvailable | core/store.go:217-238 | taken, available, or an error for an emptied key |
| RecordStore.RecordStore.SavePendingRecordToDHT | core/store.go:404-446 | index and pending record under the index lock, the search loop included |
| RecordStore.RecordStore.Add | core/store.go:323-360 | the optional check, the domain lock, the pending record, the lock given back on failure |
| RecordStore.RecordStore.RemoveFromIndex | core/store.go:857-872 | the filtering loop removes the domain and nothing else |
| RecordStore.RecordStore.GetLatest | core/store.go:153-161 | the DHT's record, saved to the database when found |
| RecordStore.RecordStore.Finalize | core/store.go:874-892 | the record saved as confirmed and the store version counted up |
| RecordStore.RecordStore.CleanUp | core/store.go:894-897 | the pending key emptied, then the record's lock and the index lock given back |
| RecordStore.RecordStore.ConfirmRecord | core/store.go:835-899 | the method has the effect of Store.ConfirmRecord |
| RecordStore.RecordStore.RejectRecord | core/store.go:952-995 | the method has the effect of Store.RejectRecord |
| RecordStore.RecordStore.GetByNamehash | core/store.go:932-949 | database entry first, then the DHT's |
| RecordStore.RecordStore.BindAddressResolver | core/store.go:1073-1087 | sets the chain's address on the record found and saves it |
| RecordStore.RecordStore.HandleAddBinding | rpc/records.go:177-245 | edits a confirmed record, saving only a change |
| RecordStore.VotingManager.SubmitVote | core/voting.go:180-228 | the method has the effect and answer of Store.SubmitVote |
| RecordStore.VotingManager.Decide | core/voting.go:246-307 | the method has the effect of Store.Decide in every order of its loops |
| RecordStore.VotingManager.ProcessPendingRecords | core/voting.go:118-172 | the loop decides what it is decision maker for; the failover edits change nothing |
| Lifecycle.AddEffect | core/store.go:323-360 | what Add leaves behind on every view: only its caches when the domain is found or either lock is taken, else lock, index entry and pending record, with the index lock free again |
| Lifecycle.FailedAddChangesNothing | core/store.go:343-346 | an Add that fails, on whatever view and for whatever reason, leaves locks, index, pending records and votes as they were |
| Lifecycle.AddSucceedsExactlyWhen | core/store.go:323-347 | it succeeds exactly when nothing is found, if that is checked, and both locks are free |
| Lifecycle.SettlesExactlyWhen | core/store.go:835-995 | on any view, index lock held or not: a confirmation or rejection succeeds exactly when a record is pending and the index lock free, else it changes nothing; the domain's lock goes exactly if it is the record's |
| Lifecycle.SettleEffect | core/store.go:835-995 | what a confirmation or rejection leaves behind when the record holds its domain's lock |
| Lifecycle.GetAnswers | core/store.go:151-186 | Get finds the pending record of a pending domain, a confirmed record with the DHT's core for a confirmed one, and nothing otherwise |
| Lifecycle.PendingCopyIsPassedOver | core/store.go:151-161 | a database copy marked pending never answers; the DHT's record does and replaces it |
| Lifecycle.ConfirmedAnswerIsCached | core/store.go:151-186 | a node that looked up a confirmed domain answers alike from then on without the DHT |
| Lifecycle.VoteAfterAddMoves | core/store.go:349-356 | when the vote started by Add fails, giving the lock back has no effect |
| Lifecycle.PerformMoves | core/store.go:151-186 | every call keeps the invariant, cores, saved consensus and other hosts' locks, and counts the version up with confirmations |
| Lifecycle.RunKeepsWorldInv | core/store.go:323-360 | the invariant over any run of any calls on any nodes |
| Registration.LifecycleHolds | core/store.go:323-360 | in every reachable state a domain is pending exactly while its lock is held with that record's id, never pending and confirmed, listed once, and confirmed if a consensus is saved |
| Registration.ReachableInv | core/store.go:885-892 | the store versions of all nodes add up to the number of confirmed domains |
| Registration.FirstRegistrationWins | core/store.go:151-186 | once confirmed, a domain keeps owner, keys and signed transaction on every node for ever and cannot be added again |
| Registration.ConsensusIsFinal | core/voting.go:199-201 | a saved consensus never changes and its domain stays confirmed |
| Registration.NamehashLookupAgreesExactlyWhen | core/store.go:932-949 | lookup by namehash does what Get does exactly when the domain is not pending, unless another domain is listed there |
| Registration.NamehashIndexSound | core/store.go:902-949 | in every run of the program's hash: lookups agree, or the two domains break Keccak |
| Registration.RejectUndoesAdd | core/store.go:952-995 | a rejection by any node undoes an Add by any other as far as Get and Add can tell; IsDomainAvailable reports an error |
| Registration.ConfirmedExactlyUnlessChainRefuses | core/voting.go:280-303 | a decided domain is confirmed exactly unless the votes carried and the chain refused |
| Registration.RipeIsReached | core/voting.go:180-228 | from an empty network one registration and one vote reach a state in which the domain is to be decided, carried exactly if the vote accepts |
| Registration.VotesDecideExactlyWhen | core/voting.go:129-149 | before any vote on a new registration, a node's tick settles it exactly when earlier votes are there, make a quorum and name that node as decision maker, and confirms it unless they carry and the chain refuses |
| Ticks.TickDecidesEach | core/voting.go:118-172 | a tick treats every domain as if it were alone: settled exactly if its votes make a quorum and this node is its decision maker, confirmed unless they carry and the chain refuses, otherwise untouched |
| Ticks.ListedInOrder | core/store.go:404-446 | in every run the index lists the pending domains in the order of their latest registrations |
| Ballots.PerformTakes | core/voting.go:180-228 | a ballot on an undecided domain takes its host's place among the votes, and no call does anything else to them |
| Ballots.VoteIsLastCast | core/voting.go:203-227 | in every run of whole calls a host's vote is exactly the last it cast while the domain was undecided, and a host that cast none has none |
| Ballots.ConsensusIsSignedByVoters | core/voting.go:262-278 | in every run a decided domain carries the sum, in any order, of the points its voters signed their last ballots with |
| Registration.ConfirmedIsReached | core/voting.go:118-172 | from an empty network a domain is confirmed, with its consensus saved and a copy on the deciding node only |
| Registration.UncheckedAddSafeExactlyWhen | rpc/records.go:112-148 | adding without the check keeps the invariant exactly when Get would still find nothing |
| Consensus.ConfirmedExactlyWhenDecided | core/voting.go:293-301 | in every reachable state a domain is confirmed exactly when its consensus is saved, and there is a quorum behind it |
| Consensus.UncheckedAddReplacesExactlyWhen | core/voting.go:129-149 | after an unchecked add to a decided domain any node's next decision puts the added record in the confirmed one's place exactly if that node is the saved decision maker, unless the votes carried and the chain refuses; otherwise the confirmed record stays |
| Consensus.ReplacedExactlyWhen | rpc/records.go:112-148 | the same from every reachable state with a confirmed domain, for any two nodes |
| Consensus.ConfirmedIsReplaced | rpc/records.go:112-148 | from an empty network a confirmed record is replaced by a rival's that is added without the check |
| Availability.AvailableExactlyWhen | core/store.go:217-238 | in every run and on every node: taken if Get finds the domain, an error exactly for the others that anyone ever registered in the run, available otherwise |
| Edits.EditTakesEffect | rpc/records.go:190-244 | an edit succeeds exactly on confirmed domains; the editing node then answers with the bindings it had and the edit, a changed record bears the time of the edit and is what a node without a copy answers with, and an edit that changes nothing saves nothing |
| Edits.EditAnsweredExactlyWhen | rpc/records.go:177-245 | a request without a domain, or with an empty value for anything but an address, is refused and does nothing; any other succeeds exactly on confirmed domains |
| Edits.EventTakesEffect | core/store.go:1073-1087 | a NameBound event sets that chain's address in what the handling node answers, and nothing else there |
| Edits.EditReachesSharedExactlyWhen | rpc/records.go:190-244 | the shared record gets the edit and nothing else exactly when the node's copy agrees with it apart from the edit, or, if the copy shows the edit already, exactly when the shared record does too; always without a copy |
| Edits.EventReachesSharedExactlyWhen | core/store.go:1073-1087 | the same for a NameBound event, which always saves the node's copy |
| Edits.EventRevertsEdit | core/store.go:1079-1082 | a node with an older copy handles an event after another node's edit, and the shared record loses the edit |
| Edits.EditIsLost | core/store.go:172-175 | such a run from an empty network of two nodes |
| Edits.NewcomerFindsShared | core/store.go:151-186 | in every reachable state a node without records answers with the shared record |
| Interleaving.IndexUpdatesAreSerial | core/store.go:404-446 | in every interleaving with the index lock free, index and pending records are the finished updates applied one after another, the index lists exactly the pending domains once, and no finished update is missing |
| Interleaving.NextKeepsInv | core/store.go:835-899 | each single read or write keeps the holder's update partial and everyone else's out |
| Stranding.AddIsItsSteps | core/store.go:323-360 | undisturbed, the steps of a registration are the whole call, and with its vote the call and the vote it starts |
| Stranding.RejectIsItsSteps | core/store.go:952-995 | undisturbed, the steps of a rejection are the whole call |
| Stranding.DecideIsItsSteps | core/voting.go:246-307 | undisturbed, the steps of a decision, the saving of the consensus included, are the whole call |
| Stranding.AddPairs | core/store.go:333-347 | a registration up to its vote keeps lock and pending record paired |
| Stranding.SettlePairsExactlyWhen | core/store.go:837-896 | a settling call that read its record earlier keeps them paired exactly when that record still holds the lock or the domain is free |
| Stranding.VotePairsExactlyWhen | core/store.go:349-356 | a registration's vote keeps them paired exactly when no consensus is saved or the registration's lock is gone |
| Stranding.RefusedVoteUnpairs | core/store.go:349-356 | a run in which a registration's own vote, refused, frees the lock of its pending record |
| Stranding.StrandedForGood | core/store.go:333-337 | a lock without pending record or call to free it stays in every continuation, and every later registration of the domain fails |
| Stranding.LateRejectionStrandsDomain | core/store.go:952-995 | for any two records of a domain some run, all votes included, ends with every call finished and the domain stranded, neither pending nor confirmed |
| Stranding.LateConfirmationStrandsDomain | core/store.go:835-896 | the same by a confirmation whose saved consensus a stale vote overwrote, the rejected record being confirmed |
| Pairing.PairedWhenFinished | core/store.go:333-356 | in every interleaving in which no settling call empties the pending key of a record other than its own and no refused vote frees a pending record's lock, lock and pending record are paired whenever all calls about the domain are finished |
| Registry.AlticaRegistry.SubmitBinding | contracts/evm/contracts/src/AlticaRegistry.sol:66-97 | reverts on a stale time (or its 64-bit overflow), a bound name or an unrecoverable signature, else stores a pending binding |
| Registry.SubmitsExactlyWhen | contracts/evm/contracts/src/AlticaRegistry.sol:73-88 | a submission goes through exactly when its message is at most fifteen minutes old, the slot's binding, pending or active, has expired, and the signature over the message's typed-data digest is somebody's |
| Registry.ContractRecoversWhatIsSigned | contracts/evm/contracts/src/AlticaRegistry.sol:82-88 | the contract recovers the signer from the digest that the client computes from the same arguments, for times below 2^63 |
| Registry.AlticaRegistry.UpdateResolver | contracts/evm/contracts/src/AlticaRegistry.sol:99-111 | only the recorded signer, only on an active unexpired binding |
| Registry.AlticaRegistry.FinalizeBinding | contracts/evm/contracts/src/AlticaRegistry.sol:130-141 | the four checks, then active |
| Registry.AlticaRegistry.OracleUnbind | contracts/evm/contracts/src/AlticaRegistry.sol:155-161 | clears both mappings of an expired name, by the owner only |
| Registry.AlticaRegistry.OracleDecideSigner | contracts/evm/contracts/src/AlticaRegistry.sol:163-181 | rejects, or records the signer and finalises with the write undone on a revert |
| Registry.RunKeepsSignedWhenActive | contracts/evm/contracts/src/AlticaRegistry.sol:66-181 | in every reachable state an active binding's signer is the recorded one and not zero |
| Registry.ActiveIsFrozen | contracts/evm/contracts/src/AlticaRegistry.sol:66-181 | signer, expiry and status of an active binding stand until a block past its expiry or a rejection by the owner; only its signer changes its resolver |
| Registry.StandsUntilExpiry | contracts/evm/contracts/src/AlticaRegistry.sol:73-181 | until its expiry a stored binding, pending or active, keeps signer and expiry whatever is submitted, unless the owner rejects it; its resolver changes only by its signer |
| Registry.ExpiredIsFinal | contracts/evm/contracts/src/AlticaRegistry.sol:99-141 | from its expiry on a binding changes only by a submission, an unbind or a rejection |
| Registry.SignerIsWriteOnce | contracts/evm/contracts/src/AlticaRegistry.sol:163-181 | a recorded signer changes only by an unbind, and without one an inactive binding never becomes active |
| Registry.RejectThenUnbindIsFresh | contracts/evm/contracts/src/AlticaRegistry.sol:155-173 | from any state the two calls restore an empty slot and touch no other |
| Registry.SignerIsStandingDecision | contracts/evm/contracts/src/AlticaRegistry.sol:155-181 | the recorded signer is exactly that of an accepted decision no unbind has cleared since |
| Registry.ResolveNeedsDecision | contracts/evm/contracts/src/AlticaRegistry.sol:144-153 | a name resolves only while a decision stands |
| Registry.EventsTellActiveBindings | contracts/evm/contracts/src/AlticaRegistry.sol:99-141 | the last NameBound event of an active name tells its resolver and expiry |
| Registry.EventsTellSigners | contracts/evm/contracts/src/AlticaRegistry.sol:88-181 | in every run the last SubmittedBinding event of a stored binding tells its signer and expiry, and the last SignerBound event of a recorded name its signer |
| Registry.EventsTellStored | contracts/evm/contracts/src/AlticaRegistry.sol:88-173 | in every run without an effective unbind a name has a binding exactly when the last of its SubmittedBinding and DeletedBinding events is a SubmittedBinding |
| Registry.ResolveIsCurrentExactlyWhen | contracts/evm/contracts/src/AlticaRegistry.sol:143-153 | resolve answers for a binding in force exactly when activity and expiry agree, or there is nothing to answer |
| Registry.ExpiredBindingStillResolves | contracts/evm/contracts/src/AlticaRegistry.sol:149-151 | every binding submitted and accepted in time is still resolved after its expiry |
| Registry.StoredResolverWasAskedFor | contracts/evm/contracts/src/AlticaRegistry.sol:66-111 | in every run a stored resolver is one that the binding's signer signed, in a message for this chain and contract, or sent |
| Registry.StoredWasSigned | contracts/evm/contracts/src/AlticaRegistry.sol:66-111 | in every run a stored binding goes back to a submission of its name, signer and expiry over a message the signer had signed at most fifteen minutes before, its resolver being that message's or one the signer sent later and before the expiry |
| Registry.StoredIsSignedMessage | contracts/evm/contracts/src/AlticaRegistry.sol:66-111 | if an address signs only certain messages, every binding stored in its name has the name, expiry and submitted resolver of one of them, for this chain and contract, or Keccak is broken by computed evidence |
| Registry.ForeignAnswerExactlyWhen | contracts/evm/contracts/src/AlticaRegistry.sol:144-153 | resolve answers with the resolver of a signer other than the recorded one exactly for an unexpired pending binding of that signer on a recorded name |
| Oracle.HandleSubmittedBinding | contracts/evm/listener.go:221-296 | four lookups and at most one transaction, as the step of the model |
| Oracle.RunKeepsFaithful | contracts/evm/listener.go:247-284 | only the off-chain record's signer is ever recorded on chain |
| Oracle.ComposedSafety | contracts/evm/listener.go:221-296 | in every reachable state of contract and oracle an active binding has the off-chain signer and is safe until it expires |
| Oracle.ActiveIsSafe | contracts/evm/listener.go:277-284 | whatever is sent and whichever logs are handled again, only the resolver of an active binding changes, by its signer |
| Oracle.HandlingActivatesExactlyWhen | contracts/evm/listener.go:251-284 | the exact condition under which handling a log makes a binding active |
| Oracle.MismatchClearsSlot | contracts/evm/listener.go:251-284 | a log with another signer than the record's clears the slot if no signer is recorded, and changes nothing once one is |
| Oracle.StrangerIsResolved | contracts/evm/listener.go:277-284 | after an accepted binding has expired, a stranger's submission is resolved until it expires, and handling its log changes nothing |
| Oracle.RenewalNeedsUnbind | contracts/evm/listener.go:277-284 | a recorded name that lost its active binding is never activated again without an unbind |
| Listener.EventListener.HandleLogEvent | contracts/evm/listener.go:205-218 | hand over, then save the block, whose failure is ignored |
| Listener.EventListener.Start | contracts/evm/listener.go:134-174 | the replay loop, with saves that may fail and cut off by a crash at any log, takes only steps of the model |
| Listener.StartGoesOn | contracts/evm/listener.go:142-168 | a start goes on from the saved checkpoint, or the deployment block, whether its query succeeds or not |
| Listener.HandsFromCheckpoint | contracts/evm/listener.go:142-174 | whatever happens between one start and the next, no log is handed over from a block before that start's checkpoint |
| Listener.CheckpointFollows | contracts/evm/listener.go:205-218 | the checkpoint becomes the block of a log handed over exactly by the save that follows it |
| Listener.AtLeastOnce | contracts/evm/listener.go:134-218 | with successful queries and crashes anywhere, every log since the deployment below the checkpoint has been handled, and all of them once the subscription has drained |
| Listener.StepHandsInOrder | contracts/evm/listener.go:134-218 | with successful queries each log handed over was handed over before or is the next one |
| Listener.StartKeepsInvExactlyWhen | contracts/evm/listener.go:156-168 | coming up is sound exactly when the query succeeds or nothing before the head is unhandled |
| Listener.FailedQueryLosesExactlyWhen | contracts/evm/listener.go:156-168 | after a failed query some continuation without a restart saves a checkpoint past an unhandled log exactly when there is one in a block from the checkpoint on and before the head |
| Listener.FailedQueryLosesLog | contracts/evm/listener.go:157-160 | for every deployment block a chain and a run that lose a log |
| Versioning.VersionedStore.UpdateRecord | core/store.go:515-580 | the method has the effect of Versioning.Apply on its domain and none on others |
| Versioning.HistoryOfUpdates | core/store.go:544-579 | version is base plus number of updates, latest is the last update with its host, time and hash, each peer's entry is its last update's, metadata equals the record's history |
| Versioning.VersionsAreDistinct | core/store.go:544-558 | entries of different peers differ and none is beyond the latest |
| Gossip.GossipManager.ListenNameBound | core/gossip.go:121-142 | the loop handles the fresh events of whatever stream and remembers their ids |
| Gossip.GossipManager.ListenRecordMessages | core/gossip.go:155-180 | the loop handles every message without an id and the fresh ones of the others, and remembers the ids that are not empty |
| Gossip.FreshIsFirstOccurrences | core/gossip.go:121-142 | what is handled are exactly the first occurrences by id, in order |
| Gossip.HandledOnce | core/gossip.go:134-139 | de-duplicating what was handled changes nothing |
| Gossip.AnonymousAllHandled | core/node.go:346-353 | registration intents carry no id, and none of them is dropped |
| Publishing.EventIdsAgreeExactlyWhen | contracts/evm/listener.go:317 | two event ids are one exactly for one chain, one name and one block |
| Publishing.EventIdReads | contracts/evm/listener.go:317 | split at its colons an id reads as the chain, the name's hash and the block it was made from |
| Publishing.NothingIsLostExactlyWhen | core/gossip.go:134-139 | every published event is handled exactly when no two different NameBound events of one name are on one chain in one block |
| Publishing.SameBlockUpdateIsLost | contracts/evm/contracts/src/AlticaRegistry.sol:99-141 | a run of the contract binds a name twice in a block; the second event is dropped and the node answers with the older resolver, the contract with the newer |
| Publishing.BindAllAnswers | core/store.go:1073-1087 | a node answers for a name and chain with the last event it handled, whatever other events it handled |
| Delivery.InOrderDelivers | core/gossip.go:134-139 | when each delivery is of an item delivered before or of the next, the deliveries have the first occurrences of the items once each |
| Delivery.FleetDeliversInOrder | contracts/evm/listener.go:134-218 | the deliveries of any number of listeners on one chain, crashing and starting again anywhere, are such |
| Delivery.NodeShowsFirstOfBlock | contracts/evm/listener.go:299-335 | in every run of the listeners, one of which is done, a node answers with the first binding logged in a name's last block, so with an active binding's resolver exactly when that is the one logged first |
| Delivery.RepeatsLeaveNoTrace | core/gossip.go:134-139 | without de-duplication the node would answer with the last delivery of the run, so the two agree exactly when that tells the resolver logged first in the name's last block |

## Left out

- Lifecycle.PerformMoves: calls name domains that are lower-case, not empty, without a slash, and not "_index", "*", "." or "..", because locks and pending keys ignore case while record and vote keys do not.
- Lifecycle.RunKeepsWorldInv: DHT and database operations succeed and each call is one step; Interleaving takes the registering, voting, deciding and rejecting calls apart, with taking or giving back a lock as one step.
- Interleaving.IndexUpdatesAreSerial: a failing write between the index and the pending record is not modelled.
- Stranding.DecideIsItsSteps: the lookup before a submission is part of the chain's answer, and what it caches of confirmed records is not a step.
- RecordStore.RecordStore.Add: the vote that Add starts beside itself is a call of its own, Store.VoteAfterAdd.
- RecordStore.RecordStore.HandleAddBinding: splitting a chain from an address and refusing unknown kinds of binding are not modelled.
- RecordStore.VotingManager.Decide: signatures and aggregates that do not decode or encode, for which the code returns an error, are not modelled.
- Votes.AggregateSignatures: the same; a vote holds a point, not its bytes.
- Votes.ComputeTally: the same.
- Registration.ReachableInv: nodes do not restart, which sets the version in memory back.
- Pairing.PairedWhenFinished: no call takes a lock with an id, host and nanosecond, that another call about the domain has had; otherwise that call could free the newer lock before its record is written.
- Registry.StoredIsSignedMessage: what else can be done with a signature in elliptic-curve arithmetic is outside the model; recovery is a parameter.
- Listener.StartKeepsInvExactlyWhen: speaks of the invariant; the loss itself is Listener.FailedQueryLosesExactlyWhen.
- Listener.AtLeastOnce: logs arrive in block order, the chain does not reorganise, and a subscription delivers everything from its first block on.
- Oracle.ComposedSafety: reading the recorded signer and sending the transaction are one step, and the owner decides signers only through the listener.
- Registry.AlticaRegistry.SubmitBinding: payment, gas, initialisation as a proxy and withdraw are not modelled.
- Delivery.NodeShowsFirstOfBlock: all logs come from one chain, gossip reaches the node in the order of publishing and complete, and the text of an address is a parameter of which only its letters, ignoring case, are known.
- Digest.GetDigest: packing into 256-bit words is that of the ABI library the program uses, which is not part of this model.
- Versioning.HistoryOfUpdates: versions are unbounded integers, and updates are whole calls.
- Keys.KeysNeverCollide: lower-casing covers ASCII letters only, and the keys are the DHT's; the database's are in Database.
- Locks.HeldUntilReleased: names are lower-case. In the code the DHT's lock keys ignore case and the copies in pendingLocks do not, so a release of "FOO" with the id of "foo" frees the DHT entry and leaves the copy; likewise below.
- Locks.ReleaseSucceedsExactlyForHolder: the same.
- RecordStore.RecordStore.TryAcquireLock: the same.
- RecordStore.RecordStore.ReleaseLock: the same.
- Database.ComputeStateRoot: the sort by domain is taken as done; the result does not depend on it where nothing is listed.
- Votes.SubmissionQuorum: verification of vote signatures (VerifyVote, VerifyConsensus) is not modelled.
- The choice of a decision maker from the hash of a domain, which may index out of range, is a parameter.
- Time, tickers, retries' waiting and timeouts, the network, gossip transport, RPC decoding other than hexadecimal, and the CLI.
- Metadata other than the time of the last edit, time to live and expiry of records.
- The JSON form of records, bloom filters, SyncFromPeer and core/sync.go: easy members or unused.
- ValidateSignedTx, transaction submission and receipts: one success-or-failure outcome of a decision.
