/** What each call of core/store.go and core/voting.go does to the shared DHT and to the node it
    runs on, as functions.  DHT and database operations succeed; Keys.KeysNeverCollide is why the
    flat key space may be kept as one map per kind of entry. */
module Store {
  import opened Bytes
  import opened Options
  import opened Keys
  import Locks
  import Votes

  type LockId = Locks.LockId

  /** How names are hashed for the namehash index; the program uses Namehash.Namehash. */
  type Naming = Bytes -> Word

  datatype Status = Unset | PendingStatus | Confirmed

  datatype Binding = Binding(addresses: map<nat, Bytes>, contentHash: Bytes, txt: Bytes, a: Bytes)

  datatype Record = Record(
    domain: Bytes, signer: Address, publicKey: Bytes, signature: Bytes, signedTx: Bytes,
    status: Status, lockID: Option<LockId>, bindings: Binding, updatedAt: Option<nat>)

  /** The value under a pending key once it was written: empty bytes, which do not parse, or a record. */
  datatype Cell = Emptied | Holding(record: Record)

  datatype Dht = Dht(
    locks: Locks.Table, index: Option<seq<Bytes>>, pending: map<Bytes, Cell>,
    records: map<Bytes, Record>, votes: map<Bytes, Votes.VoteResult>, namehashes: map<Word, Bytes>)

  /** A node's own state: its pendingLocks, the records and namehash entries of its database, and the
      store version in memory and in the database. */
  datatype Node = Node(
    host: Host, locks: Locks.Table, records: map<Bytes, Record>, namehashes: map<Word, Bytes>,
    version: int, savedVersion: Option<int>)

  datatype View = View(dht: Dht, node: Node)

  // ----- reading -----

  function PendingOf(pending: map<Bytes, Cell>, d: Bytes): Option<Record> {
    if d in pending && pending[d].Holding? then Some(pending[d].record) else None
  }

  /** GetPendingDomains; a missing index reads as an empty one. */
  function PendingDomains(index: Option<seq<Bytes>>): seq<Bytes> {
    if index.Some? then index.value else []
  }

  // ----- locks -----

  function LockSide(v: View): Locks.Side {
    Locks.Side(v.dht.locks, v.node.locks)
  }

  function WithLocks(v: View, l: Locks.Side): View {
    View(v.dht.(locks := l.shared), v.node.(locks := l.mine))
  }

  function TryAcquireLock(v: View, name: Bytes, nanos: nat): (View, Option<LockId>) {
    var (l, id) := Locks.Acquire(LockSide(v), v.node.host, name, nanos);
    (WithLocks(v, l), id)
  }

  function ReleaseLock(v: View, name: Bytes, id: LockId): (View, bool) {
    var (l, ok) := Locks.Release(LockSide(v), name, id);
    (WithLocks(v, l), ok)
  }

  /** Releasing with the lock id of a record, which may be missing. */
  function ReleaseRecordLock(v: View, name: Bytes, id: Option<LockId>): View {
    if id.Some? then ReleaseLock(v, name, id.value).0 else v
  }

  // ----- records -----

  function SaveRecord(N: Naming, v: View, r: Record): View {
    var h := N(r.domain);
    View(v.dht.(records := v.dht.records[r.domain := r], namehashes := v.dht.namehashes[h := r.domain]),
         v.node.(records := v.node.records[r.domain := r], namehashes := v.node.namehashes[h := r.domain]))
  }

  /** getLatestVersion inside Get: the DHT's record, cached on the way. */
  function GetLatest(N: Naming, v: View, d: Bytes): (View, Option<Record>) {
    if d in v.dht.records then (SaveRecord(N, v, v.dht.records[d]), Some(v.dht.records[d])) else (v, None)
  }

  /** Get: the database, then the pending records, then the DHT; a pending record in the database is
      passed over for the DHT's. */
  function Get(N: Naming, v: View, d: Bytes): (View, Option<Record>) {
    if d in v.node.records then
      if v.node.records[d].status == PendingStatus then GetLatest(N, v, d) else (v, Some(v.node.records[d]))
    else if PendingOf(v.dht.pending, d).Some? then (v, PendingOf(v.dht.pending, d))
    else GetLatest(N, v, d)
  }

  datatype Availability = Available | Taken | LookupError

  /** IsDomainAvailable: an emptied pending key does not parse, and that is not "not found". */
  function IsDomainAvailable(N: Naming, v: View, d: Bytes): Availability {
    if Get(N, v, d).1.Some? then Taken
    else if d !in v.dht.pending then Available
    else LookupError
  }

  // ----- the pending index -----

  function IndexWith(index: Option<seq<Bytes>>, d: Bytes): Option<seq<Bytes>> {
    var domains := PendingDomains(index);
    if d in domains then index else Some(domains + [d])
  }

  function Drop(domains: seq<Bytes>, d: Bytes): (rest: seq<Bytes>)
    ensures forall e :: e in rest <==> e in domains && e != d
  {
    if domains == [] then []
    else if domains[0] == d then Drop(domains[1..], d)
    else [domains[0]] + Drop(domains[1..], d)
  }

  lemma {:induction false} DropSnoc(domains: seq<Bytes>, e: Bytes, d: Bytes)
    ensures Drop(domains + [e], d) == Drop(domains, d) + (if e == d then [] else [e])
  {
    if domains != [] {
      assert (domains + [e])[1..] == domains[1..] + [e];
      DropSnoc(domains[1..], e, d);
    } else {
      assert [e][1..] == [];
    }
  }

  function IndexWithout(index: Option<seq<Bytes>>, d: Bytes): Option<seq<Bytes>> {
    Some(Drop(PendingDomains(index), d))
  }

  // ----- registering -----

  function SavePending(v: View, r: Record, nanos: nat): (View, bool) {
    var (v1, id) := TryAcquireLock(v, INDEX_KEY, nanos);
    if id.None? then (v1, false)
    else
      var dht := v1.dht.(index := IndexWith(v1.dht.index, r.domain),
                         pending := v1.dht.pending[r.domain := Holding(r)]);
      (ReleaseLock(View(dht, v1.node), INDEX_KEY, id.value).0, true)
  }

  /** Add, up to the vote it leaves to a goroutine; t and u are the times of its two locks. */
  function Add(N: Naming, v: View, r: Record, knownNotFound: bool, t: nat, u: nat): (View, bool) {
    var (v0, existing) := if knownNotFound then (v, None) else Get(N, v, r.domain);
    if existing.Some? then (v0, false)
    else
      var (v1, id) := TryAcquireLock(v0, r.domain, t);
      if id.None? then (v1, false)
      else
        var (v2, saved) := SavePending(v1, r.(status := PendingStatus, lockID := id), u);
        if saved then (v2, true) else (ReleaseLock(v2, r.domain, id.value).0, false)
  }

  /** The common part of ConfirmRecord and RejectRecord: take the domain out of the index, then empty
      its pending key and free its lock; Confirm saves the record in between. */
  function Settle(N: Naming, v: View, d: Bytes, confirm: bool, nanos: nat): (View, bool) {
    var pending := PendingOf(v.dht.pending, d);
    if pending.None? then (v, false)
    else
      var (v1, id) := TryAcquireLock(v, INDEX_KEY, nanos);
      if id.None? then (v1, false)
      else
        var v2 := View(v1.dht.(index := IndexWithout(v1.dht.index, d)), v1.node);
        var v3 := if confirm then Finalized(N, v2, pending.value) else v2;
        (CleanedUp(v3, d, pending.value.lockID, id.value), true)
  }

  /** Emptying the pending key and giving back the domain's lock and then the index lock. */
  function CleanedUp(v: View, d: Bytes, recordLock: Option<LockId>, indexLock: LockId): View {
    var v' := View(v.dht.(pending := v.dht.pending[d := Emptied]), v.node);
    ReleaseLock(ReleaseRecordLock(v', d, recordLock), INDEX_KEY, indexLock).0
  }

  /** Saving the confirmed record and counting the store version up. */
  function Finalized(N: Naming, v: View, r: Record): View {
    var v' := SaveRecord(N, v, r.(status := Confirmed));
    var version := v'.node.version + 1;
    View(v'.dht, v'.node.(version := version, savedVersion := Some(version)))
  }

  function ConfirmRecord(N: Naming, v: View, d: Bytes, nanos: nat): (View, bool) {
    Settle(N, v, d, true, nanos)
  }

  function RejectRecord(N: Naming, v: View, d: Bytes, nanos: nat): (View, bool) {
    Settle(N, v, d, false, nanos)
  }

  // ----- lookups by namehash and edits of records -----

  function GetByNamehash(N: Naming, v: View, h: Word): (View, Option<Record>) {
    if h in v.node.namehashes then Get(N, v, v.node.namehashes[h])
    else if h in v.dht.namehashes then Get(N, v, v.dht.namehashes[h])
    else (v, None)
  }

  function WithAddress(r: Record, chain: nat, address: Bytes): Record {
    r.(bindings := r.bindings.(addresses := r.bindings.addresses[chain := address]))
  }

  /** BindAddressResolver, for a NameBound event of some chain. */
  function BindAddressResolver(N: Naming, v: View, h: Word, chain: nat, resolver: Bytes): (View, bool) {
    var (v1, r) := GetByNamehash(N, v, h);
    if r.None? then (v1, false) else (SaveRecord(N, v1, WithAddress(r.value, chain, resolver)), true)
  }

  datatype Edit =
    | SetA(value: Bytes) | SetTxt(value: Bytes) | SetContentHash(value: Bytes)
    | SetAddress(chain: nat, value: Bytes)

  function Edited(r: Record, e: Edit): Record {
    match e
    case SetA(x) => r.(bindings := r.bindings.(a := x))
    case SetTxt(x) => r.(bindings := r.bindings.(txt := x))
    case SetContentHash(x) => r.(bindings := r.bindings.(contentHash := x))
    case SetAddress(chain, x) => WithAddress(r, chain, x)
  }

  /** A parameter without a value is refused; an address is given after its chain and may be empty. */
  predicate Incomplete(e: Edit) {
    !e.SetAddress? && e.value == ""
  }

  /** Whether the edit changes the record; a chain without an address reads as the empty address. */
  predicate Changes(r: Record, e: Edit) {
    match e
    case SetA(x) => r.bindings.a != x
    case SetTxt(x) => r.bindings.txt != x
    case SetContentHash(x) => r.bindings.contentHash != x
    case SetAddress(chain, x) => (if chain in r.bindings.addresses then r.bindings.addresses[chain] else "") != x
  }

  /** handleAddBinding of rpc/records.go, on parsed parameters: only a confirmed record may be edited,
      and only an edit that changes something is saved. */
  function AddBinding(N: Naming, v: View, d: Bytes, e: Edit, now: nat): (View, Option<Record>) {
    if d == "" || Incomplete(e) then (v, None)
    else
      var (v1, r) := Get(N, v, d);
      if r.None? || r.value.status != Confirmed then (v1, None)
      else if !Changes(r.value, e) then (v1, r)
      else
        var saved := Edited(r.value, e).(updatedAt := Some(now));
        (SaveRecord(N, v1, saved), Some(saved))
  }

  // ----- voting -----

  function SubmitVote(v: View, d: Bytes, b: Votes.Ballot): (View, bool) {
    var read := if d in v.dht.votes then Some(v.dht.votes[d]) else None;
    match Votes.Submit(read, d, b)
    case None => (v, false)
    case Some(result) => (View(v.dht.(votes := v.dht.votes[result.domain := result]), v.node), true)
  }

  /** The goroutine Add starts: an accepting vote, and the lock given back if it fails. */
  function VoteAfterAdd(v: View, d: Bytes, id: LockId, b: Votes.Ballot): View {
    var (v1, ok) := SubmitVote(v, d, b.(decision := true));
    if ok then v1 else ReleaseLock(v1, d, id).0
  }

  /** What the outside world contributes to a decision: whether the chain takes the signed
      transaction, and the time of the index lock. */
  datatype Outcome = Outcome(chainOk: bool, nanos: nat)

  /** decide: only the submission depends on the majority; the record is confirmed on a reject majority
      too, and rejected only when a submission fails. */
  ghost function Decide(N: Naming, c: Votes.Curve, v: View, r: Votes.VoteResult, o: Outcome): View {
    if !Votes.HasQuorum(r) then v
    else
      var tallied := Votes.Tally(c, r);
      var (v1, record) := if tallied.decision then Get(N, v, r.domain) else (v, None);
      if tallied.decision && (record.None? || !o.chainOk) then RejectRecord(N, v1, r.domain, o.nanos).0
      else
        var v2 := View(v1.dht.(votes := v1.dht.votes[r.domain := tallied]), v1.node);
        ConfirmRecord(N, v2, r.domain, o.nanos).0
  }

  /** The body of the loop of processPendingRecords.  What it does about an absent decision maker
      changes a result that is never saved. */
  ghost function ProcessOne(N: Naming, c: Votes.Curve, v: View, d: Bytes, o: Outcome): View {
    if d in v.dht.votes && v.dht.votes[d].decisionMaker == v.node.host
    then Decide(N, c, v, v.dht.votes[d], o)
    else v
  }

  ghost function ProcessAll(N: Naming, c: Votes.Curve, v: View, domains: seq<Bytes>, outcomes: Bytes -> Outcome): View
    decreases |domains|
  {
    if domains == [] then v
    else ProcessAll(N, c, ProcessOne(N, c, v, domains[0], outcomes(domains[0])), domains[1..], outcomes)
  }

  /** processPendingRecords, over the index as it was read at the start. */
  ghost function Process(N: Naming, c: Votes.Curve, v: View, outcomes: Bytes -> Outcome): View {
    ProcessAll(N, c, v, PendingDomains(v.dht.index), outcomes)
  }
}
