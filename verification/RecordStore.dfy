/** The objects of core/store.go and core/voting.go: the shared DHT, a node's record store and its
    voting manager.  Every method is proved to do what its function in Store says. */
module RecordStore {
  import opened Bytes
  import opened Options
  import opened Keys
  import opened Store
  import Locks
  import Namehash
  import Votes

  class DistributedTable {
    var locks: Locks.Table
    var index: Option<seq<Bytes>>
    var pending: map<Bytes, Cell>
    var records: map<Bytes, Record>
    var votes: map<Bytes, Votes.VoteResult>
    var namehashes: map<Word, Bytes>

    ghost function Value(): Dht
      reads this
    {
      Dht(locks, index, pending, records, votes, namehashes)
    }

    constructor ()
      ensures Value() == Dht(map[], None, map[], map[], map[], map[])
    {
      locks, index, pending, records, votes, namehashes := map[], None, map[], map[], map[], map[];
    }
  }

  /** The hashing of names that the store uses. */
  function NamesBy(H: Hash): (N: Store.Naming)
    ensures forall name :: N(name) == Namehash.Namehash(H, name)
  {
    name => Namehash.Namehash(H, name)
  }

  class RecordStore {
    const H: Hash
    const dht: DistributedTable
    const hostID: Host
    var pendingLocks: Locks.Table
    var records: map<Bytes, Record>
    var namehashes: map<Word, Bytes>
    var version: int
    var savedVersion: Option<int>

    ghost function Value(): View
      reads this, dht
    {
      View(dht.Value(), Node(hostID, pendingLocks, records, namehashes, version, savedVersion))
    }

    constructor (H: Hash, dht: DistributedTable, hostID: Host)
      ensures this.H == H && this.dht == dht && this.hostID == hostID
      ensures Value() == View(dht.Value(), Node(hostID, map[], map[], map[], 0, None))
    {
      this.H, this.dht, this.hostID := H, dht, hostID;
      pendingLocks, records, namehashes, version, savedVersion := map[], map[], map[], 0, None;
    }

    // ----- locks -----

    method TryAcquireLock(domain: Bytes, now: nat) returns (lockID: Option<LockId>)
      modifies this, dht
      ensures (Value(), lockID) == Store.TryAcquireLock(old(Value()), domain, now)
    {
      if domain in dht.locks {
        return None;
      }
      var id := Locks.LockId(hostID, now);
      dht.locks := dht.locks[domain := id];
      pendingLocks := pendingLocks[domain := id];
      lockID := Some(id);
    }

    method ReleaseLock(domain: Bytes, lockID: LockId) returns (ok: bool)
      modifies this, dht
      ensures (Value(), ok) == Store.ReleaseLock(old(Value()), domain, lockID)
    {
      if domain !in dht.locks || dht.locks[domain] != lockID {
        return false;
      }
      dht.locks := dht.locks - {domain};
      if domain in pendingLocks && pendingLocks[domain] == lockID {
        pendingLocks := pendingLocks - {domain};
        return true;
      }
      return false;
    }

    /** Up to five attempts; with nobody else running either the first one succeeds or none does. */
    method TryAcquireIndexLock(now: nat) returns (lockID: Option<LockId>)
      modifies this, dht
      ensures (Value(), lockID) == Store.TryAcquireLock(old(Value()), INDEX_KEY, now)
    {
      var attempt := 0;
      while attempt < 5
        invariant 0 <= attempt <= 5
        invariant Value() == old(Value())
        invariant attempt > 0 ==> INDEX_KEY in dht.locks
      {
        lockID := TryAcquireLock(INDEX_KEY, now + attempt);
        if lockID.Some? {
          assert pendingLocks == pendingLocks[INDEX_KEY := lockID.value];
          pendingLocks := pendingLocks[INDEX_KEY := lockID.value];
          return;
        }
        attempt := attempt + 1;
      }
      return None;
    }

    // ----- records -----

    method SaveRecord(record: Record)
      modifies this, dht
      ensures Value() == Store.SaveRecord(NamesBy(H), old(Value()), record)
    {
      dht.records := dht.records[record.domain := record];
      records := records[record.domain := record];
      var namehash := Namehash.ComputeNamehash(H, record.domain);
      dht.namehashes := dht.namehashes[namehash := record.domain];
      namehashes := namehashes[namehash := record.domain];
    }

    /** The DHT's record, cached on the way; getLatestVersion inside Get. */
    method GetLatest(domain: Bytes) returns (record: Option<Record>)
      modifies this, dht
      ensures (Value(), record) == Store.GetLatest(NamesBy(H), old(Value()), domain)
    {
      if domain !in dht.records {
        return None;
      }
      record := Some(dht.records[domain]);
      SaveRecord(record.value);
    }

    method Get(domain: Bytes) returns (record: Option<Record>)
      modifies this, dht
      ensures (Value(), record) == Store.Get(NamesBy(H), old(Value()), domain)
    {
      if domain in records {
        if records[domain].status == PendingStatus {
          record := GetLatest(domain);
          return;
        }
        return Some(records[domain]);
      }
      var pending := GetPendingRecordFromDHT(domain);
      if pending.Some? {
        return pending;
      }
      record := GetLatest(domain);
    }

    method GetPendingRecordFromDHT(domain: Bytes) returns (pending: Option<Record>)
      ensures pending == PendingOf(dht.pending, domain)
    {
      if domain !in dht.pending {
        return None;
      }
      match dht.pending[domain]
      case Emptied => return None;
      case Holding(r) => return Some(r);
    }

    method GetPendingDomains() returns (domains: seq<Bytes>, ok: bool)
      ensures domains == PendingDomains(dht.index) && ok == dht.index.Some?
    {
      match dht.index
      case None => return [], false;
      case Some(ds) => return ds, true;
    }

    // ----- registering -----

    method SavePendingRecordToDHT(record: Record, now: nat) returns (ok: bool)
      modifies this, dht
      ensures (Value(), ok) == Store.SavePending(old(Value()), record, now)
    {
      var lockID := TryAcquireIndexLock(now);
      if lockID.None? {
        return false;
      }
      var domains, _ := GetPendingDomains();
      var found, i := false, 0;
      while i < |domains| && !found
        invariant 0 <= i <= |domains|
        invariant found <==> record.domain in domains[..i]
      {
        found := domains[i] == record.domain;
        i := i + 1;
      }
      assert i == |domains| ==> domains[..i] == domains;
      if !found {
        dht.index := Some(domains + [record.domain]);
      }
      dht.pending := dht.pending[record.domain := Holding(record)];
      var _ := ReleaseLock(INDEX_KEY, lockID.value);
      ok := true;
    }

    method Add(record: Record, knownNotFound: bool, t: nat, u: nat) returns (ok: bool)
      modifies this, dht
      ensures (Value(), ok) == Store.Add(NamesBy(H), old(Value()), record, knownNotFound, t, u)
    {
      if !knownNotFound {
        var existing := Get(record.domain);
        if existing.Some? {
          return false;
        }
      }
      var lockID := TryAcquireLock(record.domain, t);
      if lockID.None? {
        return false;
      }
      ok := SavePendingRecordToDHT(record.(status := PendingStatus, lockID := lockID), u);
      if !ok {
        var _ := ReleaseLock(record.domain, lockID.value);
      }
    }

    method RemoveFromIndex(domain: Bytes)
      modifies dht`index
      ensures dht.index == IndexWithout(old(dht.index), domain)
    {
      var domains, _ := GetPendingDomains();
      var newDomains: seq<Bytes> := [];
      for i := 0 to |domains|
        invariant newDomains == Drop(domains[..i], domain)
      {
        assert domains[..i + 1] == domains[..i] + [domains[i]];
        DropSnoc(domains[..i], domains[i], domain);
        if domains[i] != domain {
          newDomains := newDomains + [domains[i]];
        }
      }
      assert domains[..|domains|] == domains;
      dht.index := Some(newDomains);
    }

    /** The confirmed record and the next store version. */
    method Finalize(record: Record)
      modifies this, dht
      ensures Value() == Store.Finalized(NamesBy(H), old(Value()), record)
    {
      SaveRecord(record.(status := Confirmed));
      version := version + 1;
      savedVersion := Some(version);
    }

    /** The pending key is emptied, then the domain's lock and the index lock are given back. */
    method CleanUp(domain: Bytes, record: Record, indexLock: LockId)
      modifies this, dht
      ensures Value() == Store.CleanedUp(old(Value()), domain, record.lockID, indexLock)
    {
      dht.pending := dht.pending[domain := Emptied];
      if record.lockID.Some? {
        var _ := ReleaseLock(domain, record.lockID.value);
      }
      var _ := ReleaseLock(INDEX_KEY, indexLock);
    }

    method ConfirmRecord(domain: Bytes, now: nat) returns (ok: bool)
      modifies this, dht
      ensures (Value(), ok) == Store.ConfirmRecord(NamesBy(H), old(Value()), domain, now)
    {
      var pending := GetPendingRecordFromDHT(domain);
      if pending.None? {
        return false;
      }
      var lockID := TryAcquireIndexLock(now);
      if lockID.None? {
        return false;
      }
      RemoveFromIndex(domain);
      Finalize(pending.value);
      CleanUp(domain, pending.value, lockID.value);
      ok := true;
    }

    method RejectRecord(domain: Bytes, now: nat) returns (ok: bool)
      modifies this, dht
      ensures (Value(), ok) == Store.RejectRecord(NamesBy(H), old(Value()), domain, now)
    {
      var pending := GetPendingRecordFromDHT(domain);
      if pending.None? {
        return false;
      }
      var lockID := TryAcquireIndexLock(now);
      if lockID.None? {
        return false;
      }
      RemoveFromIndex(domain);
      CleanUp(domain, pending.value, lockID.value);
      ok := true;
    }

    // ----- lookups and edits -----

    method IsDomainAvailable(domain: Bytes) returns (answer: Availability)
      modifies this, dht
      ensures answer == Store.IsDomainAvailable(NamesBy(H), old(Value()), domain)
      ensures Value() == Store.Get(NamesBy(H), old(Value()), domain).0
    {
      var found := Get(domain);
      if found.Some? {
        return Taken;
      }
      if domain !in dht.pending {
        return Available;
      }
      return LookupError;
    }

    method GetByNamehash(namehash: Word) returns (record: Option<Record>)
      modifies this, dht
      ensures (Value(), record) == Store.GetByNamehash(NamesBy(H), old(Value()), namehash)
    {
      if namehash in namehashes {
        record := Get(namehashes[namehash]);
        return;
      }
      if namehash in dht.namehashes {
        record := Get(dht.namehashes[namehash]);
        return;
      }
      return None;
    }

    method BindAddressResolver(namehash: Word, chainID: nat, resolver: Bytes) returns (ok: bool)
      modifies this, dht
      ensures (Value(), ok) == Store.BindAddressResolver(NamesBy(H), old(Value()), namehash, chainID, resolver)
    {
      var record := GetByNamehash(namehash);
      if record.None? {
        return false;
      }
      var addresses := record.value.bindings.addresses[chainID := resolver];
      SaveRecord(record.value.(bindings := record.value.bindings.(addresses := addresses)));
      ok := true;
    }

    method HandleAddBinding(domain: Bytes, edit: Edit, now: nat) returns (answer: Option<Record>)
      modifies this, dht
      ensures (Value(), answer) == Store.AddBinding(NamesBy(H), old(Value()), domain, edit, now)
    {
      if domain == "" || Incomplete(edit) {
        return None;
      }
      var found := Get(domain);
      if found.None? || found.value.status != Confirmed {
        return None;
      }
      var record, updated := found.value, false;
      match edit {
        case SetA(x) =>
          if record.bindings.a != x {
            record, updated := record.(bindings := record.bindings.(a := x)), true;
          }
        case SetTxt(x) =>
          if record.bindings.txt != x {
            record, updated := record.(bindings := record.bindings.(txt := x)), true;
          }
        case SetContentHash(x) =>
          if record.bindings.contentHash != x {
            record, updated := record.(bindings := record.bindings.(contentHash := x)), true;
          }
        case SetAddress(chain, x) =>
          if (if chain in record.bindings.addresses then record.bindings.addresses[chain] else "") != x {
            record, updated := WithAddress(record, chain, x), true;
          }
      }
      if updated {
        record := record.(updatedAt := Some(now));
        SaveRecord(record);
      }
      answer := Some(record);
    }
  }

  class VotingManager {
    const store: RecordStore
    const curve: Votes.Curve

    constructor (store: RecordStore, curve: Votes.Curve)
      ensures this.store == store && this.curve == curve
    {
      this.store, this.curve := store, curve;
    }

    method SubmitVote(domain: Bytes, decision: bool, signature: Votes.Point,
                      onlineNodes: nat, decisionMaker: Host, now: int)
      returns (ok: bool)
      modifies store.dht
      ensures (store.Value(), ok) ==
              Store.SubmitVote(old(store.Value()), domain,
                               Votes.Ballot(store.hostID, decision, signature, onlineNodes, decisionMaker, now))
    {
      var result: Votes.VoteResult;
      if domain in store.dht.votes {
        result := store.dht.votes[domain];
      } else {
        result := Votes.VoteResult(domain, map[], (onlineNodes * 2) / 3, 0, false, false, None,
                                   onlineNodes, decisionMaker, now, 0);
      }
      if result.consensus || result.decision {
        return false;
      }
      var vote := Votes.Vote(result.domain, store.hostID, decision, signature, now);
      result := result.(votes := result.votes[store.hostID := vote]);
      result := result.(totalVotes := |result.votes|);
      store.dht.votes := store.dht.votes[result.domain := result];
      ok := true;
    }

    /** The peers of a map of votes, in whatever order it yields them. */
    method VisitOrder(votes: map<Host, Votes.Vote>) returns (order: seq<Host>)
      ensures Votes.IsOrder(order, votes)
    {
      order := [];
      var rest := votes.Keys;
      while rest != {}
        invariant rest <= votes.Keys
        invariant forall i, j :: 0 <= i < j < |order| ==> order[i] != order[j]
        invariant forall p :: p in order <==> p in votes && p !in rest
      {
        var p :| p in rest;
        rest := rest - {p};
        order := order + [p];
      }
    }

    method Decide(result: Votes.VoteResult, chainOk: bool, now: nat)
      requires Votes.Exchanges(curve)
      modifies store, store.dht
      ensures store.Value() == Store.Decide(NamesBy(store.H), curve, old(store.Value()), result, Outcome(chainOk, now))
    {
      if !(result.totalVotes >= result.threshold) {
        return;
      }
      var countOrder := VisitOrder(result.votes);
      var signOrder := VisitOrder(result.votes);
      var tallied := Votes.ComputeTally(curve, result, countOrder, signOrder);
      if tallied.decision {
        var record := store.Get(tallied.domain);
        if record.None? || !chainOk {
          var _ := store.RejectRecord(tallied.domain, now);
          return;
        }
      }
      store.dht.votes := store.dht.votes[tallied.domain := tallied];
      var _ := store.ConfirmRecord(tallied.domain, now);
    }

    /** One pass over the pending domains.  The new decision maker or attempt that is noted for an
        unavailable one is never saved. */
    method ProcessPendingRecords(online: set<Host>, replacement: Host, now: int, outcomes: Bytes -> Outcome)
      requires Votes.Exchanges(curve)
      modifies store, store.dht
      ensures store.Value() == Store.Process(NamesBy(store.H), curve, old(store.Value()), outcomes)
    {
      var domains, ok := store.GetPendingDomains();
      if !ok {
        return;
      }
      var i := 0;
      while i < |domains|
        invariant 0 <= i <= |domains|
        invariant ProcessAll(NamesBy(store.H), curve, store.Value(), domains[i..], outcomes)
               == ProcessAll(NamesBy(store.H), curve, old(store.Value()), domains, outcomes)
      {
        var domain := domains[i];
        assert domains[i..][1..] == domains[i + 1..];
        i := i + 1;
        if domain !in store.dht.votes {
          continue;
        }
        var result := store.dht.votes[domain];
        if store.hostID == result.decisionMaker {
          if result.totalVotes >= result.threshold {
            var o := outcomes(domain);
            Decide(result, o.chainOk, o.nanos);
          }
          continue;
        }
        if result.decisionMaker !in online || now - result.lastUpdated > 30_000_000_000 {
          if result.attempts >= 3 {
            result := result.(decisionMaker := replacement, attempts := 0);
          } else {
            result := result.(attempts := result.attempts + 1);
          }
          result := result.(lastUpdated := now);
        }
      }
    }
  }
}
