/** The registration protocol over whole runs: any number of nodes, each call one step, no failures of
    the DHT or a database.  What is always true, and what a caller may rely on. */
module Lifecycle {
  import opened Bytes
  import opened Options
  import opened Keys
  import opened Store
  import Locks
  import Votes

  // ----- what is kept of a record by every edit -----

  datatype Core = Core(
    domain: Bytes, signer: Address, publicKey: Bytes, signature: Bytes, signedTx: Bytes,
    status: Status, lockID: Option<LockId>)

  function CoreOf(r: Record): Core {
    Core(r.domain, r.signer, r.publicKey, r.signature, r.signedTx, r.status, r.lockID)
  }

  // ----- the invariant -----

  ghost predicate NoDuplicates(s: seq<Bytes>) {
    forall i, j :: 0 <= i < j < |s| ==> s[i] != s[j]
  }

  /** Between calls the index lock is free, and the index lists each pending domain once. */
  ghost predicate IndexInv(locks: Locks.Table, index: Option<seq<Bytes>>, pending: map<Bytes, Cell>) {
    && INDEX_KEY !in locks
    && NoDuplicates(PendingDomains(index))
    && forall d :: d in PendingDomains(index) <==> PendingOf(pending, d).Some?
  }

  /** A domain's lock is held exactly while a record is pending for it, with that record's lock id, and
      no domain is both pending and confirmed. */
  ghost predicate PendingInv(locks: Locks.Table, pending: map<Bytes, Cell>, confirmed: set<Bytes>) {
    && (forall d :: d in locks ==> PendingOf(pending, d).Some?)
    && forall d :: PendingOf(pending, d).Some? ==> PendingFits(locks, PendingOf(pending, d).value, confirmed, d)
  }

  ghost predicate PendingFits(locks: Locks.Table, r: Record, confirmed: set<Bytes>, d: Bytes) {
    && r.domain == d && d != INDEX_KEY && r.status == PendingStatus
    && d in locks && r.lockID == Some(locks[d])
    && d !in confirmed
  }

  /** Records of the DHT are confirmed and listed under their namehashes. */
  ghost predicate RecordInv(N: Naming, records: map<Bytes, Record>, namehashes: map<Word, Bytes>) {
    && (forall d :: d in records ==> records[d].domain == d && records[d].status == Confirmed)
    && (forall d {:trigger N(d)} :: d in records ==> N(d) in namehashes)
    && (forall h :: h in namehashes ==> N(namehashes[h]) == h && namehashes[h] in records)
  }

  /** A saved consensus means the domain is confirmed. */
  ghost predicate VoteInv(votes: map<Bytes, Votes.VoteResult>, confirmed: set<Bytes>) {
    forall d :: d in votes ==>
      && votes[d].domain == d && Votes.WellFormed(votes[d])
      && (votes[d].consensus ==> d in confirmed)
  }

  ghost predicate DhtInv(N: Naming, dht: Dht) {
    && IndexInv(dht.locks, dht.index, dht.pending)
    && PendingInv(dht.locks, dht.pending, dht.records.Keys)
    && RecordInv(N, dht.records, dht.namehashes)
    && VoteInv(dht.votes, dht.records.Keys)
  }

  /** A node's database caches records of the DHT, perhaps with older bindings; each has a namehash entry
      there, and the entries point into it; its local locks are its own and mirror the DHT's. */
  ghost predicate NodeInv(N: Naming, dht: Dht, node: Node) {
    && (forall d :: d in node.records ==> d in dht.records && CoreOf(node.records[d]) == CoreOf(dht.records[d]))
    && (forall h :: h in node.namehashes ==>
          N(node.namehashes[h]) == h && node.namehashes[h] in node.records)
    && (forall d {:trigger N(d)} :: d in node.records ==> N(d) in node.namehashes)
    && (forall name :: name in node.locks ==> node.locks[name].host == node.host)
    && (forall name :: name in dht.locks && dht.locks[name].host == node.host ==>
          name in node.locks && node.locks[name] == dht.locks[name])
  }

  ghost predicate Inv(N: Naming, v: View) {
    DhtInv(N, v.dht) && NodeInv(N, v.dht, v.node)
  }

  /** What a call on one host leaves alone: cores of records, saved consensus, locks of other hosts. */
  ghost predicate Extends(dht: Dht, dht': Dht, actor: Host) {
    && (forall d :: d in dht.records ==> d in dht'.records && CoreOf(dht'.records[d]) == CoreOf(dht.records[d]))
    && (forall d :: d in dht.votes && dht.votes[d].consensus ==> d in dht'.votes && dht'.votes[d] == dht.votes[d])
    && (forall name :: name in dht'.locks && dht'.locks[name].host != actor ==>
          name in dht.locks && dht.locks[name] == dht'.locks[name])
  }

  /** The node's store version counts up with every domain that becomes confirmed, and is saved. */
  ghost predicate CountsUp(v: View, v': View) {
    && v'.node.version - v.node.version == |v'.dht.records| - |v.dht.records|
    && (v'.node.version != v.node.version ==> v'.node.savedVersion == Some(v'.node.version))
    && (v'.node.version == v.node.version ==> v'.node.savedVersion == v.node.savedVersion)
    && v.node.version <= v'.node.version
  }

  ghost predicate Moves(N: Naming, v: View, v': View) {
    Inv(N, v') && Extends(v.dht, v'.dht, v.node.host) && v'.node.host == v.node.host && CountsUp(v, v')
  }

  lemma ExtendsKeepsNode(N: Naming, dht: Dht, dht': Dht, actor: Host, node: Node)
    requires Extends(dht, dht', actor) && NodeInv(N, dht, node) && node.host != actor
    ensures NodeInv(N, dht', node)
  {
  }

  // ----- saving and reading a record -----

  lemma SaveKeepsRecords(N: Naming, records: map<Bytes, Record>, namehashes: map<Word, Bytes>, r: Record)
    requires RecordInv(N, records, namehashes) && r.status == Confirmed
    ensures RecordInv(N, records[r.domain := r], namehashes[N(r.domain) := r.domain])
    ensures r.domain in records ==> records[r.domain := r].Keys == records.Keys
  {
  }

  lemma SaveKeepsNode(N: Naming, v: View, r: Record)
    requires NodeInv(N, v.dht, v.node) && r.domain in v.dht.records && CoreOf(r) == CoreOf(v.dht.records[r.domain])
    ensures var v' := SaveRecord(N, v, r); NodeInv(N, v'.dht, v'.node)
  {
  }

  lemma SaveMoves(N: Naming, v: View, r: Record)
    requires Inv(N, v) && r.domain in v.dht.records && CoreOf(r) == CoreOf(v.dht.records[r.domain])
    ensures Moves(N, v, SaveRecord(N, v, r))
  {
    var v' := SaveRecord(N, v, r);
    assert r.status == Confirmed;
    SaveKeepsRecords(N, v.dht.records, v.dht.namehashes, r);
    SaveKeepsNode(N, v, r);
    SaveExtends(N, v, r);
    assert |v'.dht.records| == |v'.dht.records.Keys| && |v.dht.records| == |v.dht.records.Keys|;
  }

  lemma SaveExtends(N: Naming, v: View, r: Record)
    requires r.domain in v.dht.records && CoreOf(r) == CoreOf(v.dht.records[r.domain])
    ensures Extends(v.dht, SaveRecord(N, v, r).dht, v.node.host)
  {
  }

  /** What Get answers: the pending record of a pending domain, a confirmed record with the DHT's core
      for a confirmed one, and nothing otherwise. */
  lemma GetAnswers(N: Naming, v: View, d: Bytes)
    requires Inv(N, v)
    ensures var r := Get(N, v, d).1;
            if PendingOf(v.dht.pending, d).Some? then r == PendingOf(v.dht.pending, d)
            else if d in v.dht.records then r.Some? && CoreOf(r.value) == CoreOf(v.dht.records[d])
            else r == None
    ensures Get(N, v, d).0 == v || (d in v.dht.records && Get(N, v, d).0 == SaveRecord(N, v, v.dht.records[d]))
  {
  }

  /** Get changes nothing but the caches it fills. */
  lemma GetMoves(N: Naming, v: View, d: Bytes)
    requires Inv(N, v)
    ensures Moves(N, v, Get(N, v, d).0)
    ensures Get(N, v, d).0.dht == v.dht.(namehashes := Get(N, v, d).0.dht.namehashes)
    ensures Get(N, v, d).0.node.locks == v.node.locks
  {
    GetAnswers(N, v, d);
    if Get(N, v, d).0 != v {
      SaveMoves(N, v, v.dht.records[d]);
      assert v.dht.records[d := v.dht.records[d]] == v.dht.records;
    }
  }

  lemma {:induction false} DropsOnly(s: seq<Bytes>, d: Bytes)
    requires NoDuplicates(s)
    ensures NoDuplicates(Drop(s, d))
  {
    if s != [] {
      DropsOnly(s[1..], d);
      assert s[0] !in s[1..];
    }
  }

  lemma {:induction false} DropAbsent(s: seq<Bytes>, d: Bytes)
    requires d !in s
    ensures Drop(s, d) == s && Drop(s + [d], d) == s
  {
    if s == [] {
      assert [d][1..] == [];
    } else {
      DropAbsent(s[1..], d);
      assert (s + [d])[1..] == s[1..] + [d];
    }
  }

  lemma AddRemove<K, V>(m: map<K, V>, k: K, x: V)
    ensures m[k := x] - {k} == m - {k}
    ensures k !in m ==> m[k := x] - {k} == m
  {
  }

  /** Taking the index lock and giving it back. */
  lemma IndexLockRoundTrip(v: View, dht: Dht, nanos: nat)
    requires INDEX_KEY !in v.dht.locks
    ensures var (v1, id) := TryAcquireLock(v, INDEX_KEY, nanos);
            && id.Some? && v1 == View(v.dht.(locks := v1.dht.locks), v.node.(locks := v1.node.locks))
            && (dht.locks == v1.dht.locks ==>
                  ReleaseLock(View(dht, v1.node), INDEX_KEY, id.value).0
                  == View(dht.(locks := v.dht.locks), v.node.(locks := v.node.locks - {INDEX_KEY})))
  {
    var id := Locks.LockId(v.node.host, nanos);
    AddRemove(v.dht.locks, INDEX_KEY, id);
    AddRemove(v.node.locks, INDEX_KEY, id);
  }

  lemma SavePendingEffect(v: View, r: Record, nanos: nat)
    requires INDEX_KEY !in v.dht.locks
    ensures SavePending(v, r, nanos) ==
            (View(v.dht.(index := IndexWith(v.dht.index, r.domain), pending := v.dht.pending[r.domain := Holding(r)]),
                  v.node.(locks := v.node.locks - {INDEX_KEY})), true)
  {
    var v1 := TryAcquireLock(v, INDEX_KEY, nanos).0;
    var dht := v1.dht.(index := IndexWith(v1.dht.index, r.domain),
                       pending := v1.dht.pending[r.domain := Holding(r)]);
    IndexLockRoundTrip(v, dht, nanos);
  }

  function Registered(r: Record, host: Host, t: nat): Record {
    r.(status := PendingStatus, lockID := Some(Locks.LockId(host, t)))
  }

  /** What Add does once its check has passed and the lock is free. */
  function AfterAdd(v: View, r: Record, t: nat): View {
    var id := Locks.LockId(v.node.host, t);
    View(v.dht.(locks := v.dht.locks[r.domain := id], index := IndexWith(v.dht.index, r.domain),
                pending := v.dht.pending[r.domain := Holding(Registered(r, v.node.host, t))]),
         v.node.(locks := v.node.locks[r.domain := id] - {INDEX_KEY}))
  }

  lemma GetKeepsPending(N: Naming, v: View, d: Bytes)
    ensures var v' := Get(N, v, d).0;
            && v'.dht.(records := v.dht.records, namehashes := v.dht.namehashes) == v.dht
            && v'.node.(records := v.node.records, namehashes := v.node.namehashes) == v.node
  {
  }

  /** What Add leaves behind, on every view: nothing but its caches where the domain is taken or locked, and
      where the index lock is not to be had; otherwise lock, index entry and pending record. */
  lemma AddEffect(N: Naming, v: View, r: Record, known: bool, t: nat, u: nat)
    ensures var v0 := if known then v else Get(N, v, r.domain).0;
            Add(N, v, r, known, t, u) ==
            if (!known && Get(N, v, r.domain).1.Some?) || r.domain in v0.dht.locks then (v0, false)
            else if INDEX_KEY in v.dht.locks || r.domain == INDEX_KEY
            then (v0.(node := v0.node.(locks := v0.node.locks - {r.domain})), false)
            else (AfterAdd(v0, r, t), true)
  {
    GetKeepsPending(N, v, r.domain);
    var v0 := if known then v else Get(N, v, r.domain).0;
    var v1 := TryAcquireLock(v0, r.domain, t).0;
    if INDEX_KEY !in v.dht.locks && r.domain != INDEX_KEY {
      SavePendingEffect(v1, Registered(r, v.node.host, t), u);
    } else {
      AddRemove(v0.dht.locks, r.domain, Locks.LockId(v.node.host, t));
      AddRemove(v0.node.locks, r.domain, Locks.LockId(v.node.host, t));
    }
  }

  /** A registration that fails, for whatever reason and on whatever view, leaves every lock, the index, the
      pending records and the votes as they were: the domain is as free as before. */
  lemma FailedAddChangesNothing(N: Naming, v: View, r: Record, known: bool, t: nat, u: nat)
    requires !Add(N, v, r, known, t, u).1
    ensures var dht' := Add(N, v, r, known, t, u).0.dht;
            && dht'.locks == v.dht.locks && dht'.index == v.dht.index && dht'.pending == v.dht.pending
            && dht'.votes == v.dht.votes
            && ((forall d :: d in v.dht.records ==> v.dht.records[d].domain == d) ==> dht'.records == v.dht.records)
  {
    AddEffect(N, v, r, known, t, u);
    GetKeepsPending(N, v, r.domain);
  }

  /** It succeeds exactly when nothing is found, unless that was checked before, and both locks are free. */
  lemma AddSucceedsExactlyWhen(N: Naming, v: View, r: Record, known: bool, t: nat, u: nat)
    ensures Add(N, v, r, known, t, u).1 <==>
            && (known || Get(N, v, r.domain).1.None?)
            && r.domain !in v.dht.locks && INDEX_KEY !in v.dht.locks && r.domain != INDEX_KEY
  {
    AddEffect(N, v, r, known, t, u);
    GetKeepsPending(N, v, r.domain);
  }

  // ----- reading, on any view -----

  /** A database copy that is marked as pending never answers, nor does the pending record: the DHT's record
      does, and if it is confirmed the copy is replaced. */
  lemma PendingCopyIsPassedOver(N: Naming, v: View, d: Bytes)
    requires d in v.node.records && v.node.records[d].status == PendingStatus
    ensures var (v', r) := Get(N, v, d);
            && (r.Some? <==> d in v.dht.records) && (r.Some? ==> r.value == v.dht.records[d])
            && (r.Some? && r.value.domain == d ==> v'.node.records[d] == r.value)
  {
  }

  /** A node that looked a confirmed domain up answers alike from then on, by name and, unless another
      domain has taken its entry, by namehash, without anything from the DHT. */
  lemma ConfirmedAnswerIsCached(N: Naming, v: View, d: Bytes, offline: Dht)
    requires Inv(N, v) && d in v.dht.records
    ensures var (v', r) := Get(N, v, d);
            && r.Some? && Get(N, View(offline, v'.node), d) == (View(offline, v'.node), r)
            && N(d) in v'.node.namehashes
            && (v'.node.namehashes[N(d)] == d ==>
                  GetByNamehash(N, View(offline, v'.node), N(d)) == (View(offline, v'.node), r))
  {
    GetAnswers(N, v, d);
    FreeIsNotPending(v.dht.locks, v.dht.pending, v.dht.records.Keys, d);
    assert v.dht.records[d].domain == d && v.dht.records[d].status == Confirmed;
  }

  // ----- the invariant, part by part -----

  /** A domain joins the pending ones. */
  lemma JoinIndex(locks: Locks.Table, index: Option<seq<Bytes>>, pending: map<Bytes, Cell>, r: Record, id: LockId)
    requires IndexInv(locks, index, pending) && PendingOf(pending, r.domain).None? && r.domain != INDEX_KEY
    ensures IndexInv(locks[r.domain := id], IndexWith(index, r.domain), pending[r.domain := Holding(r)])
  {
    var index', pending' := IndexWith(index, r.domain), pending[r.domain := Holding(r)];
    assert PendingDomains(index') == PendingDomains(index) + [r.domain];
    forall d
      ensures d in PendingDomains(index') <==> PendingOf(pending', d).Some?
    {
      assert d != r.domain ==> PendingOf(pending', d) == PendingOf(pending, d);
    }
  }

  lemma JoinPending(locks: Locks.Table, pending: map<Bytes, Cell>, confirmed: set<Bytes>, r: Record, id: LockId)
    requires PendingInv(locks, pending, confirmed) && PendingFits(locks[r.domain := id], r, confirmed, r.domain)
    ensures PendingInv(locks[r.domain := id], pending[r.domain := Holding(r)], confirmed)
  {
    var pending' := pending[r.domain := Holding(r)];
    assert forall d :: d != r.domain ==> PendingOf(pending', d) == PendingOf(pending, d);
    forall d | PendingOf(pending', d).Some?
      ensures PendingFits(locks[r.domain := id], PendingOf(pending', d).value, confirmed, d)
    {
      if d != r.domain {
        assert PendingFits(locks, PendingOf(pending, d).value, confirmed, d);
      }
    }
  }

  /** A domain leaves the pending ones, possibly to become confirmed. */
  lemma LeaveIndex(locks: Locks.Table, index: Option<seq<Bytes>>, pending: map<Bytes, Cell>, d: Bytes)
    requires IndexInv(locks, index, pending)
    ensures IndexInv(locks - {d}, IndexWithout(index, d), pending[d := Emptied])
  {
    DropsOnly(PendingDomains(index), d);
    forall e
      ensures e in PendingDomains(IndexWithout(index, d)) <==> PendingOf(pending[d := Emptied], e).Some?
    {
      assert e != d ==> PendingOf(pending[d := Emptied], e) == PendingOf(pending, e);
    }
  }

  lemma LeavePending(locks: Locks.Table, pending: map<Bytes, Cell>, confirmed: set<Bytes>, d: Bytes)
    requires PendingInv(locks, pending, confirmed)
    ensures PendingInv(locks - {d}, pending[d := Emptied], confirmed)
    ensures PendingInv(locks - {d}, pending[d := Emptied], confirmed + {d})
  {
    var pending' := pending[d := Emptied];
    assert forall e :: e != d ==> PendingOf(pending', e) == PendingOf(pending, e);
    forall e | PendingOf(pending', e).Some?
      ensures PendingFits(locks - {d}, PendingOf(pending', e).value, confirmed + {d}, e)
    {
      assert PendingFits(locks, PendingOf(pending, e).value, confirmed, e);
    }
  }

  // ----- each call keeps the invariant -----

  lemma AddMoves(N: Naming, v: View, r: Record, t: nat)
    requires Inv(N, v) && r.domain != INDEX_KEY && r.domain !in v.dht.locks && r.domain !in v.dht.records
    ensures Moves(N, v, AfterAdd(v, r, t))
  {
    var v' := AfterAdd(v, r, t);
    var id, r' := Locks.LockId(v.node.host, t), Registered(r, v.node.host, t);
    FreeIsNotPending(v.dht.locks, v.dht.pending, v.dht.records.Keys, r.domain);
    JoinIndex(v.dht.locks, v.dht.index, v.dht.pending, r', id);
    JoinPending(v.dht.locks, v.dht.pending, v.dht.records.Keys, r', id);
    AddKeepsNode(N, v, r, t);
  }

  lemma AddKeepsNode(N: Naming, v: View, r: Record, t: nat)
    requires NodeInv(N, v.dht, v.node) && r.domain !in v.dht.locks && INDEX_KEY !in v.dht.locks && r.domain != INDEX_KEY
    ensures var v' := AfterAdd(v, r, t);
            NodeInv(N, v'.dht, v'.node) && Extends(v.dht, v'.dht, v.node.host) && CountsUp(v, v')
  {
  }

  lemma FreeIsNotPending(locks: Locks.Table, pending: map<Bytes, Cell>, confirmed: set<Bytes>, d: Bytes)
    requires PendingInv(locks, pending, confirmed)
    ensures d in locks <==> PendingOf(pending, d).Some?
    ensures d in locks ==> PendingFits(locks, PendingOf(pending, d).value, confirmed, d)
  {
  }

  /** What ConfirmRecord and RejectRecord do to a pending domain. */
  function AfterSettle(N: Naming, v: View, d: Bytes, r: Record, confirm: bool): View
    requires d in v.dht.locks
  {
    var v1 := if confirm then Finalized(N, v, r) else v;
    var mine := if d in v.node.locks && v.node.locks[d] == v.dht.locks[d] then v.node.locks - {d} else v.node.locks;
    View(v1.dht.(locks := v.dht.locks - {d}, index := IndexWithout(v.dht.index, d),
                 pending := v.dht.pending[d := Emptied]),
         v1.node.(locks := mine - {INDEX_KEY}))
  }

  /** The record read from the pending key is the one the domain's lock was taken for. */
  ghost predicate HoldsItsLock(v: View, d: Bytes) {
    PendingOf(v.dht.pending, d).Some? && d != INDEX_KEY && INDEX_KEY !in v.dht.locks
    && d in v.dht.locks && PendingOf(v.dht.pending, d).value.lockID == Some(v.dht.locks[d])
  }

  lemma SettleLocks(locks: Locks.Table, mine: Locks.Table, d: Bytes, index: LockId)
    requires d != INDEX_KEY && d in locks && INDEX_KEY !in locks
    ensures locks[INDEX_KEY := index] - {d} - {INDEX_KEY} == locks - {d}
    ensures mine[INDEX_KEY := index] - {d} - {INDEX_KEY} == mine - {d} - {INDEX_KEY}
    ensures mine[INDEX_KEY := index] - {INDEX_KEY} == mine - {INDEX_KEY}
  {
  }

  lemma CleanUpEffect(v: View, d: Bytes, id: LockId, index: LockId, locks: Locks.Table, mine: Locks.Table)
    requires d != INDEX_KEY && d in locks && locks[d] == id && INDEX_KEY !in locks
    requires v.dht.locks == locks[INDEX_KEY := index] && v.node.locks == mine[INDEX_KEY := index]
    ensures var kept := if d in mine && mine[d] == id then mine - {d} else mine;
            CleanedUp(v, d, Some(id), index) ==
            View(v.dht.(locks := locks - {d}, pending := v.dht.pending[d := Emptied]),
                 v.node.(locks := kept - {INDEX_KEY}))
  {
    SettleLocks(locks, mine, d, index);
  }

  lemma SettleEffect(N: Naming, v: View, d: Bytes, confirm: bool, nanos: nat)
    requires HoldsItsLock(v, d)
    ensures Settle(N, v, d, confirm, nanos) == (AfterSettle(N, v, d, PendingOf(v.dht.pending, d).value, confirm), true)
  {
    var index, r := Locks.LockId(v.node.host, nanos), PendingOf(v.dht.pending, d).value;
    var v1 := TryAcquireLock(v, INDEX_KEY, nanos).0;
    var v2 := View(v1.dht.(index := IndexWithout(v1.dht.index, d)), v1.node);
    var v3 := if confirm then Finalized(N, v2, r) else v2;
    CleanUpEffect(v3, d, v.dht.locks[d], index, v.dht.locks, v.node.locks);
  }

  /** A confirmation or rejection on any view: it succeeds exactly when something is pending and the index
      lock is free, and otherwise changes nothing at all.  When it succeeds the domain leaves the index and
      its pending key is emptied; its lock goes exactly if it is that of the record; every other lock
      stays; and the record is saved as confirmed exactly by a confirmation. */
  lemma SettlesExactlyWhen(N: Naming, v: View, d: Bytes, confirm: bool, nanos: nat)
    requires d != INDEX_KEY
    ensures var (v', ok) := Settle(N, v, d, confirm, nanos);
            var pending := PendingOf(v.dht.pending, d);
            && (ok <==> pending.Some? && INDEX_KEY !in v.dht.locks)
            && (!ok ==> v' == v)
            && (ok ==>
                  var r := pending.value;
                  && v'.dht.index == IndexWithout(v.dht.index, d)
                  && v'.dht.pending == v.dht.pending[d := Emptied] && v'.dht.votes == v.dht.votes
                  && v'.dht.locks == (if d in v.dht.locks && r.lockID == Some(v.dht.locks[d])
                                      then v.dht.locks - {d} else v.dht.locks)
                  && v'.dht.records == (if confirm then v.dht.records[r.domain := r.(status := Confirmed)]
                                        else v.dht.records))
  {
    if PendingOf(v.dht.pending, d).Some? && INDEX_KEY !in v.dht.locks {
      SettledTables(N, v, d, PendingOf(v.dht.pending, d).value, confirm, nanos);
    }
  }

  /** The DHT after the two locks are given back, the first one only if it is the record's. */
  lemma CleanedTables(v: View, d: Bytes, id: Option<LockId>, index: LockId, locks: Locks.Table)
    requires d != INDEX_KEY && INDEX_KEY !in locks && v.dht.locks == locks[INDEX_KEY := index]
    ensures CleanedUp(v, d, id, index).dht ==
            v.dht.(locks := if d in locks && id == Some(locks[d]) then locks - {d} else locks,
                   pending := v.dht.pending[d := Emptied])
  {
    AddRemove(locks, INDEX_KEY, index);
    if d in locks {
      SettleLocks(locks, v.node.locks, d, index);
    }
  }

  lemma SettledTables(N: Naming, v: View, d: Bytes, r: Record, confirm: bool, nanos: nat)
    requires PendingOf(v.dht.pending, d) == Some(r) && INDEX_KEY !in v.dht.locks && d != INDEX_KEY
    ensures var (v', ok) := Settle(N, v, d, confirm, nanos);
            && ok && v'.dht.index == IndexWithout(v.dht.index, d)
            && v'.dht.pending == v.dht.pending[d := Emptied] && v'.dht.votes == v.dht.votes
            && v'.dht.locks == (if d in v.dht.locks && r.lockID == Some(v.dht.locks[d])
                                then v.dht.locks - {d} else v.dht.locks)
            && v'.dht.records == (if confirm then v.dht.records[r.domain := r.(status := Confirmed)]
                                  else v.dht.records)
  {
    var index := Locks.LockId(v.node.host, nanos);
    var v1 := TryAcquireLock(v, INDEX_KEY, nanos).0;
    var v2 := View(v1.dht.(index := IndexWithout(v1.dht.index, d)), v1.node);
    var v3 := if confirm then Finalized(N, v2, r) else v2;
    CleanedTables(v3, d, r.lockID, index, v.dht.locks);
  }

  lemma SettleKeepsDht(N: Naming, v: View, d: Bytes, r: Record, confirm: bool)
    requires DhtInv(N, v.dht) && PendingOf(v.dht.pending, d) == Some(r) && d in v.dht.locks && r.domain == d
    ensures DhtInv(N, AfterSettle(N, v, d, r, confirm).dht)
  {
    LeaveIndex(v.dht.locks, v.dht.index, v.dht.pending, d);
    LeavePending(v.dht.locks, v.dht.pending, v.dht.records.Keys, d);
    SaveKeepsRecords(N, v.dht.records, v.dht.namehashes, r.(status := Confirmed));
    assert v.dht.records[d := r.(status := Confirmed)].Keys == v.dht.records.Keys + {d};
  }

  lemma SettleKeepsNode(N: Naming, v: View, d: Bytes, r: Record, confirm: bool)
    requires NodeInv(N, v.dht, v.node) && d in v.dht.locks && r.domain == d && d !in v.dht.records
    requires INDEX_KEY !in v.dht.locks
    ensures NodeInv(N, AfterSettle(N, v, d, r, confirm).dht, AfterSettle(N, v, d, r, confirm).node)
  {
  }

  lemma SettleExtends(N: Naming, v: View, d: Bytes, r: Record, confirm: bool)
    requires d in v.dht.locks && r.domain == d && d !in v.dht.records
    ensures Extends(v.dht, AfterSettle(N, v, d, r, confirm).dht, v.node.host)
    ensures CountsUp(v, AfterSettle(N, v, d, r, confirm))
  {
  }

  lemma SettleMoves(N: Naming, v: View, d: Bytes, confirm: bool)
    requires Inv(N, v) && PendingOf(v.dht.pending, d).Some?
    ensures HoldsItsLock(v, d)
    ensures Moves(N, v, AfterSettle(N, v, d, PendingOf(v.dht.pending, d).value, confirm))
  {
    var r := PendingOf(v.dht.pending, d).value;
    FreeIsNotPending(v.dht.locks, v.dht.pending, v.dht.records.Keys, d);
    SettleKeepsDht(N, v, d, r, confirm);
    SettleKeepsNode(N, v, d, r, confirm);
    SettleExtends(N, v, d, r, confirm);
  }

  /** Changing one vote result that has no consensus yet. */
  lemma VoteMoves(N: Naming, v: View, r: Votes.VoteResult)
    requires Inv(N, v) && Votes.WellFormed(r) && !r.consensus
    requires r.domain in v.dht.votes ==> !v.dht.votes[r.domain].consensus
    ensures Moves(N, v, v.(dht := v.dht.(votes := v.dht.votes[r.domain := r])))
  {
    assert VoteInv(v.dht.votes[r.domain := r], v.dht.records.Keys);
  }

  lemma SubmitMoves(N: Naming, v: View, d: Bytes, b: Votes.Ballot)
    requires Inv(N, v)
    ensures Moves(N, v, SubmitVote(v, d, b).0)
    ensures !SubmitVote(v, d, b).1 ==> d in v.dht.records && SubmitVote(v, d, b).0 == v
  {
    var read := if d in v.dht.votes then Some(v.dht.votes[d]) else None;
    var saved := Votes.Submit(read, d, b);
    if saved.Some? {
      Votes.SubmitKeepsWellFormed(read, d, b);
      VoteMoves(N, v, saved.value);
    }
  }

  /** When the vote that Add leaves behind fails, the domain is confirmed already, so its lock is free and
      giving it back does nothing. */
  lemma VoteAfterAddMoves(N: Naming, v: View, d: Bytes, id: LockId, b: Votes.Ballot)
    requires Inv(N, v)
    ensures VoteAfterAdd(v, d, id, b) == SubmitVote(v, d, b.(decision := true)).0
    ensures Moves(N, v, VoteAfterAdd(v, d, id, b))
  {
    SubmitMoves(N, v, d, b.(decision := true));
    FreeIsNotPending(v.dht.locks, v.dht.pending, v.dht.records.Keys, d);
  }

  /** The outcome of a decision on a pending domain whose votes have a quorum. */
  ghost function AfterDecide(N: Naming, c: Votes.Curve, v: View, d: Bytes, o: Outcome): View
    requires d in v.dht.votes && HoldsItsLock(v, d)
  {
    var r := PendingOf(v.dht.pending, d).value;
    var tallied := Votes.Tally(c, v.dht.votes[d]);
    if tallied.decision && !o.chainOk then AfterSettle(N, v, d, r, false)
    else
      var settled := AfterSettle(N, v, d, r, true);
      settled.(dht := settled.dht.(votes := v.dht.votes[d := tallied]))
  }

  lemma DecideEffect(N: Naming, c: Votes.Curve, v: View, d: Bytes, o: Outcome)
    requires HoldsItsLock(v, d) && Get(N, v, d).0 == v && Get(N, v, d).1.Some?
    requires d in v.dht.votes && v.dht.votes[d].domain == d
    ensures Decide(N, c, v, v.dht.votes[d], o) ==
            if Votes.HasQuorum(v.dht.votes[d]) then AfterDecide(N, c, v, d, o) else v
  {
    SettleEffect(N, v, d, false, o.nanos);
    var tallied := Votes.Tally(c, v.dht.votes[d]);
    var voted := v.(dht := v.dht.(votes := v.dht.votes[d := tallied]));
    assert HoldsItsLock(voted, d);
    SettleEffect(N, voted, d, true, o.nanos);
  }

  /** A move that leaves the votes alone may be followed by a sound change of them. */
  lemma MovesWithVotes(N: Naming, v: View, w: View, votes: map<Bytes, Votes.VoteResult>)
    requires Moves(N, v, w) && VoteInv(votes, w.dht.records.Keys)
    requires forall d :: d in v.dht.votes && v.dht.votes[d].consensus ==> d in votes && votes[d] == v.dht.votes[d]
    ensures Moves(N, v, w.(dht := w.dht.(votes := votes)))
  {
  }

  lemma TalliedVotes(c: Votes.Curve, votes: map<Bytes, Votes.VoteResult>, confirmed: set<Bytes>, d: Bytes)
    requires VoteInv(votes, confirmed) && d in votes && Votes.HasQuorum(votes[d])
    ensures VoteInv(votes[d := Votes.Tally(c, votes[d])], confirmed + {d})
  {
    Votes.TallyKeepsWellFormed(c, votes[d]);
  }

  /** In a state of the protocol a pending domain holds its lock and is not decided. */
  lemma PendingIsUndecided(N: Naming, v: View, d: Bytes)
    requires Inv(N, v) && PendingOf(v.dht.pending, d).Some?
    ensures HoldsItsLock(v, d) && d !in v.dht.records
    ensures Get(N, v, d) == (v, PendingOf(v.dht.pending, d))
    ensures d in v.dht.votes ==> v.dht.votes[d].domain == d && !v.dht.votes[d].consensus
  {
    FreeIsNotPending(v.dht.locks, v.dht.pending, v.dht.records.Keys, d);
  }

  lemma DecideMoves(N: Naming, c: Votes.Curve, v: View, d: Bytes, o: Outcome)
    requires Inv(N, v) && d in v.dht.votes && PendingOf(v.dht.pending, d).Some? && Votes.HasQuorum(v.dht.votes[d])
    ensures HoldsItsLock(v, d)
    ensures Moves(N, v, AfterDecide(N, c, v, d, o))
  {
    PendingIsUndecided(N, v, d);
    var tallied := Votes.Tally(c, v.dht.votes[d]);
    if tallied.decision && !o.chainOk {
      SettleMoves(N, v, d, false);
    } else {
      SettleMoves(N, v, d, true);
      var r := PendingOf(v.dht.pending, d).value;
      SettledKeys(N, v, d, r);
      ConfirmedVotesMove(N, c, v, AfterSettle(N, v, d, r, true), d);
    }
  }

  lemma SettledKeys(N: Naming, v: View, d: Bytes, r: Record)
    requires d in v.dht.locks && r.domain == d
    ensures AfterSettle(N, v, d, r, true).dht.records.Keys == v.dht.records.Keys + {d}
  {
  }

  lemma ConfirmedVotesMove(N: Naming, c: Votes.Curve, v: View, settled: View, d: Bytes)
    requires Moves(N, v, settled) && settled.dht.records.Keys == v.dht.records.Keys + {d}
    requires VoteInv(v.dht.votes, v.dht.records.Keys) && d in v.dht.votes && Votes.HasQuorum(v.dht.votes[d])
    requires !v.dht.votes[d].consensus
    ensures Moves(N, v, settled.(dht := settled.dht.(votes := v.dht.votes[d := Votes.Tally(c, v.dht.votes[d])])))
  {
    TalliedVotes(c, v.dht.votes, v.dht.records.Keys, d);
    MovesWithVotes(N, v, settled, v.dht.votes[d := Votes.Tally(c, v.dht.votes[d])]);
  }

  lemma MovesTransitive(N: Naming, v: View, w: View, x: View)
    requires Moves(N, v, w) && Moves(N, w, x)
    ensures Moves(N, v, x)
  {
  }

  lemma ProcessOneEffect(N: Naming, c: Votes.Curve, v: View, d: Bytes, o: Outcome)
    requires Inv(N, v) && PendingOf(v.dht.pending, d).Some?
    ensures HoldsItsLock(v, d)
    ensures ProcessOne(N, c, v, d, o) ==
            if d in v.dht.votes && v.dht.votes[d].decisionMaker == v.node.host && Votes.HasQuorum(v.dht.votes[d])
            then AfterDecide(N, c, v, d, o) else v
  {
    PendingIsUndecided(N, v, d);
    if d in v.dht.votes {
      DecideEffect(N, c, v, d, o);
    }
  }

  lemma DecideTouchesOne(N: Naming, c: Votes.Curve, v: View, d: Bytes, o: Outcome)
    requires d in v.dht.votes && HoldsItsLock(v, d)
    ensures AfterDecide(N, c, v, d, o).dht.pending == v.dht.pending[d := Emptied]
  {
  }

  lemma ProcessOneMoves(N: Naming, c: Votes.Curve, v: View, d: Bytes, o: Outcome)
    requires Inv(N, v) && PendingOf(v.dht.pending, d).Some?
    ensures Moves(N, v, ProcessOne(N, c, v, d, o))
  {
    ProcessOneEffect(N, c, v, d, o);
    if d in v.dht.votes && Votes.HasQuorum(v.dht.votes[d]) {
      DecideMoves(N, c, v, d, o);
    }
  }

  lemma ProcessOneTouchesOne(N: Naming, c: Votes.Curve, v: View, d: Bytes, o: Outcome)
    requires Inv(N, v) && PendingOf(v.dht.pending, d).Some?
    ensures forall e :: e != d ==> PendingOf(ProcessOne(N, c, v, d, o).dht.pending, e) == PendingOf(v.dht.pending, e)
  {
    ProcessOneEffect(N, c, v, d, o);
    if d in v.dht.votes {
      DecideTouchesOne(N, c, v, d, o);
    }
  }

  lemma {:induction false} ProcessAllMoves(N: Naming, c: Votes.Curve, v: View, domains: seq<Bytes>,
                                           outcomes: Bytes -> Outcome)
    requires Inv(N, v) && NoDuplicates(domains)
    requires forall d :: d in domains ==> PendingOf(v.dht.pending, d).Some?
    ensures Moves(N, v, ProcessAll(N, c, v, domains, outcomes))
    decreases |domains|
  {
    if domains != [] {
      var d := domains[0];
      ProcessOneMoves(N, c, v, d, outcomes(d));
      ProcessOneTouchesOne(N, c, v, d, outcomes(d));
      var w := ProcessOne(N, c, v, d, outcomes(d));
      ProcessAllMoves(N, c, w, domains[1..], outcomes);
      MovesTransitive(N, v, w, ProcessAll(N, c, w, domains[1..], outcomes));
    }
  }

  /** Only confirmed domains have namehash entries, so a lookup never yields a pending record. */
  lemma GetByNamehashMoves(N: Naming, v: View, h: Word)
    requires Inv(N, v)
    ensures Moves(N, v, GetByNamehash(N, v, h).0)
    ensures var r := GetByNamehash(N, v, h).1;
            r.Some? ==> r.value.domain in v.dht.records && CoreOf(r.value) == CoreOf(v.dht.records[r.value.domain])
    ensures GetByNamehash(N, v, h).0.dht.records == v.dht.records
  {
    if h in v.node.namehashes || h in v.dht.namehashes {
      var d := if h in v.node.namehashes then v.node.namehashes[h] else v.dht.namehashes[h];
      assert d in v.dht.records;
      FreeIsNotPending(v.dht.locks, v.dht.pending, v.dht.records.Keys, d);
      GetMoves(N, v, d);
      GetAnswers(N, v, d);
    }
  }

  lemma BindMoves(N: Naming, v: View, h: Word, chain: nat, resolver: Bytes)
    requires Inv(N, v)
    ensures Moves(N, v, BindAddressResolver(N, v, h, chain, resolver).0)
  {
    GetByNamehashMoves(N, v, h);
    var (v1, r) := GetByNamehash(N, v, h);
    if r.Some? {
      SaveMoves(N, v1, WithAddress(r.value, chain, resolver));
      MovesTransitive(N, v, v1, SaveRecord(N, v1, WithAddress(r.value, chain, resolver)));
    }
  }

  lemma EditKeepsCore(r: Record, e: Edit, now: nat)
    ensures CoreOf(Edited(r, e).(updatedAt := Some(now))) == CoreOf(r)
  {
  }

  /** A confirmed answer of Get is the DHT's record of that domain, up to its bindings. */
  lemma ConfirmedAnswer(N: Naming, v: View, d: Bytes)
    requires Inv(N, v) && Get(N, v, d).1.Some? && Get(N, v, d).1.value.status == Confirmed
    ensures d in v.dht.records && CoreOf(Get(N, v, d).1.value) == CoreOf(v.dht.records[d])
    ensures Get(N, v, d).1.value.domain == d
  {
    GetAnswers(N, v, d);
    FreeIsNotPending(v.dht.locks, v.dht.pending, v.dht.records.Keys, d);
  }

  lemma AddBindingMoves(N: Naming, v: View, d: Bytes, e: Edit, now: nat)
    requires Inv(N, v)
    ensures Moves(N, v, AddBinding(N, v, d, e, now).0)
  {
    GetMoves(N, v, d);
    var (v1, r) := Get(N, v, d);
    if AddBinding(N, v, d, e, now).0 != v && AddBinding(N, v, d, e, now).0 != v1 {
      ConfirmedAnswer(N, v, d);
      var saved := Edited(r.value, e).(updatedAt := Some(now));
      EditKeepsCore(r.value, e, now);
      SaveMoves(N, v1, saved);
      MovesTransitive(N, v, v1, SaveRecord(N, v1, saved));
    }
  }

  // ----- runs of many nodes -----

  datatype World = World(dht: Dht, nodes: map<Host, Node>)

  /** A call on some node, with what its surroundings contribute. */
  datatype Call =
    | Register(record: Record, t: nat, u: nat)                    // Add, checking first
    | VoteForAdded(domain: Bytes, id: LockId, ballot: Votes.Ballot) // the vote Add leaves behind
    | Vote(domain: Bytes, ballot: Votes.Ballot)                     // a registration intent was gossiped
    | ProcessPending(outcomes: Bytes -> Outcome)                    // a tick of the voting manager
    | Reject(domain: Bytes, nanos: nat)                             // publishing the intent failed
    | Lookup(domain: Bytes)
    | LookupHash(namehash: Word)
    | Bind(namehash: Word, chain: nat, resolver: Bytes)             // a NameBound event
    | EditBinding(domain: Bytes, edit: Edit, now: nat)

  ghost function Perform(N: Naming, c: Votes.Curve, v: View, call: Call): View {
    match call
    case Register(r, t, u) => Add(N, v, r, false, t, u).0
    case VoteForAdded(d, id, b) => VoteAfterAdd(v, d, id, b.(host := v.node.host))
    case Vote(d, b) => SubmitVote(v, d, b.(host := v.node.host)).0
    case ProcessPending(outcomes) => Process(N, c, v, outcomes)
    case Reject(d, nanos) => RejectRecord(N, v, d, nanos).0
    case Lookup(d) => Get(N, v, d).0
    case LookupHash(h) => GetByNamehash(N, v, h).0
    case Bind(h, chain, resolver) => BindAddressResolver(N, v, h, chain, resolver).0
    case EditBinding(d, e, now) => AddBinding(N, v, d, e, now).0
  }

  /** Calls name domains in lower case; ticks, lookups by namehash and events name none. */
  ghost predicate Proper(call: Call) {
    match call
    case Register(r, _, _) => ValidDomain(r.domain)
    case VoteForAdded(d, _, _) => ValidDomain(d)
    case Vote(d, _) => ValidDomain(d)
    case Reject(d, _) => ValidDomain(d)
    case Lookup(d) => ValidDomain(d)
    case EditBinding(d, _, _) => ValidDomain(d)
    case _ => true
  }

  lemma PerformMoves(N: Naming, c: Votes.Curve, v: View, call: Call)
    requires Inv(N, v) && Proper(call)
    ensures Moves(N, v, Perform(N, c, v, call))
  {
    match call
    case Register(r, t, u) => RegisterMoves(N, v, r, t, u);
    case VoteForAdded(d, id, b) => VoteAfterAddMoves(N, v, d, id, b.(host := v.node.host));
    case Vote(d, b) => SubmitMoves(N, v, d, b.(host := v.node.host));
    case ProcessPending(outcomes) => ProcessAllMoves(N, c, v, PendingDomains(v.dht.index), outcomes);
    case Reject(d, nanos) =>
      if PendingOf(v.dht.pending, d).Some? {
        SettleMoves(N, v, d, false);
        SettleEffect(N, v, d, false, nanos);
      }
    case Lookup(d) => GetMoves(N, v, d);
    case LookupHash(h) => GetByNamehashMoves(N, v, h);
    case Bind(h, chain, resolver) => BindMoves(N, v, h, chain, resolver);
    case EditBinding(d, e, now) => AddBindingMoves(N, v, d, e, now);
  }

  lemma RegisterMoves(N: Naming, v: View, r: Record, t: nat, u: nat)
    requires Inv(N, v) && r.domain != INDEX_KEY
    ensures Moves(N, v, Add(N, v, r, false, t, u).0)
  {
    AddEffect(N, v, r, false, t, u);
    GetMoves(N, v, r.domain);
    GetAnswers(N, v, r.domain);
    var v0 := Get(N, v, r.domain).0;
    if Get(N, v, r.domain).1.None? && r.domain !in v0.dht.locks {
      AddMoves(N, v0, r, t);
      MovesTransitive(N, v, v0, AfterAdd(v0, r, t));
    }
  }

  ghost predicate WorldInv(N: Naming, w: World) {
    && DhtInv(N, w.dht)
    && forall host :: host in w.nodes ==> w.nodes[host].host == host && NodeInv(N, w.dht, w.nodes[host])
  }

  datatype Step = Step(host: Host, call: Call)

  ghost function Next(N: Naming, c: Votes.Curve, w: World, step: Step): World {
    if step.host !in w.nodes then w
    else
      var v := Perform(N, c, View(w.dht, w.nodes[step.host]), step.call);
      World(v.dht, w.nodes[step.host := v.node])
  }

  ghost function Run(N: Naming, c: Votes.Curve, w: World, steps: seq<Step>): World {
    if steps == [] then w else Next(N, c, Run(N, c, w, steps[..|steps| - 1]), steps[|steps| - 1])
  }

  /** The store versions of all nodes, added up. */
  ghost function TotalVersions(nodes: map<Host, Node>): int {
    if nodes == map[] then 0
    else
      var host :| host in nodes;
      nodes[host].version + TotalVersions(nodes - {host})
  }

  lemma {:induction false} TotalVersionsOf(nodes: map<Host, Node>, host: Host)
    requires host in nodes
    ensures TotalVersions(nodes) == nodes[host].version + TotalVersions(nodes - {host})
    decreases |nodes|
  {
    var other :| other in nodes && TotalVersions(nodes) == nodes[other].version + TotalVersions(nodes - {other});
    if other != host {
      TotalVersionsOf(nodes - {other}, host);
      TotalVersionsOf(nodes - {host}, other);
      assert nodes - {other} - {host} == nodes - {host} - {other};
    }
  }

  lemma TotalAfterUpdate(nodes: map<Host, Node>, host: Host, node: Node)
    requires host in nodes
    ensures TotalVersions(nodes[host := node]) - TotalVersions(nodes) == node.version - nodes[host].version
  {
    TotalVersionsOf(nodes, host);
    TotalVersionsOf(nodes[host := node], host);
    assert nodes[host := node] - {host} == nodes - {host};
  }

  lemma NextCountsUp(N: Naming, c: Votes.Curve, w: World, step: Step)
    requires WorldInv(N, w) && Proper(step.call)
    ensures var w' := Next(N, c, w, step);
            TotalVersions(w'.nodes) - TotalVersions(w.nodes) == |w'.dht.records| - |w.dht.records|
  {
    if step.host in w.nodes {
      var v := View(w.dht, w.nodes[step.host]);
      PerformMoves(N, c, v, step.call);
      var v' := Perform(N, c, v, step.call);
      assert CountsUp(v, v');
      TotalAfterUpdate(w.nodes, step.host, v'.node);
    }
  }

  lemma NextKeepsWorldInv(N: Naming, c: Votes.Curve, w: World, step: Step)
    requires WorldInv(N, w) && Proper(step.call)
    ensures WorldInv(N, Next(N, c, w, step))
    ensures Extends(w.dht, Next(N, c, w, step).dht, step.host)
  {
    if step.host in w.nodes {
      var v := View(w.dht, w.nodes[step.host]);
      PerformMoves(N, c, v, step.call);
      var v' := Perform(N, c, v, step.call);
      forall host | host in w.nodes && host != step.host
        ensures NodeInv(N, v'.dht, w.nodes[host])
      {
        ExtendsKeepsNode(N, v.dht, v'.dht, step.host, w.nodes[host]);
      }
    }
  }

  /** What no run takes back: confirmed records keep their cores, saved results with consensus stay. */
  ghost predicate Preserves(dht: Dht, dht': Dht) {
    && (forall d :: d in dht.records ==> d in dht'.records && CoreOf(dht'.records[d]) == CoreOf(dht.records[d]))
    && (forall d :: d in dht.votes && dht.votes[d].consensus ==> d in dht'.votes && dht'.votes[d] == dht.votes[d])
  }

  lemma {:induction false} RunKeepsWorldInv(N: Naming, c: Votes.Curve, w: World, steps: seq<Step>)
    requires WorldInv(N, w)
    requires forall i :: 0 <= i < |steps| ==> Proper(steps[i].call)
    ensures WorldInv(N, Run(N, c, w, steps)) && Run(N, c, w, steps).nodes.Keys == w.nodes.Keys
    ensures Preserves(w.dht, Run(N, c, w, steps).dht)
    ensures var w' := Run(N, c, w, steps);
            TotalVersions(w'.nodes) - TotalVersions(w.nodes) == |w'.dht.records| - |w.dht.records|
  {
    if steps != [] {
      var before := steps[..|steps| - 1];
      RunKeepsWorldInv(N, c, w, before);
      NextCountsUp(N, c, Run(N, c, w, before), steps[|steps| - 1]);
      NextKeepsWorldInv(N, c, Run(N, c, w, before), steps[|steps| - 1]);
    }
  }
}
