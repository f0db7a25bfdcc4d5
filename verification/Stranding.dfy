/** What the interleaving of calls does break: the pairing of a domain's lock with its pending record,
    which whole calls keep.  When each call keeps it, and runs in which it is lost for good. */
module Stranding {
  import opened Bytes
  import opened Options
  import opened Keys
  import opened Store
  import Lifecycle
  import opened Interleaving
  import Locks
  import Votes

  /** A domain's lock and its pending record go together, as they do between whole calls. */
  ghost predicate Paired(s: Shared, d: Bytes) {
    var pending := PendingOf(s.pending, d);
    && (pending.Some? <==> d in s.locks)
    && (pending.Some? ==> pending.value.lockID == Some(s.locks[d]))
  }

  predicate Settles(job: Job) {
    job.Rejecting? || job.Deciding?
  }

  // ----- calls that run undisturbed -----

  /** One step of a call, as far as it and the DHT are concerned. */
  ghost function Solo(c: Votes.Curve, s: Shared, p: Process, nanos: nat): (Shared, Process) {
    if p.phase != WantingIndex then (Touch(s, p, nanos), Advance(c, s, p, nanos))
    else if INDEX_KEY in s.locks then (s, p)
    else
      var id := Locks.LockId(p.host, nanos);
      (s.(locks := s.locks[INDEX_KEY := id]), p.(phase := ReadingIndex, indexLock := Some(id)))
  }

  function Iterate<T>(f: T -> T, x: T, n: nat): T {
    if n == 0 then x else Iterate(f, f(x), n - 1)
  }

  lemma {:induction false} IterateAdds<T>(f: T -> T, x: T, m: nat, n: nat)
    ensures Iterate(f, x, m + n) == Iterate(f, Iterate(f, x, m), n)
  {
    if m > 0 {
      IterateAdds(f, f(x), m - 1, n);
    }
  }

  ghost function Soloist(c: Votes.Curve, nanos: nat): ((Shared, Process)) -> (Shared, Process) {
    (x: (Shared, Process)) => Solo(c, x.0, x.1, nanos)
  }

  /** That many steps of a call on its own. */
  ghost function SoloRun(c: Votes.Curve, s: Shared, p: Process, nanos: nat, n: nat): (Shared, Process) {
    Iterate(Soloist(c, nanos), (s, p), n)
  }

  lemma SoloUnfolds(c: Votes.Curve, s: Shared, p: Process, nanos: nat, n: nat)
    requires n > 0
    ensures var (s', p') := Solo(c, s, p, nanos);
            SoloRun(c, s, p, nanos, n) == SoloRun(c, s', p', nanos, n - 1)
  {
  }

  lemma SoloRunAdds(c: Votes.Curve, s: Shared, p: Process, nanos: nat, m: nat, n: nat)
    ensures var (s', p') := SoloRun(c, s, p, nanos, m);
            SoloRun(c, s, p, nanos, m + n) == SoloRun(c, s', p', nanos, n)
  {
    IterateAdds(Soloist(c, nanos), (s, p), m, n);
  }

  /** The call with that number takes n steps and nobody else any. */
  ghost function Alone(c: Votes.Curve, w: World, pid: nat, nanos: nat, n: nat): World
    decreases n
  {
    if n == 0 then w else Alone(c, Next(c, w, Act(pid, nanos, false)), pid, nanos, n - 1)
  }

  /** The calls other than that one stand where they stood. */
  ghost predicate OthersStand(w: World, w': World, pid: nat) {
    forall q :: q != pid ==> (q in w'.procs <==> q in w.procs) && (q in w.procs ==> w'.procs[q] == w.procs[q])
  }

  lemma {:induction false} AloneIsSolo(c: Votes.Curve, w: World, pid: nat, nanos: nat, n: nat)
    requires pid in w.procs
    ensures var w' := Alone(c, w, pid, nanos, n);
            && pid in w'.procs && (w'.shared, w'.procs[pid]) == SoloRun(c, w.shared, w.procs[pid], nanos, n)
            && OthersStand(w, w', pid)
    decreases n
  {
    if n > 0 {
      AloneIsSolo(c, Next(c, w, Act(pid, nanos, false)), pid, nanos, n - 1);
    }
  }

  // ----- inside the index lock -----

  /** A registration takes eight steps before its vote, a settling call eight from its first read on and
      seven after it, a vote two. */
  const WHOLE_CALL: nat := 8
  const AFTER_READ: nat := 7
  const WHOLE_VOTE: nat := 2

  /** Index, records and pending records after the update of a call. */
  function Updated(s: Shared, p: Process): Shared
    requires p.record.Some?
  {
    var d, r := DomainOf(p.job), p.record.value;
    if p.job.Adding? then s.(index := IndexWith(s.index, d), pending := s.pending[d := Holding(r)])
    else
      s.(index := IndexWithout(s.index, d), pending := s.pending[d := Emptied],
         records := if p.confirm then s.records[r.domain := r.(status := Confirmed)] else s.records)
  }

  /** Reading and writing the index, and the record. */
  lemma UpdateSolo(c: Votes.Curve, s: Shared, p: Process, nanos: nat, n: nat)
    requires p.phase == ReadingIndex && p.record.Some? && (p.job.Adding? ==> !p.confirm)
    ensures SoloRun(c, s, p, nanos, n + 4) == SoloRun(c, Updated(s, p), p.(phase := FreeingDomain), nanos, n)
  {
    var p1 := p.(phase := WritingIndex(PendingDomains(s.index)));
    var s1 := s.(index := Updated(s, p).index);
    var s2 := s1.(records := Updated(s, p).records);
    SoloUnfolds(c, s, p, nanos, n + 4);
    assert Solo(c, s, p, nanos) == (s, p1);
    SoloUnfolds(c, s, p1, nanos, n + 3);
    assert Solo(c, s, p1, nanos) == (s1, p.(phase := SavingRecord));
    SoloUnfolds(c, s1, p.(phase := SavingRecord), nanos, n + 2);
    assert Solo(c, s1, p.(phase := SavingRecord), nanos) == (s2, p.(phase := WritingPending));
    SoloUnfolds(c, s2, p.(phase := WritingPending), nanos, n + 1);
    assert Solo(c, s2, p.(phase := WritingPending), nanos) == (Updated(s, p), p.(phase := FreeingDomain));
  }

  /** The domain's lock after the update: a settling call gives back the one of its record. */
  function LockAfter(locks: Locks.Table, p: Process): Locks.Table
    requires p.record.Some?
  {
    if p.job.Adding? then locks else Freed(locks, DomainOf(p.job), p.record.value.lockID)
  }

  function AfterUpdate(p: Process): Phase {
    if p.job.Adding? && p.job.ballot.Some? then ReadingVotes else Finished(true)
  }

  lemma FreedAround(locks: Locks.Table, d: Bytes, freed: Option<LockId>, index: LockId)
    requires INDEX_KEY !in locks && d != INDEX_KEY
    ensures Freed(Freed(locks[INDEX_KEY := index], d, freed), INDEX_KEY, Some(index)) == Freed(locks, d, freed)
    ensures Freed(locks[INDEX_KEY := index], INDEX_KEY, Some(index)) == locks
  {
    Lifecycle.AddRemove(locks, INDEX_KEY, index);
  }

  lemma FreeSolo(c: Votes.Curve, s: Shared, p: Process, nanos: nat, id: LockId, n: nat)
    requires p.phase == FreeingDomain && p.record.Some? && DomainOf(p.job) != INDEX_KEY
    requires INDEX_KEY !in s.locks && p.indexLock == Some(id)
    ensures SoloRun(c, s.(locks := s.locks[INDEX_KEY := id]), p, nanos, n + 2) ==
            SoloRun(c, s.(locks := LockAfter(s.locks, p)), p.(phase := AfterUpdate(p)), nanos, n)
  {
    var held := s.(locks := s.locks[INDEX_KEY := id]);
    var freed := held.(locks := LockAfter(held.locks, p));
    var q := p.(phase := FreeingIndex);
    FreedAround(s.locks, DomainOf(p.job), if p.job.Adding? then None else p.record.value.lockID, id);
    SoloUnfolds(c, held, p, nanos, n + 2);
    assert Solo(c, held, p, nanos) == (freed, q);
    SoloUnfolds(c, freed, q, nanos, n + 1);
    assert Solo(c, freed, q, nanos) == (s.(locks := LockAfter(s.locks, p)), p.(phase := AfterUpdate(p)));
  }

  /** From the index lock to the end of the update, the lock being free: seven steps. */
  lemma IndexSolo(c: Votes.Curve, s: Shared, p: Process, nanos: nat, n: nat)
    requires p.phase == WantingIndex && p.record.Some? && (p.job.Adding? ==> !p.confirm)
    requires INDEX_KEY !in s.locks && DomainOf(p.job) != INDEX_KEY && n == AFTER_READ
    ensures SoloRun(c, s, p, nanos, n) ==
            (Updated(s, p).(locks := LockAfter(s.locks, p)),
             p.(phase := AfterUpdate(p), indexLock := Some(Locks.LockId(p.host, nanos))))
  {
    var id := Locks.LockId(p.host, nanos);
    var held := s.(locks := s.locks[INDEX_KEY := id]);
    var q := p.(phase := ReadingIndex, indexLock := Some(id));
    var rest := n - 7;
    SoloUnfolds(c, s, p, nanos, n);
    assert Solo(c, s, p, nanos) == (held, q);
    UpdateSolo(c, held, q, nanos, rest + 2);
    assert Updated(held, q) == Updated(s, p).(locks := held.locks);
    FreeSolo(c, Updated(s, p), q.(phase := FreeingDomain), nanos, id, rest);
  }

  // ----- settling -----

  /** What the DHT is after a settling call, having read its record, has run undisturbed to its end. */
  function Settled(s: Shared, p: Process): Shared
    requires p.record.Some?
  {
    Updated(s, p).(locks := LockAfter(s.locks, p))
  }

  lemma SettleSolo(c: Votes.Curve, s: Shared, p: Process, nanos: nat)
    requires Settles(p.job) && p.phase == WantingIndex && p.record.Some? && INDEX_KEY !in s.locks
    requires DomainOf(p.job) != INDEX_KEY
    ensures SoloRun(c, s, p, nanos, AFTER_READ).0 == Settled(s, p)
    ensures SoloRun(c, s, p, nanos, AFTER_READ).1 ==
            p.(phase := Finished(true), indexLock := Some(Locks.LockId(p.host, nanos)))
  {
    IndexSolo(c, s, p, nanos, AFTER_READ);
  }

  /** A settling call that has read its record and not yet the index lock. */
  function Having(p: Process, record: Option<Record>): Process {
    p.(phase := WantingIndex, record := record)
  }

  /** The first step of a settling call reads its record; the other seven settle it. */
  lemma SettleSoloFromRead(c: Votes.Curve, s: Shared, p: Process, nanos: nat)
    requires Settles(p.job) && p.phase == ReadingPending
    requires PendingOf(s.pending, DomainOf(p.job)).Some? && INDEX_KEY !in s.locks && DomainOf(p.job) != INDEX_KEY
    ensures var having := Having(p, PendingOf(s.pending, DomainOf(p.job)));
            && SoloRun(c, s, p, nanos, 1) == (s, having)
            && SoloRun(c, s, p, nanos, WHOLE_CALL).0 == Settled(s, having)
            && SoloRun(c, s, p, nanos, WHOLE_CALL).1.phase == Finished(true)
  {
    var having := Having(p, PendingOf(s.pending, DomainOf(p.job)));
    SoloUnfolds(c, s, p, nanos, 1);
    SoloUnfolds(c, s, p, nanos, WHOLE_CALL);
    assert Solo(c, s, p, nanos) == (s, having);
    SettleSolo(c, s, having, nanos);
  }

  // ----- registering and voting -----

  /** What the DHT is after a registration of a free domain has run undisturbed up to its vote. */
  function Added(s: Shared, host: Host, record: Record, nanos: nat): Shared {
    var d := record.domain;
    s.(locks := s.locks[d := Locks.LockId(host, nanos)], index := IndexWith(s.index, d),
       pending := s.pending[d := Holding(Lifecycle.Registered(record, host, nanos))])
  }

  /** A registration that has come as far as its vote. */
  function Adds(p: Process, nanos: nat): Process
    requires p.job.Adding?
  {
    p.(phase := AfterUpdate(p), record := Some(Lifecycle.Registered(p.job.record, p.host, nanos)),
       indexLock := Some(Locks.LockId(p.host, nanos)))
  }

  lemma AddSolo(c: Votes.Curve, s: Shared, p: Process, nanos: nat)
    requires p.job.Adding? && p.phase == LockingDomain && !p.confirm && INDEX_KEY !in s.locks
    requires p.job.record.domain !in s.locks && p.job.record.domain != INDEX_KEY
    ensures SoloRun(c, s, p, nanos, WHOLE_CALL) == (Added(s, p.host, p.job.record, nanos), Adds(p, nanos))
  {
    var r := Lifecycle.Registered(p.job.record, p.host, nanos);
    var s1 := s.(locks := s.locks[r.domain := Locks.LockId(p.host, nanos)]);
    var p1 := p.(phase := WantingIndex, record := Some(r));
    SoloUnfolds(c, s, p, nanos, WHOLE_CALL);
    assert Solo(c, s, p, nanos) == (s1, p1);
    IndexSolo(c, s1, p1, nanos, AFTER_READ);
  }

  /** The ballot a call casts, on its own host; a registration accepts itself. */
  function BallotOf(p: Process): Votes.Ballot
    requires p.job.Voting? || (p.job.Adding? && p.job.ballot.Some?)
  {
    if p.job.Voting? then p.job.vote.(host := p.host) else p.job.ballot.value.(host := p.host, decision := true)
  }

  /** The vote would be refused: the domain has its consensus. */
  predicate Decided(s: Shared, d: Bytes) {
    d in s.votes && (s.votes[d].consensus || s.votes[d].decision)
  }

  /** What the DHT is after a vote; one refused costs a registration its lock. */
  function Voted(s: Shared, p: Process): Shared
    requires p.job.Voting? || (p.job.Adding? && p.job.ballot.Some?)
  {
    match Votes.Submit(VotesOn(s.votes, DomainOf(p.job)), DomainOf(p.job), BallotOf(p))
    case Some(result) => s.(votes := s.votes[result.domain := result])
    case None =>
      if p.job.Adding? && p.record.Some? then s.(locks := Freed(s.locks, DomainOf(p.job), p.record.value.lockID)) else s
  }

  lemma HavingReadVotes(c: Votes.Curve, s: Shared, p: Process, nanos: nat)
    requires p.job.Voting? || (p.job.Adding? && p.job.ballot.Some?)
    requires p.phase == ReadingVotes
    ensures var q := HavingRead(c, p, VotesOn(s.votes, DomainOf(p.job)));
            && q.phase != WantingIndex && Touch(s, q, nanos) == Voted(s, p)
            && Advance(c, s, q, nanos) ==
               p.(phase := Finished(p.job.Adding? || !Decided(s, DomainOf(p.job))))
  {
  }

  lemma VoteSolo(c: Votes.Curve, s: Shared, p: Process, nanos: nat)
    requires p.job.Voting? || (p.job.Adding? && p.job.ballot.Some?)
    requires p.phase == ReadingVotes
    ensures SoloRun(c, s, p, nanos, WHOLE_VOTE) ==
            (Voted(s, p), p.(phase := Finished(p.job.Adding? || !Decided(s, DomainOf(p.job)))))
  {
    var q := HavingRead(c, p, VotesOn(s.votes, DomainOf(p.job)));
    HavingReadVotes(c, s, p, nanos);
    SoloUnfolds(c, s, p, nanos, WHOLE_VOTE);
    SoloUnfolds(c, s, q, nanos, WHOLE_VOTE - 1);
  }

  // ----- whole calls are their steps -----

  function SharedOf(dht: Dht): Shared {
    Shared(dht.locks, dht.index, dht.pending, dht.records, dht.votes)
  }

  lemma ReleaseFrees(v: View, name: Bytes, id: Option<LockId>)
    ensures ReleaseRecordLock(v, name, id).dht == v.dht.(locks := Freed(v.dht.locks, name, id))
  {
  }

  lemma SettleShared(N: Naming, v: View, p: Process, nanos: nat)
    requires Settles(p.job) && p.record.Some? && p.record == PendingOf(v.dht.pending, DomainOf(p.job))
    requires INDEX_KEY !in v.dht.locks && DomainOf(p.job) != INDEX_KEY
    ensures SharedOf(Settle(N, v, DomainOf(p.job), p.confirm, nanos).0.dht) == Settled(SharedOf(v.dht), p)
  {
    var d, r := DomainOf(p.job), p.record.value;
    var id := Locks.LockId(v.node.host, nanos);
    var v1 := TryAcquireLock(v, INDEX_KEY, nanos).0;
    var v2 := View(v1.dht.(index := IndexWithout(v1.dht.index, d)), v1.node);
    var v3 := if p.confirm then Finalized(N, v2, r) else v2;
    var v4 := View(v3.dht.(pending := v3.dht.pending[d := Emptied]), v3.node);
    ReleaseFrees(v4, d, r.lockID);
    ReleaseFrees(ReleaseRecordLock(v4, d, r.lockID), INDEX_KEY, Some(id));
    FreedAround(v.dht.locks, d, r.lockID, id);
    assert Settle(N, v, d, p.confirm, nanos).0 == CleanedUp(v3, d, r.lockID, id);
  }

  /** Undisturbed, the steps of a rejection add up to what the whole call does. */
  lemma RejectIsItsSteps(N: Naming, c: Votes.Curve, v: View, d: Bytes, nanos: nat)
    requires PendingOf(v.dht.pending, d).Some? && INDEX_KEY !in v.dht.locks && d != INDEX_KEY
    ensures SharedOf(RejectRecord(N, v, d, nanos).0.dht) ==
            SoloRun(c, SharedOf(v.dht), Begun(v.node.host, Rejecting(d)), nanos, WHOLE_CALL).0
  {
    var p := Begun(v.node.host, Rejecting(d));
    SettleSoloFromRead(c, SharedOf(v.dht), p, nanos);
    SettleShared(N, v, Having(p, PendingOf(v.dht.pending, d)), nanos);
  }

  /** The steps before a decision settles its domain: two if it confirms, one if it rejects. */
  ghost function DecidingSteps(c: Votes.Curve, r: Votes.VoteResult, chainOk: bool): nat {
    if Votes.Tally(c, r).decision && !chainOk then 1 else 2
  }

  /** What a decision has done when it turns to the pending record: saved the consensus, unless the chain
      refused the transaction. */
  ghost function Decides(c: Votes.Curve, s: Shared, p: Process): (Shared, Process)
    requires p.job.Deciding? && p.job.domain in s.votes
  {
    var tallied := Votes.Tally(c, s.votes[p.job.domain]);
    if tallied.decision && !p.job.chainOk then (s, p.(phase := ReadingPending))
    else (s.(votes := s.votes[tallied.domain := tallied]), p.(phase := ReadingPending, confirm := true))
  }

  lemma DecideSolo(c: Votes.Curve, s: Shared, p: Process, nanos: nat)
    requires p.job.Deciding? && p.phase == ReadingVotes && p.job.domain in s.votes
    requires s.votes[p.job.domain].decisionMaker == p.host && Votes.HasQuorum(s.votes[p.job.domain])
    ensures SoloRun(c, s, p, nanos, DecidingSteps(c, s.votes[p.job.domain], p.job.chainOk)) == Decides(c, s, p)
  {
    var n := DecidingSteps(c, s.votes[p.job.domain], p.job.chainOk);
    var q := HavingRead(c, p, VotesOn(s.votes, p.job.domain));
    SoloUnfolds(c, s, p, nanos, n);
    assert Solo(c, s, p, nanos) == (s, q);
    if n > 1 {
      SoloUnfolds(c, s, q, nanos, n - 1);
      assert Solo(c, s, q, nanos) == Decides(c, s, p);
    }
  }

  /** A decision from its first read to its end. */
  lemma DecideSoloToEnd(c: Votes.Curve, s: Shared, p: Process, nanos: nat)
    requires p.job.Deciding? && p.phase == ReadingVotes && p.job.domain in s.votes
    requires s.votes[p.job.domain].decisionMaker == p.host && Votes.HasQuorum(s.votes[p.job.domain])
    requires PendingOf(s.pending, p.job.domain).Some? && INDEX_KEY !in s.locks && p.job.domain != INDEX_KEY
    ensures var n := DecidingSteps(c, s.votes[p.job.domain], p.job.chainOk) + WHOLE_CALL;
            var (s', p') := Decides(c, s, p);
            SoloRun(c, s, p, nanos, n).0 == Settled(s', Having(p', PendingOf(s.pending, p.job.domain)))
            && SoloRun(c, s, p, nanos, n).1.phase == Finished(true)
  {
    var m := DecidingSteps(c, s.votes[p.job.domain], p.job.chainOk);
    var decided := Decides(c, s, p);
    DecideSolo(c, s, p, nanos);
    SoloRunAdds(c, s, p, nanos, m, WHOLE_CALL);
    SettleSoloFromRead(c, decided.0, decided.1, nanos);
  }

  lemma DecideShared(N: Naming, c: Votes.Curve, v: View, d: Bytes, o: Outcome)
    requires Lifecycle.Inv(N, v) && PendingOf(v.dht.pending, d).Some? && d != INDEX_KEY
    requires d in v.dht.votes && v.dht.votes[d].decisionMaker == v.node.host && Votes.HasQuorum(v.dht.votes[d])
    ensures var (s, p) := Decides(c, SharedOf(v.dht), Begun(v.node.host, Deciding(d, o.chainOk)));
            SharedOf(ProcessOne(N, c, v, d, o).dht) == Settled(s, Having(p, PendingOf(v.dht.pending, d)))
  {
    Lifecycle.PendingIsUndecided(N, v, d);
    var (s, p) := Decides(c, SharedOf(v.dht), Begun(v.node.host, Deciding(d, o.chainOk)));
    var v' := v.(dht := v.dht.(votes := s.votes));
    assert SharedOf(v'.dht) == s;
    SettleShared(N, v', Having(p, PendingOf(v.dht.pending, d)), o.nanos);
  }

  /** Undisturbed, the steps of a decision on a pending domain add up to what the whole call does. */
  lemma DecideIsItsSteps(N: Naming, c: Votes.Curve, v: View, d: Bytes, o: Outcome)
    requires Lifecycle.Inv(N, v) && PendingOf(v.dht.pending, d).Some?
    requires d in v.dht.votes && v.dht.votes[d].decisionMaker == v.node.host && Votes.HasQuorum(v.dht.votes[d])
    ensures var n := DecidingSteps(c, v.dht.votes[d], o.chainOk) + WHOLE_CALL;
            SharedOf(ProcessOne(N, c, v, d, o).dht) ==
            SoloRun(c, SharedOf(v.dht), Begun(v.node.host, Deciding(d, o.chainOk)), o.nanos, n).0
  {
    DecideShared(N, c, v, d, o);
    DecideSoloToEnd(c, SharedOf(v.dht), Begun(v.node.host, Deciding(d, o.chainOk)), o.nanos);
  }

  lemma VoteShared(v: View, p: Process, id: LockId)
    requires p.job.Adding? && p.job.ballot.Some? && p.record.Some? && p.record.value.lockID == Some(id)
    ensures SharedOf(VoteAfterAdd(v, DomainOf(p.job), id, BallotOf(p)).dht) == Voted(SharedOf(v.dht), p)
  {
    ReleaseFrees(v, DomainOf(p.job), Some(id));
  }

  /** Undisturbed, the steps of a registration add up to what Add does after its check, and then the vote
      it starts. */
  lemma AddIsItsSteps(N: Naming, c: Votes.Curve, v: View, r: Record, b: Votes.Ballot, t: nat, u: nat)
    requires INDEX_KEY !in v.dht.locks && r.domain !in v.dht.locks && r.domain != INDEX_KEY
    ensures var added := Add(N, v, r, true, t, u).0;
            var voted := VoteAfterAdd(added, r.domain, Locks.LockId(v.node.host, t), b.(host := v.node.host));
            var alone, voting := Begun(v.node.host, Adding(r, None)), Begun(v.node.host, Adding(r, Some(b)));
            && SharedOf(added.dht) == SoloRun(c, SharedOf(v.dht), alone, t, WHOLE_CALL).0
            && SharedOf(voted.dht) == SoloRun(c, SharedOf(v.dht), voting, t, WHOLE_CALL + WHOLE_VOTE).0
  {
    var s := SharedOf(v.dht);
    var alone, voting := Begun(v.node.host, Adding(r, None)), Begun(v.node.host, Adding(r, Some(b)));
    AddSolo(c, s, alone, t);
    AddSolo(c, s, voting, t);
    Lifecycle.AddEffect(N, v, r, true, t, u);
    SoloRunAdds(c, s, voting, t, WHOLE_CALL, WHOLE_VOTE);
    VoteSolo(c, Added(s, v.node.host, r, t), Adds(voting, t), t);
    VoteShared(Lifecycle.AfterAdd(v, r, t), Adds(voting, t), Locks.LockId(v.node.host, t));
  }

  // ----- when lock and pending record stay paired -----

  lemma {:induction false} FinishedStays(c: Votes.Curve, s: Shared, p: Process, nanos: nat, n: nat)
    requires p.phase.Finished?
    ensures SoloRun(c, s, p, nanos, n) == (s, p)
    decreases n
  {
    if n > 0 {
      FinishedStays(c, s, p, nanos, n - 1);
    }
  }

  lemma RefusedSolo(c: Votes.Curve, s: Shared, p: Process, nanos: nat, n: nat)
    requires p.job.Adding? && p.phase == LockingDomain && p.job.record.domain in s.locks && n > 0
    ensures SoloRun(c, s, p, nanos, n).0 == s
  {
    SoloUnfolds(c, s, p, nanos, n);
    assert Solo(c, s, p, nanos) == (s, p.(phase := Finished(false)));
    FinishedStays(c, s, p.(phase := Finished(false)), nanos, n - 1);
  }

  lemma AddedPairs(s: Shared, host: Host, record: Record, nanos: nat)
    ensures Paired(Added(s, host, record, nanos), record.domain)
  {
  }

  /** A registration up to its vote keeps them paired, whether it finds the domain free or not. */
  lemma AddPairs(c: Votes.Curve, w: World, pid: nat, nanos: nat)
    requires pid in w.procs && INDEX_KEY !in w.shared.locks
    requires var p := w.procs[pid];
             && p.job.Adding? && p.phase == LockingDomain && !p.confirm
             && p.job.record.domain != INDEX_KEY && Paired(w.shared, p.job.record.domain)
    ensures Paired(Alone(c, w, pid, nanos, WHOLE_CALL).shared, w.procs[pid].job.record.domain)
  {
    AloneIsSolo(c, w, pid, nanos, WHOLE_CALL);
    if w.procs[pid].job.record.domain in w.shared.locks {
      RefusedSolo(c, w.shared, w.procs[pid], nanos, WHOLE_CALL);
    } else {
      AddSolo(c, w.shared, w.procs[pid], nanos);
      AddedPairs(w.shared, w.procs[pid].host, w.procs[pid].job.record, nanos);
    }
  }

  lemma SettledPairs(s: Shared, p: Process)
    requires Settles(p.job) && p.record.Some? && Paired(s, DomainOf(p.job))
    ensures var d := DomainOf(p.job);
            Paired(Settled(s, p), d) <==> d !in s.locks || p.record.value.lockID == Some(s.locks[d])
  {
  }

  /** A confirmation or rejection reads its record before it has the index lock.  From a state in which
      lock and pending record of its domain are paired, it leaves them paired exactly when the domain is
      free by then or the record it read still holds the domain's lock. */
  lemma SettlePairsExactlyWhen(c: Votes.Curve, w: World, pid: nat, nanos: nat)
    requires pid in w.procs && INDEX_KEY !in w.shared.locks
    requires var p := w.procs[pid];
             && Settles(p.job) && p.phase == WantingIndex && p.record.Some?
             && DomainOf(p.job) != INDEX_KEY && Paired(w.shared, DomainOf(p.job))
    ensures var p := w.procs[pid];
            var d := DomainOf(p.job);
            var w' := Alone(c, w, pid, nanos, AFTER_READ);
            && pid in w'.procs && w'.procs[pid].phase == Finished(true)
            && (Paired(w'.shared, d) <==>
                d !in w.shared.locks || p.record.value.lockID == Some(w.shared.locks[d]))
  {
    AloneIsSolo(c, w, pid, nanos, AFTER_READ);
    SettleSolo(c, w.shared, w.procs[pid], nanos);
    SettledPairs(w.shared, w.procs[pid]);
  }

  /** The vote that a registration starts frees the domain's lock when it is refused.  From a state in
      which lock and pending record are paired, it leaves them paired exactly when the domain has no
      consensus yet or the registration's lock is gone. */
  lemma VotePairsExactlyWhen(c: Votes.Curve, w: World, pid: nat, nanos: nat)
    requires pid in w.procs
    requires var p := w.procs[pid];
             && p.job.Adding? && p.job.ballot.Some? && p.phase == ReadingVotes && p.record.Some?
             && Paired(w.shared, DomainOf(p.job))
    ensures var p := w.procs[pid];
            var d := DomainOf(p.job);
            var w' := Alone(c, w, pid, nanos, WHOLE_VOTE);
            && pid in w'.procs && w'.procs[pid].phase == Finished(true)
            && (Paired(w'.shared, d) <==>
                !Decided(w.shared, d) || d !in w.shared.locks || p.record.value.lockID != Some(w.shared.locks[d]))
  {
    AloneIsSolo(c, w, pid, nanos, WHOLE_VOTE);
    VoteSolo(c, w.shared, w.procs[pid], nanos);
  }

  // ----- stranded for good -----

  /** A call that will not free the domain's lock nor change its pending record, as things are. */
  predicate Harmless(p: Process, d: Bytes) {
    DomainOf(p.job) == d ==>
      || p.phase.Finished?
      || (p.record.None? && p.phase != WantingIndex && !Critical(p.phase))
  }

  /** The domain's lock is held, nothing is pending, and no call is left that would free it. */
  ghost predicate Stranded(w: World, d: Bytes) {
    && d != INDEX_KEY && d in w.shared.locks && PendingOf(w.shared.pending, d).None?
    && forall pid :: pid in w.procs ==> Harmless(w.procs[pid], d)
  }

  /** Records are filed under their own domains. */
  ghost predicate Filed(w: World) {
    && (forall d :: PendingOf(w.shared.pending, d).Some? ==> PendingOf(w.shared.pending, d).value.domain == d)
    && forall pid :: pid in w.procs ==> OwnRecord(w.procs[pid])
  }

  predicate OwnRecord(p: Process) {
    p.record.Some? ==> p.record.value.domain == DomainOf(p.job)
  }

  lemma TouchKeepsFiled(s: Shared, p: Process, nanos: nat, d: Bytes)
    requires OwnRecord(p) && (PendingOf(s.pending, d).Some? ==> PendingOf(s.pending, d).value.domain == d)
    ensures var pending := PendingOf(Touch(s, p, nanos).pending, d); pending.Some? ==> pending.value.domain == d
  {
  }

  lemma HavingReadKeepsOwn(c: Votes.Curve, p: Process, read: Option<Votes.VoteResult>)
    ensures HavingRead(c, p, read).record == p.record && HavingRead(c, p, read).job == p.job
  {
  }

  lemma AdvanceKeepsOwn(c: Votes.Curve, s: Shared, p: Process, nanos: nat)
    requires OwnRecord(p)
    requires var pending := PendingOf(s.pending, DomainOf(p.job)); pending.Some? ==>
      pending.value.domain == DomainOf(p.job)
    ensures OwnRecord(Advance(c, s, p, nanos))
  {
    if p.phase == ReadingVotes {
      HavingReadKeepsOwn(c, p, VotesOn(s.votes, DomainOf(p.job)));
    }
  }

  lemma NextKeepsFiled(c: Votes.Curve, w: World, step: Step)
    requires Filed(w)
    ensures Filed(Next(c, w, step))
  {
    if step.Act? && step.pid in w.procs {
      var p := w.procs[step.pid];
      assert OwnRecord(p);
      if p.phase != WantingIndex {
        forall d
          ensures var pending := PendingOf(Touch(w.shared, p, step.nanos).pending, d);
                  pending.Some? ==> pending.value.domain == d
        {
          TouchKeepsFiled(w.shared, p, step.nanos, d);
        }
        AdvanceKeepsOwn(c, w.shared, p, step.nanos);
      }
    }
  }

  lemma {:induction false} RunKeepsFiled(c: Votes.Curve, w: World, steps: seq<Step>)
    requires Filed(w)
    ensures Filed(Run(c, w, steps))
  {
    if steps != [] {
      RunKeepsFiled(c, w, steps[..|steps| - 1]);
      NextKeepsFiled(c, Run(c, w, steps[..|steps| - 1]), steps[|steps| - 1]);
    }
  }

  /** The same lock, and the same record or none. */
  ghost predicate Unmoved(w: World, w': World, d: Bytes) {
    && d in w.shared.locks && d in w'.shared.locks && w'.shared.locks[d] == w.shared.locks[d]
    && (d in w.shared.records <==> d in w'.shared.records)
    && (d in w.shared.records ==> w'.shared.records[d] == w.shared.records[d])
  }

  lemma FreedElsewhere(locks: Locks.Table, name: Bytes, id: Option<LockId>, d: Bytes)
    requires d in locks && name != d
    ensures d in Freed(locks, name, id) && Freed(locks, name, id)[d] == locks[d]
  {
  }

  lemma TouchElsewhereKeepsLock(s: Shared, p: Process, nanos: nat, d: Bytes)
    requires d != INDEX_KEY && d in s.locks && DomainOf(p.job) != d
    ensures var locks := Touch(s, p, nanos).locks; d in locks && locks[d] == s.locks[d]
  {
    FreedElsewhere(s.locks, INDEX_KEY, p.indexLock, d);
    if p.record.Some? {
      FreedElsewhere(s.locks, DomainOf(p.job), p.record.value.lockID, d);
    }
  }

  /** A call elsewhere leaves the domain's lock, pending record and record alone, and so does a harmless
      one about the domain. */
  lemma TouchElsewhere(s: Shared, p: Process, nanos: nat, d: Bytes)
    requires d != INDEX_KEY && d in s.locks && DomainOf(p.job) != d && OwnRecord(p)
    ensures var s' := Touch(s, p, nanos);
            && d in s'.locks && s'.locks[d] == s.locks[d] && PendingOf(s'.pending, d) == PendingOf(s.pending, d)
            && (d in s.records <==> d in s'.records) && (d in s.records ==> s'.records[d] == s.records[d])
  {
    TouchElsewhereKeepsLock(s, p, nanos, d);
  }

  lemma TouchHarmless(s: Shared, p: Process, nanos: nat)
    requires DomainOf(p.job) in s.locks && Harmless(p, DomainOf(p.job))
    ensures var s' := Touch(s, p, nanos); s' == s.(votes := s'.votes)
  {
  }

  lemma AdvanceStaysHarmless(c: Votes.Curve, s: Shared, p: Process, nanos: nat, d: Bytes)
    requires d in s.locks && Harmless(p, d) && PendingOf(s.pending, d).None?
    ensures Harmless(Advance(c, s, p, nanos), d)
  {
  }

  lemma NextKeepsStranded(c: Votes.Curve, w: World, step: Step, d: Bytes)
    requires Stranded(w, d) && Filed(w)
    ensures Stranded(Next(c, w, step), d) && Unmoved(w, Next(c, w, step), d)
  {
    if step.Act? && step.pid in w.procs {
      var p := w.procs[step.pid];
      assert Harmless(p, d) && OwnRecord(p);
      if DomainOf(p.job) == d {
        TouchHarmless(w.shared, p, step.nanos);
      } else {
        TouchElsewhere(w.shared, p, step.nanos, d);
      }
      AdvanceStaysHarmless(c, w.shared, p, step.nanos, d);
    }
  }

  /** A registration begun after a given time has not got past its first step. */
  ghost predicate TurnedAway(w: World, d: Bytes, known: set<nat>) {
    forall pid :: pid in w.procs && pid !in known && w.procs[pid].job.Adding? && DomainOf(w.procs[pid].job) == d ==>
      w.procs[pid].phase == LockingDomain || w.procs[pid].phase == Finished(false)
  }

  lemma AdvanceTurnsAway(c: Votes.Curve, s: Shared, p: Process, nanos: nat)
    requires p.job.Adding? && p.job.record.domain in s.locks
    requires p.phase == LockingDomain || p.phase == Finished(false)
    ensures Advance(c, s, p, nanos).phase == Finished(false)
  {
  }

  lemma NextTurnsAway(c: Votes.Curve, w: World, step: Step, d: Bytes, known: set<nat>)
    requires d in w.shared.locks && TurnedAway(w, d, known)
    ensures TurnedAway(Next(c, w, step), d, known)
  {
    if step.Act? && step.pid in w.procs && step.pid !in known {
      var p := w.procs[step.pid];
      if p.job.Adding? && DomainOf(p.job) == d {
        AdvanceTurnsAway(c, w.shared, p, step.nanos);
      }
    }
  }

  /** A stranded domain stays so whatever any nodes do: its lock is never freed, no record of it is ever
      pending or confirmed that was not, and every later registration of it fails. */
  lemma {:induction false} StrandedForGood(c: Votes.Curve, w: World, steps: seq<Step>, d: Bytes)
    requires Stranded(w, d) && Filed(w)
    ensures var w' := Run(c, w, steps);
            Stranded(w', d) && Filed(w') && Unmoved(w, w', d) && TurnedAway(w', d, w.procs.Keys)
  {
    if steps != [] {
      var before, step := steps[..|steps| - 1], steps[|steps| - 1];
      StrandedForGood(c, w, before, d);
      NextKeepsFiled(c, Run(c, w, before), step);
      NextKeepsStranded(c, Run(c, w, before), step, d);
      NextTurnsAway(c, Run(c, w, before), step, d, w.procs.Keys);
    }
  }

  // ----- runs from an empty DHT -----

  /** A set of worlds that no step of any call leaves; the proofs below are about any such set, and the
      worlds that calls reach from an empty DHT are one. */
  ghost predicate Closed(c: Votes.Curve, R: iset<World>) {
    forall w, step {:trigger Next(c, w, step)} :: w in R && Proper(step) ==> Next(c, w, step) in R
  }

  ghost function Reached(c: Votes.Curve): iset<World> {
    iset w: World | IsReached(c, w)
  }

  ghost predicate IsReached(c: Votes.Curve, w: World) {
    exists steps :: LeadsBy(c, steps, w)
  }

  ghost predicate LeadsBy(c: Votes.Curve, steps: seq<Step>, w: World) {
    (forall i :: 0 <= i < |steps| ==> Proper(steps[i])) && Run(c, EMPTY, steps) == w
  }

  lemma ReachedIsClosed(c: Votes.Curve)
    ensures Closed(c, Reached(c)) && EMPTY in Reached(c)
  {
    assert LeadsBy(c, [], EMPTY);
    forall w, step | w in Reached(c) && Proper(step)
      ensures Next(c, w, step) in Reached(c)
    {
      var steps :| LeadsBy(c, steps, w);
      var longer := steps + [step];
      assert longer[..|longer| - 1] == steps;
      assert LeadsBy(c, longer, Next(c, w, step));
    }
  }

  lemma {:induction false} StaysAlone(c: Votes.Curve, R: iset<World>, w: World, pid: nat, nanos: nat, n: nat)
    requires Closed(c, R) && w in R
    ensures Alone(c, w, pid, nanos, n) in R
    decreases n
  {
    if n > 0 {
      StaysAlone(c, R, Next(c, w, Act(pid, nanos, false)), pid, nanos, n - 1);
    }
  }

  /** A call takes n steps and nobody else any. */
  lemma RunsAlone(c: Votes.Curve, R: iset<World>, w: World, pid: nat, nanos: nat, n: nat) returns (w': World)
    requires Closed(c, R) && w in R && pid in w.procs
    ensures w' in R && pid in w'.procs && OthersStand(w, w', pid)
    ensures (w'.shared, w'.procs[pid]) == SoloRun(c, w.shared, w.procs[pid], nanos, n)
  {
    StaysAlone(c, R, w, pid, nanos, n);
    AloneIsSolo(c, w, pid, nanos, n);
    w' := Alone(c, w, pid, nanos, n);
  }

  /** A new call takes its first n steps undisturbed. */
  lemma Launches(c: Votes.Curve, R: iset<World>, w: World, pid: nat, host: Host, job: Job, nanos: nat, n: nat)
    returns (w': World)
    requires Closed(c, R) && w in R && pid !in w.procs && ValidDomain(DomainOf(job))
    ensures w' in R && pid in w'.procs && OthersStand(w, w', pid)
    ensures (w'.shared, w'.procs[pid]) == SoloRun(c, w.shared, Begun(host, job), nanos, n)
  {
    assert Proper(Spawn(pid, host, job));
    w' := RunsAlone(c, R, Next(c, w, Spawn(pid, host, job)), pid, nanos, n);
  }

  /** A new call registers a record of a free domain and comes as far as its vote. */
  lemma RegistersAlone(c: Votes.Curve, R: iset<World>, w: World, pid: nat, host: Host, record: Record,
                       ballot: Votes.Ballot,
                       nanos: nat) returns (w': World)
    requires Closed(c, R) && w in R && pid !in w.procs && ValidDomain(record.domain)
    requires INDEX_KEY !in w.shared.locks && record.domain !in w.shared.locks
    ensures w' in R && OthersStand(w, w', pid) && pid in w'.procs
    ensures w'.shared == Added(w.shared, host, record, nanos)
    ensures w'.procs[pid] == Adds(Begun(host, Adding(record, Some(ballot))), nanos)
  {
    w' := Launches(c, R, w, pid, host, Adding(record, Some(ballot)), nanos, WHOLE_CALL);
    AddSolo(c, w.shared, Begun(host, Adding(record, Some(ballot))), nanos);
  }

  /** The vote of a registration, or one on its own. */
  lemma VotesAlone(c: Votes.Curve, R: iset<World>, w: World, pid: nat, nanos: nat) returns (w': World)
    requires Closed(c, R) && w in R && pid in w.procs && w.procs[pid].phase == ReadingVotes
    requires var job := w.procs[pid].job; job.Voting? || (job.Adding? && job.ballot.Some?)
    ensures w' in R && OthersStand(w, w', pid) && pid in w'.procs
    ensures w'.shared == Voted(w.shared, w.procs[pid]) && w'.procs[pid].phase.Finished?
  {
    w' := RunsAlone(c, R, w, pid, nanos, WHOLE_VOTE);
    VoteSolo(c, w.shared, w.procs[pid], nanos);
  }

  /** A new call rejects a pending domain, undisturbed. */
  lemma RejectsAlone(c: Votes.Curve, R: iset<World>, w: World, pid: nat, host: Host, d: Bytes, nanos: nat)
    returns (w': World)
    requires Closed(c, R) && w in R && pid !in w.procs && ValidDomain(d)
    requires INDEX_KEY !in w.shared.locks && PendingOf(w.shared.pending, d).Some?
    ensures w' in R && OthersStand(w, w', pid) && pid in w'.procs && w'.procs[pid].phase.Finished?
    ensures w'.shared == Settled(w.shared, Having(Begun(host, Rejecting(d)), PendingOf(w.shared.pending, d)))
  {
    w' := Launches(c, R, w, pid, host, Rejecting(d), nanos, WHOLE_CALL);
    SettleSoloFromRead(c, w.shared, Begun(host, Rejecting(d)), nanos);
  }

  /** A new call decides on a domain up to reading the pending record. */
  lemma DecidesAlone(c: Votes.Curve, R: iset<World>, w: World, pid: nat, host: Host, d: Bytes, chainOk: bool,
                     nanos: nat)
    returns (w': World)
    requires Closed(c, R) && w in R && pid !in w.procs && ValidDomain(d) && d in w.shared.votes
    requires w.shared.votes[d].decisionMaker == host && Votes.HasQuorum(w.shared.votes[d])
    ensures w' in R && OthersStand(w, w', pid) && pid in w'.procs
    ensures (w'.shared, w'.procs[pid]) == Decides(c, w.shared, Begun(host, Deciding(d, chainOk)))
  {
    var p := Begun(host, Deciding(d, chainOk));
    w' := Launches(c, R, w, pid, host, Deciding(d, chainOk), nanos, DecidingSteps(c, w.shared.votes[d], chainOk));
    DecideSolo(c, w.shared, p, nanos);
  }

  /** A settling call reads the pending record and comes no further. */
  lemma ReadsAlone(c: Votes.Curve, R: iset<World>, w: World, pid: nat, nanos: nat) returns (w': World)
    requires Closed(c, R) && w in R && pid in w.procs && Settles(w.procs[pid].job)
             && w.procs[pid].phase == ReadingPending
    requires PendingOf(w.shared.pending, DomainOf(w.procs[pid].job)).Some?
    ensures w' in R && OthersStand(w, w', pid) && pid in w'.procs && w'.shared == w.shared
    ensures w'.procs[pid] == Having(w.procs[pid], PendingOf(w.shared.pending, DomainOf(w.procs[pid].job)))
  {
    w' := RunsAlone(c, R, w, pid, nanos, 1);
    SoloUnfolds(c, w.shared, w.procs[pid], nanos, 1);
  }

  /** A settling call that comes too late, when another record holds the lock, strands the domain. */
  lemma LateSettlingStrands(c: Votes.Curve, R: iset<World>, w: World, pid: nat, nanos: nat) returns (w': World)
    requires Closed(c, R) && w in R && pid in w.procs && INDEX_KEY !in w.shared.locks
    requires var p := w.procs[pid];
             var d := DomainOf(p.job);
             && Settles(p.job) && p.phase == WantingIndex && p.record.Some? && p.record.value.domain == d
             && d != INDEX_KEY && d in w.shared.locks && p.record.value.lockID != Some(w.shared.locks[d])
             && forall q :: q in w.procs && q != pid ==> Harmless(w.procs[q], d)
    ensures w' in R && OthersStand(w, w', pid) && pid in w'.procs && w'.procs[pid].phase.Finished?
    ensures var p := w.procs[pid];
            var d := DomainOf(p.job);
            && Stranded(w', d) && w'.shared.locks[d] == w.shared.locks[d]
            && (if p.confirm then d in w'.shared.records && w'.shared.records[d] == p.record.value.(status := Confirmed)
                else w'.shared.records == w.shared.records)
  {
    w' := RunsAlone(c, R, w, pid, nanos, AFTER_READ);
    SettleSolo(c, w.shared, w.procs[pid], nanos);
    LateSettled(w.shared, w.procs[pid]);
  }

  lemma LateSettled(s: Shared, p: Process)
    requires Settles(p.job) && p.record.Some? && p.record.value.domain == DomainOf(p.job)
    requires DomainOf(p.job) in s.locks && p.record.value.lockID != Some(s.locks[DomainOf(p.job)])
    ensures var d := DomainOf(p.job);
            var s' := Settled(s, p);
            && s'.locks == s.locks && PendingOf(s'.pending, d).None?
            && (if p.confirm then d in s'.records && s'.records[d] == p.record.value.(status := Confirmed)
                else s'.records == s.records)
  {
  }

  // ----- three such runs -----

  /** Calls are numbered below n and, but for the busy ones, are finished. */
  ghost predicate Stage(w: World, n: nat, busy: set<nat>) {
    forall pid :: pid in w.procs ==> pid < n && (pid in busy || w.procs[pid].phase.Finished?)
  }

  /** The domain's lock is the only one and has the record pending. */
  ghost predicate HeldBy(s: Shared, host: Host, record: Record, nanos: nat) {
    && s.locks == map[record.domain := Locks.LockId(host, nanos)]
    && PendingOf(s.pending, record.domain) == Some(Lifecycle.Registered(record, host, nanos))
  }

  /** Votes were cast and no consensus is saved. */
  predicate Open(s: Shared, d: Bytes) {
    d in s.votes && s.votes[d].domain == d && !Decided(s, d)
  }

  /** A vote on its own read: the ballot decides the domain's fate if it is the first. */
  lemma FirstVoted(s: Shared, p: Process)
    requires p.job.Voting? || (p.job.Adding? && p.job.ballot.Some?)
    requires DomainOf(p.job) !in s.votes && BallotOf(p).onlineNodes <= 2
    ensures var d := DomainOf(p.job);
            var s' := Voted(s, p);
            && s' == s.(votes := s'.votes) && Open(s', d)
            && s'.votes[d].decisionMaker == BallotOf(p).decisionMaker && Votes.HasQuorum(s'.votes[d])
            && (Votes.Carried(s'.votes[d]) <==> BallotOf(p).decision)
  {
    var d := DomainOf(p.job);
    var votes := Votes.Submit(None, d, BallotOf(p)).value.votes;
    assert votes.Keys == {BallotOf(p).host};
    assert Votes.Accepting(votes) == if BallotOf(p).decision then {BallotOf(p).host} else {};
  }

  lemma NextVoted(s: Shared, p: Process)
    requires p.job.Adding? && p.job.ballot.Some? && Open(s, DomainOf(p.job))
    ensures Voted(s, p) == s.(votes := Voted(s, p).votes) && Open(Voted(s, p), DomainOf(p.job))
  {
  }

  /** Call 1 registers the first record and votes for it. */
  lemma FirstRegistered(c: Votes.Curve, R: iset<World>, first: Record, a: Host, ballot: Votes.Ballot) returns (w: World)
    requires Closed(c, R) && EMPTY in R && ValidDomain(first.domain) && ballot.onlineNodes <= 2
    ensures w in R && Stage(w, 2, {}) && HeldBy(w.shared, a, first, 1) && w.shared.records == map[]
    ensures var d := first.domain;
            && Open(w.shared, d) && w.shared.votes[d].decisionMaker == ballot.decisionMaker
            && Votes.HasQuorum(w.shared.votes[d]) && Votes.Carried(w.shared.votes[d])
  {
    w := RegistersAlone(c, R, EMPTY, 1, a, first, ballot, 1);
    FirstVoted(w.shared, w.procs[1]);
    w := VotesAlone(c, R, w, 1, 1);
  }

  /** A rejection begins and reads the pending record. */
  lemma RejectionReads(c: Votes.Curve, R: iset<World>, w: World, pid: nat, a: Host, record: Record) returns (w': World)
    requires Closed(c, R) && w in R && ValidDomain(record.domain) && Stage(w, pid, {})
    requires HeldBy(w.shared, a, record, 1)
    ensures w' in R && Stage(w', pid + 1, {pid}) && w'.shared == w.shared && pid in w'.procs
    ensures w'.procs[pid] ==
            Having(Begun(a, Rejecting(record.domain)), Some(Lifecycle.Registered(record, a, 1)))
  {
    w' := Launches(c, R, w, pid, a, Rejecting(record.domain), 0, 0);
    w' := ReadsAlone(c, R, w', pid, 0);
  }

  /** What is left of a record that held the only lock once it is settled. */
  lemma SettledHeld(s: Shared, p: Process, host: Host, record: Record, nanos: nat)
    requires Settles(p.job) && DomainOf(p.job) == record.domain && HeldBy(s, host, record, nanos)
    requires p.record == Some(Lifecycle.Registered(record, host, nanos))
    ensures var s' := Settled(s, p);
            && s'.locks == map[] && PendingOf(s'.pending, record.domain).None? && s'.votes == s.votes
            && (!p.confirm ==> s'.records == s.records)
  {
  }

  /** A settling call settles, undisturbed, a record that holds the only lock. */
  lemma SettlesHeld(c: Votes.Curve, R: iset<World>, w: World, pid: nat, host: Host, record: Record, nanos: nat)
    returns (w': World)
    requires Closed(c, R) && w in R && HeldBy(w.shared, host, record, nanos) && ValidDomain(record.domain)
    requires pid in w.procs && Settles(w.procs[pid].job) && DomainOf(w.procs[pid].job) == record.domain
    requires w.procs[pid].phase == ReadingPending && !w.procs[pid].confirm
    ensures w' in R && OthersStand(w, w', pid) && pid in w'.procs && w'.procs[pid].phase.Finished?
    ensures w'.shared.locks == map[] && PendingOf(w'.shared.pending, record.domain).None?
    ensures w'.shared.votes == w.shared.votes && w'.shared.records == w.shared.records
  {
    w' := RunsAlone(c, R, w, pid, 3, WHOLE_CALL);
    SettleSoloFromRead(c, w.shared, w.procs[pid], 3);
    SettledHeld(w.shared, Having(w.procs[pid], PendingOf(w.shared.pending, record.domain)), host, record, nanos);
  }

  /** A decision whose transaction the chain refuses rejects the record. */
  lemma RefusalSettles(c: Votes.Curve, R: iset<World>, w: World, pid: nat, busy: set<nat>, a: Host, record: Record)
    returns (w': World)
    requires Closed(c, R) && w in R && ValidDomain(record.domain) && Stage(w, pid, busy) && pid !in busy
    requires HeldBy(w.shared, a, record, 1) && Open(w.shared, record.domain)
    requires var r := w.shared.votes[record.domain];
             r.decisionMaker == a && Votes.HasQuorum(r) && Votes.Carried(r)
    ensures w' in R && Stage(w', pid + 1, busy) && OthersStand(w, w', pid)
    ensures w'.shared.locks == map[] && PendingOf(w'.shared.pending, record.domain).None?
    ensures Open(w'.shared, record.domain) && w'.shared.records == w.shared.records
  {
    w' := DecidesAlone(c, R, w, pid, a, record.domain, false, 3);
    w' := SettlesHeld(c, R, w', pid, a, record, 1);
  }

  /** A second registration of the domain, with its vote. */
  lemma SecondRegistered(c: Votes.Curve, R: iset<World>, w: World, pid: nat, busy: set<nat>, b: Host, second: Record,
                         ballot: Votes.Ballot) returns (w': World)
    requires Closed(c, R) && w in R && ValidDomain(second.domain) && Stage(w, pid, busy) && pid !in busy
    requires w.shared.locks == map[] && Open(w.shared, second.domain)
    ensures w' in R && Stage(w', pid + 1, busy) && OthersStand(w, w', pid)
    ensures HeldBy(w'.shared, b, second, 4) && w'.shared.records == w.shared.records
  {
    w' := RegistersAlone(c, R, w, pid, b, second, ballot, 4);
    NextVoted(w'.shared, w'.procs[pid]);
    w' := VotesAlone(c, R, w', pid, 4);
  }

  lemma ReachedIsFiled(c: Votes.Curve, w: World)
    requires w in Reached(c)
    ensures Filed(w)
  {
    var steps :| LeadsBy(c, steps, w);
    RunKeepsFiled(c, EMPTY, steps);
  }

  lemma LateRejection(c: Votes.Curve, R: iset<World>, first: Record, second: Record, a: Host, b: Host,
                      ballot: Votes.Ballot, other: Votes.Ballot) returns (w: World)
    requires Closed(c, R) && EMPTY in R && first.domain == second.domain && ValidDomain(first.domain)
    requires ballot.decisionMaker == a && ballot.onlineNodes <= 2
    ensures w in R && Stranded(w, first.domain) && Stage(w, 5, {})
    ensures w.shared.locks[first.domain] == Locks.LockId(b, 4) && first.domain !in w.shared.records
  {
    var w1 := FirstRegistered(c, R, first, a, ballot);
    var w2 := RejectionReads(c, R, w1, 2, a, first);
    var w3 := RefusalSettles(c, R, w2, 3, {2}, a, first);
    var w4 := SecondRegistered(c, R, w3, 4, {2}, b, second, other);
    assert w4.procs[2] == w2.procs[2];
    w := LateSettlingStrands(c, R, w4, 2, 5);
  }

  /** A rejection that comes too late strands a domain for good.  The node that registered the first
      record fails to publish it and rejects it, and has read it when the decision maker, refused by the
      chain, rejects it as well; another node registers a second record and votes for it; then the late
      rejection empties the second record's pending key and frees no lock.  All calls are finished, the
      domain is neither pending nor confirmed, and nobody can register it any more. */
  lemma LateRejectionStrandsDomain(c: Votes.Curve, first: Record, second: Record, a: Host, b: Host,
                                   ballot: Votes.Ballot, other: Votes.Ballot) returns (w: World)
    requires first.domain == second.domain && ValidDomain(first.domain)
    requires ballot.decisionMaker == a && ballot.onlineNodes <= 2
    ensures w in Reached(c) && Filed(w) && Stranded(w, first.domain)
    ensures forall pid :: pid in w.procs ==> w.procs[pid].phase.Finished?
    ensures w.shared.locks[first.domain] == Locks.LockId(b, 4) && first.domain !in w.shared.records
  {
    ReachedIsClosed(c);
    w := LateRejection(c, Reached(c), first, second, a, b, ballot, other);
    ReachedIsFiled(c, w);
  }

  /** A vote begins and reads the votes, no consensus being saved. */
  lemma VoteReads(c: Votes.Curve, R: iset<World>, w: World, pid: nat, b: Host, d: Bytes, late: Votes.Ballot)
    returns (w': World)
    requires Closed(c, R) && w in R && ValidDomain(d) && Stage(w, pid, {}) && Open(w.shared, d)
    ensures w' in R && Stage(w', pid + 1, {pid}) && w'.shared == w.shared && pid in w'.procs
    ensures var p := w'.procs[pid];
            && p.job == Voting(d, late) && p.phase.WritingVotes?
            && p.phase.result.domain == d && !p.phase.result.consensus && !p.phase.result.decision
  {
    w' := Launches(c, R, w, pid, b, Voting(d, late), 0, 1);
    SoloUnfolds(c, w.shared, Begun(b, Voting(d, late)), 0, 1);
  }

  /** A decision saves the consensus and reads the pending record it will confirm. */
  lemma ConfirmationReads(c: Votes.Curve, R: iset<World>, w: World, pid: nat, busy: set<nat>, a: Host, record: Record)
    returns (w': World)
    requires Closed(c, R) && w in R && ValidDomain(record.domain) && Stage(w, pid, busy) && pid !in busy
    requires HeldBy(w.shared, a, record, 1) && Open(w.shared, record.domain)
    requires var r := w.shared.votes[record.domain]; r.decisionMaker == a && Votes.HasQuorum(r)
    ensures w' in R && Stage(w', pid + 1, busy + {pid}) && OthersStand(w, w', pid) && pid in w'.procs
    ensures w'.shared == w.shared.(votes := w'.shared.votes) && Decided(w'.shared, record.domain)
    ensures w'.procs[pid] == Having(Begun(a, Deciding(record.domain, true)),
                                    Some(Lifecycle.Registered(record, a, 1))).(confirm := true)
  {
    var w1 := DecidesAlone(c, R, w, pid, a, record.domain, true, 3);
    w' := ReadsAlone(c, R, w1, pid, 3);
  }

  /** A vote is written that was cast before the consensus was saved, and the consensus is lost. */
  lemma StaleVoteLosesConsensus(c: Votes.Curve, R: iset<World>, w: World, pid: nat) returns (w': World)
    requires Closed(c, R) && w in R && pid in w.procs && w.procs[pid].job.Voting? && w.procs[pid].phase.WritingVotes?
    requires var r := w.procs[pid].phase.result; !r.consensus && !r.decision
    ensures w' in R && OthersStand(w, w', pid) && pid in w'.procs && w'.procs[pid].phase.Finished?
    ensures w'.shared == w.shared.(votes := w'.shared.votes) && Open(w'.shared, w.procs[pid].phase.result.domain)
  {
    w' := RunsAlone(c, R, w, pid, 0, 1);
    SoloUnfolds(c, w.shared, w.procs[pid], 0, 1);
  }

  lemma RejectionSettles(c: Votes.Curve, R: iset<World>, w: World, pid: nat, busy: set<nat>, a: Host, record: Record)
    returns (w': World)
    requires Closed(c, R) && w in R && ValidDomain(record.domain) && Stage(w, pid, busy) && pid !in busy
    requires HeldBy(w.shared, a, record, 1) && Open(w.shared, record.domain)
    ensures w' in R && Stage(w', pid + 1, busy) && OthersStand(w, w', pid)
    ensures w'.shared.locks == map[] && Open(w'.shared, record.domain)
  {
    w' := RejectsAlone(c, R, w, pid, a, record.domain, 0);
    SettledHeld(w.shared, Having(Begun(a, Rejecting(record.domain)), PendingOf(w.shared.pending, record.domain)),
                a, record, 1);
  }

  /** The first record is pending, a decision that saved its consensus is about to confirm it, and the
      consensus is lost. */
  lemma ConsensusLost(c: Votes.Curve, R: iset<World>, first: Record, a: Host, b: Host,
                      ballot: Votes.Ballot, late: Votes.Ballot) returns (w: World)
    requires Closed(c, R) && EMPTY in R && ValidDomain(first.domain)
    requires ballot.decisionMaker == a && ballot.onlineNodes <= 2
    ensures w in R && Stage(w, 4, {3}) && HeldBy(w.shared, a, first, 1) && Open(w.shared, first.domain)
    ensures 3 in w.procs && w.procs[3] ==
                            Having(Begun(a, Deciding(first.domain, true)),
                                   Some(Lifecycle.Registered(first, a, 1))).(confirm := true)
  {
    var w1 := FirstRegistered(c, R, first, a, ballot);
    var w2 := VoteReads(c, R, w1, 2, b, first.domain, late);
    var w3 := ConfirmationReads(c, R, w2, 3, {2}, a, first);
    w := StaleVoteLosesConsensus(c, R, w3, 2);
  }

  lemma LateConfirmation(c: Votes.Curve, R: iset<World>, first: Record, second: Record, a: Host, b: Host,
                         ballot: Votes.Ballot, other: Votes.Ballot, late: Votes.Ballot) returns (w: World)
    requires Closed(c, R) && EMPTY in R && first.domain == second.domain && ValidDomain(first.domain)
    requires ballot.decisionMaker == a && ballot.onlineNodes <= 2
    ensures w in R && Stranded(w, first.domain) && Stage(w, 6, {})
    ensures w.shared.locks[first.domain] == Locks.LockId(b, 4)
    ensures first.domain in w.shared.records
         && w.shared.records[first.domain] == Lifecycle.Registered(first, a, 1).(status := Confirmed)
  {
    var w1 := ConsensusLost(c, R, first, a, b, ballot, late);
    var w2 := RejectionSettles(c, R, w1, 4, {3}, a, first);
    var w3 := SecondRegistered(c, R, w2, 5, {3}, b, second, other);
    assert w3.procs[3] == w1.procs[3];
    w := LateSettlingStrands(c, R, w3, 3, 6);
  }

  /** A confirmation that comes too late does the same once its consensus is lost to a vote cast before:
      the first record is rejected and confirmed all the same, the second one is gone, and its lock stays
      for good. */
  lemma LateConfirmationStrandsDomain(c: Votes.Curve, first: Record, second: Record, a: Host, b: Host,
                                      ballot: Votes.Ballot, other: Votes.Ballot, late: Votes.Ballot) returns (w: World)
    requires first.domain == second.domain && ValidDomain(first.domain)
    requires ballot.decisionMaker == a && ballot.onlineNodes <= 2
    ensures w in Reached(c) && Filed(w) && Stranded(w, first.domain)
    ensures forall pid :: pid in w.procs ==> w.procs[pid].phase.Finished?
    ensures w.shared.locks[first.domain] == Locks.LockId(b, 4)
    ensures first.domain in w.shared.records
         && w.shared.records[first.domain] == Lifecycle.Registered(first, a, 1).(status := Confirmed)
  {
    ReachedIsClosed(c);
    w := LateConfirmation(c, Reached(c), first, second, a, b, ballot, other, late);
    ReachedIsFiled(c, w);
  }

  lemma QuorumWithoutOwnVote(c: Votes.Curve, R: iset<World>, record: Record, a: Host, b: Host,
                             own: Votes.Ballot, vote: Votes.Ballot) returns (w: World)
    requires Closed(c, R) && EMPTY in R && ValidDomain(record.domain)
    requires vote.decisionMaker == b && vote.onlineNodes <= 2
    ensures w in R && HeldBy(w.shared, a, record, 1) && Stage(w, 3, {1}) && 1 in w.procs
    ensures w.procs[1] == Adds(Begun(a, Adding(record, Some(own))), 1)
    ensures record.domain in w.shared.votes && w.shared.votes[record.domain].decisionMaker == b
    ensures w.shared.votes[record.domain].domain == record.domain && Votes.HasQuorum(w.shared.votes[record.domain])
  {
    var w1 := RegistersAlone(c, R, EMPTY, 1, a, record, own, 1);
    var w2 := Launches(c, R, w1, 2, b, Voting(record.domain, vote), 0, 0);
    FirstVoted(w2.shared, w2.procs[2]);
    w := VotesAlone(c, R, w2, 2, 0);
    assert w.procs[1] == w1.procs[1];
  }

  lemma OwnVoteRefused(c: Votes.Curve, R: iset<World>, w: World, record: Record, a: Host, b: Host, own: Votes.Ballot)
    returns (before: World, after: World)
    requires Closed(c, R) && w in R && ValidDomain(record.domain) && HeldBy(w.shared, a, record, 1)
    requires Stage(w, 3, {1}) && 1 in w.procs && w.procs[1] == Adds(Begun(a, Adding(record, Some(own))), 1)
    requires record.domain in w.shared.votes && w.shared.votes[record.domain].decisionMaker == b
    requires w.shared.votes[record.domain].domain == record.domain
    requires Votes.HasQuorum(w.shared.votes[record.domain])
    ensures before in R && after in R && HeldBy(before.shared, a, record, 1)
    ensures after.shared == before.shared.(locks := map[])
  {
    before := DecidesAlone(c, R, w, 3, b, record.domain, true, 0);
    assert before.procs[1] == w.procs[1];
    after := VotesAlone(c, R, before, 1, 0);
  }

  /** A refused vote unpairs lock and record with no late call about: another node's vote makes the
      quorum, its decision saves the consensus, and only then the registration's own vote is read.  The
      record stays pending and its lock is free. */
  lemma RefusedVoteUnpairs(c: Votes.Curve, record: Record, a: Host, b: Host, own: Votes.Ballot, vote: Votes.Ballot)
    returns (before: World, after: World)
    requires ValidDomain(record.domain) && vote.decisionMaker == b && vote.onlineNodes <= 2
    ensures before in Reached(c) && after in Reached(c)
    ensures var d := record.domain;
            && Paired(before.shared, d) && !Paired(after.shared, d) && d !in after.shared.locks
            && PendingOf(after.shared.pending, d) == Some(Lifecycle.Registered(record, a, 1))
  {
    ReachedIsClosed(c);
    var w := QuorumWithoutOwnVote(c, Reached(c), record, a, b, own, vote);
    before, after := OwnVoteRefused(c, Reached(c), w, record, a, b, own);
  }
}
