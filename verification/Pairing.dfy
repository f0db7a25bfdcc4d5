/** Locks and pending records over whole interleavings: what must not happen for them to go together again
    once all calls about a domain are finished. */
module Pairing {
  import opened Bytes
  import opened Options
  import opened Keys
  import opened Store
  import opened Interleaving
  import Lifecycle
  import Locks
  import Stranding
  import Votes

  predicate About(p: Process, d: Bytes) {
    DomainOf(p.job) == d
  }

  /** A registration that has its domain's lock and has not written its record. */
  predicate Entering(p: Process) {
    p.job.Adding? && (p.phase == WantingIndex || p.phase == ReadingIndex || p.phase.WritingIndex?
                      || p.phase == SavingRecord || p.phase == WritingPending || p.phase == GivingUp)
  }

  predicate Leaving(p: Process) {
    !p.job.Adding? && p.phase == FreeingDomain
  }

  /** The call will write the record of that lock, or free it. */
  predicate Owns(p: Process, d: Bytes, id: LockId) {
    About(p, d) && HasLock(p, id) && (Entering(p) || Leaving(p))
  }

  predicate HasLock(p: Process, id: LockId) {
    p.record.Some? && p.record.value.lockID == Some(id)
  }

  // ----- what is excluded -----

  /** A settling call empties the pending key of a record other than the one it read. */
  ghost predicate EmptiesOther(s: Shared, p: Process) {
    var pending := PendingOf(s.pending, DomainOf(p.job));
    p.phase == WritingPending && !p.job.Adding? && pending.Some? && pending != p.record
  }

  /** A registration's refused vote takes back the lock of a pending record. */
  ghost predicate TakesFromPending(s: Shared, p: Process) {
    var d := DomainOf(p.job);
    p.phase == TakingBack && PendingOf(s.pending, d).Some? && d in s.locks && HasLock(p, s.locks[d])
  }

  /** A lock is taken with an id that some call about the domain has had: host and nanosecond agree. */
  ghost predicate ReusesId(w: World, p: Process, nanos: nat) {
    && p.phase == LockingDomain
    && exists q ::
         q in w.procs && About(w.procs[q], DomainOf(p.job)) && HasLock(w.procs[q], Locks.LockId(p.host, nanos))
  }

  ghost predicate Sane(w: World, step: Step, d: Bytes) {
    step.Act? && step.pid in w.procs && About(w.procs[step.pid], d) ==>
      var p := w.procs[step.pid];
      !EmptiesOther(w.shared, p) && !TakesFromPending(w.shared, p) && !ReusesId(w, p, step.nanos)
  }

  ghost predicate SaneRun(c: Votes.Curve, w: World, steps: seq<Step>, d: Bytes) {
    steps != [] ==>
      var n := |steps| - 1;
      SaneRun(c, w, steps[..n], d) && Sane(Run(c, w, steps[..n]), steps[n], d)
  }

  // ----- what such a run keeps -----

  ghost predicate PendingLocked(s: Shared, d: Bytes) {
    var pending := PendingOf(s.pending, d);
    pending.Some? ==> d in s.locks && pending.value.lockID == Some(s.locks[d])
  }

  /** A lock without a pending record is somebody's. */
  ghost predicate LockOwned(s: Shared, procs: map<nat, Process>, d: Bytes) {
    d in s.locks && PendingOf(s.pending, d).None? ==> exists pid :: pid in procs && Owns(procs[pid], d, s.locks[d])
  }

  /** While a registration is entering, the lock is its own, nothing is pending, and nobody else has had the
      lock's id or is entering. */
  ghost predicate EntersAlone(s: Shared, procs: map<nat, Process>, d: Bytes, pid: nat) {
    && pid in procs && d in s.locks && HasLock(procs[pid], s.locks[d]) && PendingOf(s.pending, d).None?
    && forall q :: q in procs && q != pid && About(procs[q], d) ==>
                     !Entering(procs[q]) && !HasLock(procs[q], s.locks[d])
  }

  ghost predicate EnteringAlone(s: Shared, procs: map<nat, Process>, d: Bytes) {
    forall pid :: pid in procs && About(procs[pid], d) && Entering(procs[pid]) ==> EntersAlone(s, procs, d, pid)
  }

  ghost predicate PairingInv(s: Shared, procs: map<nat, Process>, d: Bytes) {
    PendingLocked(s, d) && LockOwned(s, procs, d) && EnteringAlone(s, procs, d)
  }

  /** The domain's lock and pending record are as before. */
  ghost predicate SameFor(s: Shared, s': Shared, d: Bytes) {
    && (d in s'.locks <==> d in s.locks) && (d in s.locks ==> s'.locks[d] == s.locks[d])
    && PendingOf(s'.pending, d) == PendingOf(s.pending, d)
  }

  /** A step that leaves lock, pending record and the call's own part in them alone. */
  lemma QuietStep(s: Shared, s': Shared, procs: map<nat, Process>, pid: nat, p': Process, d: Bytes)
    requires PairingInv(s, procs, d) && SameFor(s, s', d)
    requires About(p', d) && Entering(p') ==>
               pid in procs && About(procs[pid], d) && Entering(procs[pid]) && p'.record == procs[pid].record
    requires pid in procs && d in s.locks && Owns(procs[pid], d, s.locks[d]) ==> Owns(p', d, s.locks[d])
    requires About(p', d) && p'.record.Some? ==>
               (pid in procs && About(procs[pid], d) && p'.record == procs[pid].record) || PendingOf(s.pending, d).Some?
    ensures PairingInv(s', procs[pid := p'], d)
  {
    var procs' := procs[pid := p'];
    if d in s.locks && PendingOf(s.pending, d).None? {
      var owner :| owner in procs && Owns(procs[owner], d, s.locks[d]);
      assert Owns(procs'[owner], d, s'.locks[d]);
    }
    forall q | q in procs' && About(procs'[q], d) && Entering(procs'[q])
      ensures EntersAlone(s', procs', d, q)
    {
      assert EntersAlone(s, procs, d, q);
    }
  }

  /** Where nothing is locked nothing is pending and nobody enters. */
  lemma FreeIsQuiet(s: Shared, procs: map<nat, Process>, d: Bytes)
    requires PairingInv(s, procs, d) && d !in s.locks
    ensures PendingOf(s.pending, d).None?
    ensures forall q :: q in procs && About(procs[q], d) ==> !Entering(procs[q])
  {
    forall q | q in procs && About(procs[q], d)
      ensures !Entering(procs[q])
    {
      assert Entering(procs[q]) ==> EntersAlone(s, procs, d, q);
    }
  }

  lemma LockStep(s: Shared, s': Shared, procs: map<nat, Process>, pid: nat, p': Process, d: Bytes, id: LockId)
    requires PairingInv(s, procs, d) && d !in s.locks
    requires d in s'.locks && s'.locks[d] == id && PendingOf(s'.pending, d) == PendingOf(s.pending, d)
    requires About(p', d) && Entering(p') && HasLock(p', id)
    requires forall q :: q in procs && About(procs[q], d) ==> !HasLock(procs[q], id)
    ensures PairingInv(s', procs[pid := p'], d)
  {
    FreeIsQuiet(s, procs, d);
    var procs' := procs[pid := p'];
    assert Owns(procs'[pid], d, id);
    assert EntersAlone(s', procs', d, pid);
  }

  /** The entering registration writes its record. */
  lemma WriteStep(s: Shared, s': Shared, procs: map<nat, Process>, pid: nat, p': Process, d: Bytes)
    requires PairingInv(s, procs, d) && pid in procs && About(procs[pid], d) && Entering(procs[pid])
    requires s'.locks == s.locks && PendingOf(s'.pending, d) == procs[pid].record && !Entering(p')
    ensures PairingInv(s', procs[pid := p'], d)
  {
    assert EntersAlone(s, procs, d, pid);
  }

  /** The lock is freed, nothing being pending. */
  lemma FreeStep(s: Shared, s': Shared, procs: map<nat, Process>, pid: nat, p': Process, d: Bytes)
    requires PairingInv(s, procs, d) && pid in procs && About(procs[pid], d)
    requires d in s.locks && d !in s'.locks && PendingOf(s.pending, d).None? && PendingOf(s'.pending, d).None?
    requires HasLock(procs[pid], s.locks[d]) && !Entering(p')
    ensures PairingInv(s', procs[pid := p'], d)
  {
    var procs' := procs[pid := p'];
    forall q | q in procs' && About(procs'[q], d)
      ensures !Entering(procs'[q])
    {
      assert q != pid && Entering(procs[q]) ==> EntersAlone(s, procs, d, q);
    }
  }

  /** A settling call empties the pending key of the record it has, or finds it empty. */
  lemma EmptyStep(s: Shared, s': Shared, procs: map<nat, Process>, pid: nat, p': Process, d: Bytes)
    requires PairingInv(s, procs, d) && pid in procs && About(procs[pid], d)
    requires !Entering(procs[pid]) && !Leaving(procs[pid])
    requires PendingOf(s.pending, d).Some? ==> PendingOf(s.pending, d) == procs[pid].record
    requires s'.locks == s.locks && PendingOf(s'.pending, d).None?
    requires About(p', d) && Leaving(p') && p'.record == procs[pid].record
    ensures PairingInv(s', procs[pid := p'], d)
  {
    var procs' := procs[pid := p'];
    if d in s.locks {
      if PendingOf(s.pending, d).Some? {
        assert Owns(procs'[pid], d, s'.locks[d]);
      } else {
        var owner :| owner in procs && Owns(procs[owner], d, s.locks[d]);
        assert Owns(procs'[owner], d, s'.locks[d]);
      }
    }
    forall q | q in procs' && About(procs'[q], d) && Entering(procs'[q])
      ensures EntersAlone(s', procs', d, q)
    {
      assert EntersAlone(s, procs, d, q);
    }
  }

  // ----- the steps of the calls -----

  lemma FreedElsewhere(locks: Locks.Table, name: Bytes, id: Option<LockId>, d: Bytes)
    requires name != d
    ensures d in Freed(locks, name, id) <==> d in locks
    ensures d in locks ==> Freed(locks, name, id)[d] == locks[d]
  {
  }

  lemma FreedHere(locks: Locks.Table, d: Bytes, p: Process)
    requires p.record.Some?
    ensures d in locks && HasLock(p, locks[d]) ==> d !in Freed(locks, d, p.record.value.lockID)
    ensures d in locks && !HasLock(p, locks[d]) ==> Freed(locks, d, p.record.value.lockID) == locks
    ensures d !in locks ==> Freed(locks, d, p.record.value.lockID) == locks
  {
  }

  lemma ElsewherePending(s: Shared, p: Process, nanos: nat, d: Bytes)
    requires !About(p, d)
    ensures PendingOf(Touch(s, p, nanos).pending, d) == PendingOf(s.pending, d)
  {
  }

  lemma ElsewhereLocks(s: Shared, p: Process, nanos: nat, d: Bytes)
    requires !About(p, d) && d != INDEX_KEY
    ensures var locks := Touch(s, p, nanos).locks;
            (d in locks <==> d in s.locks) && (d in s.locks ==> locks[d] == s.locks[d])
  {
    FreedElsewhere(s.locks, INDEX_KEY, p.indexLock, d);
    if p.record.Some? {
      FreedElsewhere(s.locks, DomainOf(p.job), p.record.value.lockID, d);
    }
  }

  /** A call about another domain. */
  lemma ElsewhereIsQuiet(s: Shared, p: Process, nanos: nat, d: Bytes)
    requires !About(p, d) && d != INDEX_KEY
    ensures SameFor(s, Touch(s, p, nanos), d)
  {
    ElsewherePending(s, p, nanos, d);
    ElsewhereLocks(s, p, nanos, d);
  }

  predicate Quiet(phase: Phase) {
    phase == ReadingPending || phase == ReadingIndex || phase.WritingIndex? || phase == SavingRecord
    || phase == FreeingIndex || phase == ReadingVotes || phase.WritingVotes? || phase.Finished?
  }

  lemma QuietTouch(s: Shared, p: Process, nanos: nat, d: Bytes)
    requires About(p, d) && d != INDEX_KEY && Quiet(p.phase)
    ensures SameFor(s, Touch(s, p, nanos), d)
  {
    FreedElsewhere(s.locks, INDEX_KEY, p.indexLock, d);
  }

  lemma QuietAdvance(c: Votes.Curve, s: Shared, p: Process, nanos: nat)
    requires Quiet(p.phase) && Fits(p.job, p.phase)
    ensures var p' := Advance(c, s, p, nanos);
            && p'.job == p.job
            && (p'.record == p.record
                || (!p.job.Adding? && p'.record == PendingOf(s.pending, DomainOf(p.job)) && p'.record.Some?))
            && (Entering(p') <==> Entering(p)) && !Leaving(p) && (Entering(p') ==> p'.record == p.record)
  {
    if p.phase == ReadingVotes {
      Stranding.HavingReadKeepsOwn(c, p, VotesOn(s.votes, DomainOf(p.job)));
    }
  }

  lemma QuietActKeeps(c: Votes.Curve, s: Shared, procs: map<nat, Process>, pid: nat, nanos: nat, d: Bytes)
    requires PairingInv(s, procs, d) && pid in procs && About(procs[pid], d) && d != INDEX_KEY
    requires Quiet(procs[pid].phase) && Fits(procs[pid].job, procs[pid].phase)
    ensures PairingInv(Touch(s, procs[pid], nanos), procs[pid := Advance(c, s, procs[pid], nanos)], d)
  {
    QuietTouch(s, procs[pid], nanos, d);
    QuietAdvance(c, s, procs[pid], nanos);
    QuietStep(s, Touch(s, procs[pid], nanos), procs, pid, Advance(c, s, procs[pid], nanos), d);
  }

  lemma LockActKeeps(c: Votes.Curve, w: World, pid: nat, nanos: nat, d: Bytes)
    requires PairingInv(w.shared, w.procs, d) && pid in w.procs && About(w.procs[pid], d)
    requires w.procs[pid].phase == LockingDomain && w.procs[pid].job.Adding? && !ReusesId(w, w.procs[pid], nanos)
    ensures var p := w.procs[pid];
            PairingInv(Touch(w.shared, p, nanos), w.procs[pid := Advance(c, w.shared, p, nanos)], d)
  {
    var s, p := w.shared, w.procs[pid];
    var s', p' := Touch(s, p, nanos), Advance(c, s, p, nanos);
    if d in s.locks {
      QuietStep(s, s', w.procs, pid, p', d);
    } else {
      LockStep(s, s', w.procs, pid, p', d, Locks.LockId(p.host, nanos));
    }
  }

  lemma WriteActKeeps(c: Votes.Curve, s: Shared, procs: map<nat, Process>, pid: nat, nanos: nat, d: Bytes)
    requires PairingInv(s, procs, d) && pid in procs && About(procs[pid], d)
    requires procs[pid].phase == WritingPending && (procs[pid].job.Adding? ==> procs[pid].record.Some?)
    requires !EmptiesOther(s, procs[pid])
    ensures PairingInv(Touch(s, procs[pid], nanos), procs[pid := Advance(c, s, procs[pid], nanos)], d)
  {
    var p := procs[pid];
    var s', p' := Touch(s, p, nanos), Advance(c, s, p, nanos);
    if p.job.Adding? {
      WriteStep(s, s', procs, pid, p', d);
    } else {
      EmptyStep(s, s', procs, pid, p', d);
    }
  }

  lemma FreeDomainActKeeps(c: Votes.Curve, s: Shared, procs: map<nat, Process>, pid: nat, nanos: nat, d: Bytes)
    requires PairingInv(s, procs, d) && pid in procs && About(procs[pid], d) && procs[pid].phase == FreeingDomain
    requires !procs[pid].job.Adding? ==> PendingOf(s.pending, d).None?
    ensures PairingInv(Touch(s, procs[pid], nanos), procs[pid := Advance(c, s, procs[pid], nanos)], d)
  {
    var p := procs[pid];
    var s', p' := Touch(s, p, nanos), Advance(c, s, p, nanos);
    if p.record.Some? {
      FreedHere(s.locks, d, p);
    }
    if !p.job.Adding? && d in s.locks && HasLock(p, s.locks[d]) {
      FreeStep(s, s', procs, pid, p', d);
    } else {
      QuietStep(s, s', procs, pid, p', d);
    }
  }

  lemma GiveUpActKeeps(c: Votes.Curve, s: Shared, procs: map<nat, Process>, pid: nat, nanos: nat, d: Bytes)
    requires PairingInv(s, procs, d) && pid in procs && About(procs[pid], d)
    requires procs[pid].phase == GivingUp && procs[pid].job.Adding?
    ensures PairingInv(Touch(s, procs[pid], nanos), procs[pid := Advance(c, s, procs[pid], nanos)], d)
  {
    var p := procs[pid];
    assert EntersAlone(s, procs, d, pid);
    FreedHere(s.locks, d, p);
    FreeStep(s, Touch(s, p, nanos), procs, pid, Advance(c, s, p, nanos), d);
  }

  lemma TakeBackActKeeps(c: Votes.Curve, s: Shared, procs: map<nat, Process>, pid: nat, nanos: nat, d: Bytes)
    requires PairingInv(s, procs, d) && pid in procs && About(procs[pid], d)
    requires procs[pid].phase == TakingBack && !TakesFromPending(s, procs[pid])
    ensures PairingInv(Touch(s, procs[pid], nanos), procs[pid := Advance(c, s, procs[pid], nanos)], d)
  {
    var p := procs[pid];
    var s', p' := Touch(s, p, nanos), Advance(c, s, p, nanos);
    if p.record.Some? {
      FreedHere(s.locks, d, p);
    }
    if d in s.locks && HasLock(p, s.locks[d]) {
      FreeStep(s, s', procs, pid, p', d);
    } else {
      QuietStep(s, s', procs, pid, p', d);
    }
  }

  /** While a settling call frees its domain, the update it has made still stands. */
  lemma LeavingFindsNothing(w: World, pid: nat)
    requires Inv(w) && pid in w.procs && Leaving(w.procs[pid])
    ensures PendingOf(w.shared.pending, DomainOf(w.procs[pid].job)).None?
  {
    var p := w.procs[pid];
    assert ProcessInv(p, pid, w.done) && w.holder == Some(pid);
    assert HolderInv(w.shared, p, w.done);
    assert w.shared.pending == Apply(Serial(w.done), UpdateOf(p)).pending;
  }

  lemma OwnActKeeps(c: Votes.Curve, w: World, pid: nat, nanos: nat, d: Bytes)
    requires Inv(w) && PairingInv(w.shared, w.procs, d) && pid in w.procs && About(w.procs[pid], d) && d != INDEX_KEY
    requires w.procs[pid].phase != WantingIndex && Sane(w, Act(pid, nanos, false), d)
    ensures var p := w.procs[pid];
            PairingInv(Touch(w.shared, p, nanos), w.procs[pid := Advance(c, w.shared, p, nanos)], d)
  {
    var p := w.procs[pid];
    assert ProcessInv(p, pid, w.done);
    match p.phase
    case LockingDomain => LockActKeeps(c, w, pid, nanos, d);
    case WritingPending => WriteActKeeps(c, w.shared, w.procs, pid, nanos, d);
    case FreeingDomain =>
      if !p.job.Adding? {
        LeavingFindsNothing(w, pid);
      }
      FreeDomainActKeeps(c, w.shared, w.procs, pid, nanos, d);
    case GivingUp => GiveUpActKeeps(c, w.shared, w.procs, pid, nanos, d);
    case TakingBack => TakeBackActKeeps(c, w.shared, w.procs, pid, nanos, d);
    case _ => QuietActKeeps(c, w.shared, w.procs, pid, nanos, d);
  }

  lemma AdvanceKeepsJob(c: Votes.Curve, s: Shared, p: Process, nanos: nat)
    ensures Advance(c, s, p, nanos).job == p.job
  {
    if p.phase == ReadingVotes {
      Stranding.HavingReadKeepsOwn(c, p, VotesOn(s.votes, DomainOf(p.job)));
    }
  }

  lemma OtherActKeeps(c: Votes.Curve, w: World, pid: nat, nanos: nat, d: Bytes)
    requires PairingInv(w.shared, w.procs, d) && pid in w.procs && !About(w.procs[pid], d) && d != INDEX_KEY
    ensures var p := w.procs[pid];
            PairingInv(Touch(w.shared, p, nanos), w.procs[pid := Advance(c, w.shared, p, nanos)], d)
  {
    var p := w.procs[pid];
    ElsewhereIsQuiet(w.shared, p, nanos, d);
    AdvanceKeepsJob(c, w.shared, p, nanos);
    QuietStep(w.shared, Touch(w.shared, p, nanos), w.procs, pid, Advance(c, w.shared, p, nanos), d);
  }

  lemma WantingActKeeps(c: Votes.Curve, w: World, pid: nat, nanos: nat, giveUp: bool, d: Bytes)
    requires PairingInv(w.shared, w.procs, d) && pid in w.procs && d != INDEX_KEY
    requires w.procs[pid].phase == WantingIndex
    ensures var w' := Next(c, w, Act(pid, nanos, giveUp)); PairingInv(w'.shared, w'.procs, d)
  {
    var w' := Next(c, w, Act(pid, nanos, giveUp));
    if w' != w {
      QuietStep(w.shared, w'.shared, w.procs, pid, w'.procs[pid], d);
    }
  }

  lemma NextKeepsPairing(c: Votes.Curve, w: World, step: Step, d: Bytes)
    requires Inv(w) && PairingInv(w.shared, w.procs, d) && d != INDEX_KEY && Sane(w, step, d)
    ensures var w' := Next(c, w, step); PairingInv(w'.shared, w'.procs, d)
  {
    match step
    case Spawn(pid, host, job) =>
      if pid !in w.procs {
        QuietStep(w.shared, w.shared, w.procs, pid, Begun(host, job), d);
      }
    case Act(pid, nanos, giveUp) =>
      if pid in w.procs {
        if w.procs[pid].phase == WantingIndex {
          WantingActKeeps(c, w, pid, nanos, giveUp, d);
        } else if About(w.procs[pid], d) {
          OwnActKeeps(c, w, pid, nanos, d);
        } else {
          OtherActKeeps(c, w, pid, nanos, d);
        }
      }
  }

  lemma {:induction false} RunKeepsPairing(c: Votes.Curve, steps: seq<Step>, d: Bytes)
    requires (forall i :: 0 <= i < |steps| ==> Proper(steps[i])) && d != INDEX_KEY && SaneRun(c, EMPTY, steps, d)
    ensures var w := Run(c, EMPTY, steps); PairingInv(w.shared, w.procs, d)
  {
    if steps != [] {
      var n := |steps| - 1;
      RunKeepsPairing(c, steps[..n], d);
      RunKeepsInv(c, EMPTY, steps[..n]);
      NextKeepsPairing(c, Run(c, EMPTY, steps[..n]), steps[n], d);
    }
  }

  /** In every interleaving in which no settling call empties the pending key of a record other than its own,
      no refused vote takes back the lock of a pending record, and no lock id is used twice: whenever all
      calls about a domain are finished, its lock is held exactly while a record is pending, with that
      record's lock id. */
  lemma PairedWhenFinished(c: Votes.Curve, steps: seq<Step>, d: Bytes)
    requires (forall i :: 0 <= i < |steps| ==> Proper(steps[i])) && d != INDEX_KEY && SaneRun(c, EMPTY, steps, d)
    requires var w := Run(c, EMPTY, steps);
             forall pid :: pid in w.procs && About(w.procs[pid], d) ==> w.procs[pid].phase.Finished?
    ensures Stranding.Paired(Run(c, EMPTY, steps).shared, d)
  {
    RunKeepsPairing(c, steps, d);
  }
}
