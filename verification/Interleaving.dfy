/** Registrations, votes, decisions and rejections of many nodes with their single DHT reads and writes
    interleaved; only taking and giving back a lock is one step (core/store.go, core/voting.go). */
module Interleaving {
  import opened Bytes
  import opened Options
  import opened Keys
  import opened Store
  import opened Lifecycle
  import Locks
  import Votes

  /** What a call is about: Add with the vote it starts, unless the node has no voting manager; a
      rejection; the decision on a domain, the chain taking its transaction or not; a vote on its own. */
  datatype Job =
    | Adding(record: Record, ballot: Option<Votes.Ballot>)
    | Rejecting(domain: Bytes)
    | Deciding(domain: Bytes, chainOk: bool)
    | Voting(domain: Bytes, vote: Votes.Ballot)

  /** Where a call is.  From ReadingIndex to FreeingIndex it holds the index lock. */
  datatype Phase =
    | LockingDomain                             // a registration takes the domain lock
    | ReadingPending                            // a settling call reads the pending record
    | WantingIndex                              // try for the index lock, or give up
    | ReadingIndex
    | WritingIndex(domains: seq<Bytes>)         // with the index as it was read
    | SavingRecord
    | WritingPending
    | FreeingDomain
    | FreeingIndex
    | GivingUp                                  // free the domain lock of a failed registration
    | ReadingVotes
    | WritingVotes(result: Votes.VoteResult)    // a vote cast or a consensus reached on what was read
    | TakingBack                                // free the domain lock: the registration's vote was refused
    | Finished(ok: bool)

  /** A call in progress: the record it registers or has read, the id of its index lock, and whether it
      settles its domain by confirming. */
  datatype Process = Process(
    host: Host, job: Job, phase: Phase, record: Option<Record>, indexLock: Option<LockId>, confirm: bool)

  datatype Shared = Shared(
    locks: Locks.Table, index: Option<seq<Bytes>>, pending: map<Bytes, Cell>, records: map<Bytes, Record>,
    votes: map<Bytes, Votes.VoteResult>)

  /** An update of the pending index and records, as a finished call makes it. */
  datatype Update = Enter(record: Record) | Leave(domain: Bytes)

  datatype Entry = Entry(pid: nat, update: Update)

  /** The DHT, the calls, and for the reader's benefit who holds the index lock and which updates have
      been completed, in order. */
  datatype World = World(shared: Shared, procs: map<nat, Process>, holder: Option<nat>, done: seq<Entry>)

  datatype Step = Spawn(pid: nat, host: Host, job: Job) | Act(pid: nat, nanos: nat, giveUp: bool)

  function DomainOf(job: Job): Bytes {
    if job.Adding? then job.record.domain else job.domain
  }

  function Begun(host: Host, job: Job): Process {
    var phase := match job
                 case Adding(_, _) => LockingDomain
                 case Rejecting(_) => ReadingPending
                 case Deciding(_, _) => ReadingVotes
                 case Voting(_, _) => ReadingVotes;
    Process(host, job, phase, None, None, false)
  }

  function Freed(locks: Locks.Table, name: Bytes, id: Option<LockId>): Locks.Table {
    if id.Some? then Locks.Release(Locks.Side(locks, map[]), name, id.value).0.shared else locks
  }

  function UpdateOf(p: Process): Update
    requires p.job.Adding? ==> p.record.Some?
  {
    if p.job.Adding? then Enter(p.record.value) else Leave(DomainOf(p.job))
  }

  /** What one call does next to the DHT. */
  function Touch(s: Shared, p: Process, nanos: nat): Shared {
    var d := DomainOf(p.job);
    match p.phase
    case LockingDomain => if d !in s.locks then s.(locks := s.locks[d := Locks.LockId(p.host, nanos)]) else s
    case WritingIndex(domains) =>
      if p.job.Adding?
      then (if d in domains then s else s.(index := Some(domains + [d])))
      else s.(index := Some(Drop(domains, d)))
    case SavingRecord =>
      if p.confirm && p.record.Some?
      then s.(records := s.records[p.record.value.domain := p.record.value.(status := Confirmed)])
      else s
    case WritingPending =>
      s.(pending := s.pending[d := if p.job.Adding? && p.record.Some? then Holding(p.record.value) else Emptied])
    case FreeingDomain =>
      if !p.job.Adding? && p.record.Some? then s.(locks := Freed(s.locks, d, p.record.value.lockID)) else s
    case FreeingIndex => s.(locks := Freed(s.locks, INDEX_KEY, p.indexLock))
    case GivingUp => if p.record.Some? then s.(locks := Freed(s.locks, d, p.record.value.lockID)) else s
    case TakingBack => if p.record.Some? then s.(locks := Freed(s.locks, d, p.record.value.lockID)) else s
    case WritingVotes(result) => s.(votes := s.votes[result.domain := result])
    case _ => s
  }

  function VotesOn(votes: map<Bytes, Votes.VoteResult>, d: Bytes): Option<Votes.VoteResult> {
    if d in votes then Some(votes[d]) else None
  }

  /** Having read the votes: a decision needs its decision maker and a quorum, and a carried one the chain;
      a vote may be refused, and a registration's then costs it its lock. */
  ghost function HavingRead(c: Votes.Curve, p: Process, read: Option<Votes.VoteResult>): Process {
    match p.job
    case Deciding(_, chainOk) =>
      if read.None? || read.value.decisionMaker != p.host || !Votes.HasQuorum(read.value)
      then p.(phase := Finished(false))
      else if Votes.Tally(c, read.value).decision && !chainOk then p.(phase := ReadingPending)
      else p.(phase := WritingVotes(Votes.Tally(c, read.value)), confirm := true)
    case Voting(d, b) =>
      (match Votes.Submit(read, d, b.(host := p.host))
       case None => p.(phase := Finished(false))
       case Some(result) => p.(phase := WritingVotes(result)))
    case Adding(r, Some(b)) =>
      (match Votes.Submit(read, r.domain, b.(host := p.host, decision := true))
       case None => p.(phase := TakingBack)
       case Some(result) => p.(phase := WritingVotes(result)))
    case _ => p.(phase := Finished(false))
  }

  /** Where one call goes next; taking the index lock is in Next below. */
  ghost function Advance(c: Votes.Curve, s: Shared, p: Process, nanos: nat): Process {
    var d := DomainOf(p.job);
    match p.phase
    case LockingDomain =>
      if d in s.locks || !p.job.Adding? then p.(phase := Finished(false))
      else p.(phase := WantingIndex, record := Some(Registered(p.job.record, p.host, nanos)))
    case ReadingPending =>
      if PendingOf(s.pending, d).None? then p.(phase := Finished(false))
      else p.(phase := WantingIndex, record := PendingOf(s.pending, d))
    case WantingIndex => p
    case ReadingIndex => p.(phase := WritingIndex(PendingDomains(s.index)))
    case WritingIndex(_) => p.(phase := SavingRecord)
    case SavingRecord => p.(phase := WritingPending)
    case WritingPending => p.(phase := FreeingDomain)
    case FreeingDomain => p.(phase := FreeingIndex)
    case FreeingIndex => p.(phase := if p.job.Adding? && p.job.ballot.Some? then ReadingVotes else Finished(true))
    case GivingUp => p.(phase := Finished(false))
    case ReadingVotes => HavingRead(c, p, VotesOn(s.votes, d))
    case WritingVotes(_) => p.(phase := if p.job.Deciding? then ReadingPending else Finished(true))
    case TakingBack => p.(phase := Finished(true))
    case Finished(_) => p
  }

  ghost function Next(c: Votes.Curve, w: World, step: Step): World {
    match step
    case Spawn(pid, host, job) =>
      if pid in w.procs then w else w.(procs := w.procs[pid := Begun(host, job)])
    case Act(pid, nanos, giveUp) =>
      if pid !in w.procs then w
      else
        var p := w.procs[pid];
        if p.phase == WantingIndex then
          if giveUp then
            w.(procs := w.procs[pid := p.(phase := if p.job.Adding? then GivingUp else Finished(false))])
          else if INDEX_KEY in w.shared.locks then w
          else
            var id := Locks.LockId(p.host, nanos);
            w.(shared := w.shared.(locks := w.shared.locks[INDEX_KEY := id]),
               procs := w.procs[pid := p.(phase := ReadingIndex, indexLock := Some(id))], holder := Some(pid))
        else
          var w' := w.(shared := Touch(w.shared, p, nanos), procs := w.procs[pid := Advance(c, w.shared, p, nanos)]);
          if p.phase == FreeingIndex && (p.job.Adding? ==> p.record.Some?)
          then w'.(holder := None, done := w.done + [Entry(pid, UpdateOf(p))])
          else w'
  }

  ghost function Run(c: Votes.Curve, w: World, steps: seq<Step>): World {
    if steps == [] then w else Next(c, Run(c, w, steps[..|steps| - 1]), steps[|steps| - 1])
  }

  const EMPTY := World.World(Shared(map[], None, map[], map[], map[]), map[], None, [])

  ghost predicate Proper(step: Step) {
    step.Spawn? ==> ValidDomain(DomainOf(step.job))
  }

  // ----- updates one after another -----

  datatype Listing = Listing(index: Option<seq<Bytes>>, pending: map<Bytes, Cell>)

  function Apply(l: Listing, u: Update): Listing {
    match u
    case Enter(r) => Listing(IndexWith(l.index, r.domain), l.pending[r.domain := Holding(r)])
    case Leave(d) => Listing(IndexWithout(l.index, d), l.pending[d := Emptied])
  }

  function Serial(done: seq<Entry>): Listing {
    if done == [] then Listing(None, map[]) else Apply(Serial(done[..|done| - 1]), done[|done| - 1].update)
  }

  /** The index has no duplicates and lists exactly the domains with a pending record. */
  ghost predicate Listed(l: Listing) {
    && NoDuplicates(PendingDomains(l.index))
    && forall d :: d in PendingDomains(l.index) <==> PendingOf(l.pending, d).Some?
  }

  lemma ApplyKeepsListed(l: Listing, u: Update)
    requires Listed(l)
    ensures Listed(Apply(l, u))
  {
    var l' := Apply(l, u);
    var d := if u.Enter? then u.record.domain else u.domain;
    if u.Leave? {
      DropsOnly(PendingDomains(l.index), d);
    }
    forall e
      ensures e in PendingDomains(l'.index) <==> PendingOf(l'.pending, e).Some?
    {
      assert e != d ==> PendingOf(l'.pending, e) == PendingOf(l.pending, e);
    }
  }

  lemma {:induction false} SerialIsListed(done: seq<Entry>)
    ensures Listed(Serial(done))
  {
    if done != [] {
      SerialIsListed(done[..|done| - 1]);
      ApplyKeepsListed(Serial(done[..|done| - 1]), done[|done| - 1].update);
    }
  }

  // ----- the invariant -----

  predicate Critical(phase: Phase) {
    phase.ReadingIndex? || phase.WritingIndex? || phase.SavingRecord? || phase.WritingPending?
    || phase.FreeingDomain? || phase.FreeingIndex?
  }

  /** How far the holder's update has come. */
  function Partial(l: Listing, u: Update, phase: Phase): Listing {
    match phase
    case SavingRecord => Listing(Apply(l, u).index, l.pending)
    case WritingPending => Listing(Apply(l, u).index, l.pending)
    case FreeingDomain => Apply(l, u)
    case FreeingIndex => Apply(l, u)
    case _ => l
  }

  /** The call has made its update; a registration may still be voting. */
  predicate Completed(p: Process) {
    if p.phase == Finished(true) then !p.job.Voting?
    else p.job.Adding? && (p.phase == ReadingVotes || p.phase.WritingVotes? || p.phase == TakingBack)
  }

  /** Which calls come to which places. */
  predicate Fits(job: Job, phase: Phase) {
    match phase
    case LockingDomain => job.Adding?
    case GivingUp => job.Adding?
    case TakingBack => job.Adding?
    case ReadingPending => !job.Adding?
    case WritingVotes(_) => !job.Rejecting?
    case _ => true
  }

  ghost predicate ProcessInv(p: Process, pid: nat, done: seq<Entry>) {
    && DomainOf(p.job) != INDEX_KEY
    && (p.record.Some? && p.job.Adding? ==> p.record.value.domain == DomainOf(p.job))
    && (p.job.Adding? && p.phase != LockingDomain && p.phase != Finished(false) ==> p.record.Some?)
    && Fits(p.job, p.phase)
    && (Completed(p) ==> Entry(pid, UpdateOf(p)) in done)
  }

  ghost predicate HolderInv(s: Shared, p: Process, done: seq<Entry>)
    requires p.job.Adding? ==> p.record.Some?
  {
    && Critical(p.phase)
    && INDEX_KEY in s.locks && p.indexLock == Some(s.locks[INDEX_KEY])
    && (p.phase.WritingIndex? ==> p.phase.domains == PendingDomains(s.index))
    && Listing(s.index, s.pending) == Partial(Serial(done), UpdateOf(p), p.phase)
  }

  /** Only the holder is in its critical section. */
  ghost predicate ProcessesInv(procs: map<nat, Process>, holder: Option<nat>, done: seq<Entry>) {
    forall pid :: pid in procs ==>
      ProcessInv(procs[pid], pid, done) && (Critical(procs[pid].phase) ==> holder == Some(pid))
  }

  ghost predicate SharedInv(s: Shared, procs: map<nat, Process>, holder: Option<nat>, done: seq<Entry>) {
    match holder
    case None => INDEX_KEY !in s.locks && Listing(s.index, s.pending) == Serial(done)
    case Some(pid) =>
      pid in procs && (procs[pid].job.Adding? ==> procs[pid].record.Some?) && HolderInv(s, procs[pid], done)
  }

  ghost predicate Inv(w: World) {
    ProcessesInv(w.procs, w.holder, w.done) && SharedInv(w.shared, w.procs, w.holder, w.done)
  }

  lemma UpdateProcess(procs: map<nat, Process>, holder: Option<nat>, done: seq<Entry>,
                      pid: nat, p: Process, holder': Option<nat>, more: seq<Entry>)
    requires ProcessesInv(procs, holder, done) && ProcessInv(p, pid, done + more)
    requires Critical(p.phase) ==> holder' == Some(pid)
    requires holder.Some? && holder.value != pid ==> holder' == holder
    ensures ProcessesInv(procs[pid := p], holder', done + more)
  {
    forall q | q in procs && q != pid
      ensures ProcessInv(procs[q], q, done + more)
    {
      assert ProcessInv(procs[q], q, done);
    }
  }

  /** A call outside its critical section touches neither index nor pending records nor the index lock. */
  lemma OutsideTouch(s: Shared, p: Process, nanos: nat)
    requires !Critical(p.phase) && DomainOf(p.job) != INDEX_KEY
    ensures var s' := Touch(s, p, nanos);
            && s'.index == s.index && s'.pending == s.pending
            && (INDEX_KEY in s'.locks <==> INDEX_KEY in s.locks)
            && (INDEX_KEY in s.locks ==> s'.locks[INDEX_KEY] == s.locks[INDEX_KEY])
  {
  }

  lemma HolderTouch(c: Votes.Curve, s: Shared, p: Process, pid: nat, nanos: nat, done: seq<Entry>)
    requires ProcessInv(p, pid, done) && (p.job.Adding? ==> p.record.Some?) && HolderInv(s, p, done)
    requires !p.phase.FreeingIndex?
    ensures HolderInv(Touch(s, p, nanos), Advance(c, s, p, nanos), done)
  {
  }

  lemma LastTouch(s: Shared, p: Process, pid: nat, nanos: nat, done: seq<Entry>)
    requires ProcessInv(p, pid, done) && (p.job.Adding? ==> p.record.Some?) && HolderInv(s, p, done)
    requires p.phase.FreeingIndex?
    ensures var s' := Touch(s, p, nanos);
            && INDEX_KEY !in s'.locks
            && Listing(s'.index, s'.pending) == Serial(done + [Entry(pid, UpdateOf(p))])
  {
    assert (done + [Entry(pid, UpdateOf(p))])[..|done|] == done;
  }

  lemma HavingReadKeepsInv(c: Votes.Curve, p: Process, pid: nat, read: Option<Votes.VoteResult>, done: seq<Entry>)
    requires ProcessInv(p, pid, done) && p.phase == ReadingVotes
    ensures ProcessInv(HavingRead(c, p, read), pid, done) && !Critical(HavingRead(c, p, read).phase)
  {
    var p' := HavingRead(c, p, read);
    assert p'.record == p.record && p'.job == p.job && Fits(p'.job, p'.phase);
    assert Completed(p') ==> Completed(p);
  }

  lemma AdvanceKeepsProcessInv(c: Votes.Curve, s: Shared, p: Process, pid: nat, nanos: nat, done: seq<Entry>)
    requires ProcessInv(p, pid, done) && !p.phase.FreeingIndex?
    ensures ProcessInv(Advance(c, s, p, nanos), pid, done)
    ensures Critical(Advance(c, s, p, nanos).phase) ==> Critical(p.phase)
  {
    if p.phase == ReadingVotes {
      HavingReadKeepsInv(c, p, pid, VotesOn(s.votes, DomainOf(p.job)), done);
    } else {
      var p' := Advance(c, s, p, nanos);
      assert p'.job == p.job && Fits(p'.job, p'.phase);
    }
  }

  lemma OutsideKeepsInv(c: Votes.Curve, w: World, pid: nat, nanos: nat)
    requires Inv(w) && pid in w.procs && !Critical(w.procs[pid].phase) && w.procs[pid].phase != WantingIndex
    ensures Inv(Next(c, w, Act(pid, nanos, false)))
  {
    var p := w.procs[pid];
    assert ProcessInv(p, pid, w.done);
    OutsideTouch(w.shared, p, nanos);
    AdvanceKeepsProcessInv(c, w.shared, p, pid, nanos, w.done);
    assert w.done + [] == w.done;
    UpdateProcess(w.procs, w.holder, w.done, pid, Advance(c, w.shared, p, nanos), w.holder, []);
  }

  lemma HolderKeepsInv(c: Votes.Curve, w: World, pid: nat, nanos: nat)
    requires Inv(w) && pid in w.procs && Critical(w.procs[pid].phase) && !w.procs[pid].phase.FreeingIndex?
    ensures Inv(Next(c, w, Act(pid, nanos, false)))
  {
    var p := w.procs[pid];
    assert ProcessInv(p, pid, w.done) && w.holder == Some(pid);
    HolderTouch(c, w.shared, p, pid, nanos, w.done);
    AdvanceKeepsProcessInv(c, w.shared, p, pid, nanos, w.done);
    assert w.done + [] == w.done;
    UpdateProcess(w.procs, w.holder, w.done, pid, Advance(c, w.shared, p, nanos), w.holder, []);
  }

  lemma LastKeepsInv(c: Votes.Curve, w: World, pid: nat, nanos: nat)
    requires Inv(w) && pid in w.procs && w.procs[pid].phase.FreeingIndex?
    ensures Inv(Next(c, w, Act(pid, nanos, false)))
  {
    var p := w.procs[pid];
    assert ProcessInv(p, pid, w.done) && w.holder == Some(pid);
    LastTouch(w.shared, p, pid, nanos, w.done);
    UpdateProcess(w.procs, w.holder, w.done, pid, Advance(c, w.shared, p, nanos), None, [Entry(pid, UpdateOf(p))]);
  }

  lemma GivingUpKeepsInv(c: Votes.Curve, w: World, pid: nat, nanos: nat)
    requires Inv(w) && pid in w.procs && w.procs[pid].phase == WantingIndex
    ensures Inv(Next(c, w, Act(pid, nanos, true)))
  {
    var p := w.procs[pid];
    assert ProcessInv(p, pid, w.done);
    assert w.done + [] == w.done;
    var p' := p.(phase := if p.job.Adding? then GivingUp else Finished(false));
    UpdateProcess(w.procs, w.holder, w.done, pid, p', w.holder, []);
  }

  lemma TakingIndexKeepsInv(c: Votes.Curve, w: World, pid: nat, nanos: nat)
    requires Inv(w) && pid in w.procs && w.procs[pid].phase == WantingIndex
    ensures Inv(Next(c, w, Act(pid, nanos, false)))
  {
    var p := w.procs[pid];
    assert ProcessInv(p, pid, w.done);
    if INDEX_KEY !in w.shared.locks {
      assert w.done + [] == w.done;
      var p' := p.(phase := ReadingIndex, indexLock := Some(Locks.LockId(p.host, nanos)));
      UpdateProcess(w.procs, w.holder, w.done, pid, p', Some(pid), []);
    }
  }

  lemma NextKeepsInv(c: Votes.Curve, w: World, step: Step)
    requires Inv(w) && Proper(step)
    ensures Inv(Next(c, w, step))
  {
    if step.pid in w.procs {
      if step.Act? {
        var phase := w.procs[step.pid].phase;
        if phase == WantingIndex {
          if step.giveUp {
            GivingUpKeepsInv(c, w, step.pid, step.nanos);
          } else {
            TakingIndexKeepsInv(c, w, step.pid, step.nanos);
          }
        } else if phase.FreeingIndex? {
          LastKeepsInv(c, w, step.pid, step.nanos);
        } else if Critical(phase) {
          HolderKeepsInv(c, w, step.pid, step.nanos);
        } else {
          OutsideKeepsInv(c, w, step.pid, step.nanos);
        }
      }
    } else if step.Spawn? {
      var p := Begun(step.host, step.job);
      assert w.done + [] == w.done;
      UpdateProcess(w.procs, w.holder, w.done, step.pid, p, w.holder, []);
    }
  }

  lemma {:induction false} RunKeepsInv(c: Votes.Curve, w: World, steps: seq<Step>)
    requires Inv(w)
    requires forall i :: 0 <= i < |steps| ==> Proper(steps[i])
    ensures Inv(Run(c, w, steps))
  {
    if steps != [] {
      RunKeepsInv(c, w, steps[..|steps| - 1]);
      NextKeepsInv(c, Run(c, w, steps[..|steps| - 1]), steps[|steps| - 1]);
    }
  }

  lemma InvMeans(w: World)
    requires Inv(w)
    ensures INDEX_KEY !in w.shared.locks ==> Listing(w.shared.index, w.shared.pending) == Serial(w.done)
    ensures forall pid :: pid in w.procs && Completed(w.procs[pid]) ==>
              (w.procs[pid].job.Adding? ==> w.procs[pid].record.Some?) && Entry(pid, UpdateOf(w.procs[pid])) in w.done
  {
    forall pid | pid in w.procs && Completed(w.procs[pid])
      ensures (w.procs[pid].job.Adding? ==> w.procs[pid].record.Some?) && Entry(pid, UpdateOf(w.procs[pid])) in w.done
    {
      assert ProcessInv(w.procs[pid], pid, w.done);
    }
  }

  /** No index update is lost: in every interleaving, whenever the index lock is free the index and the
      pending records are what the finished calls' updates make one after another; the index lists
      exactly the pending domains, once each; and every call that finished is among those updates. */
  lemma IndexUpdatesAreSerial(c: Votes.Curve, steps: seq<Step>)
    requires forall i :: 0 <= i < |steps| ==> Proper(steps[i])
    ensures var w := Run(c, EMPTY, steps);
            && (INDEX_KEY !in w.shared.locks ==>
                  var l := Listing(w.shared.index, w.shared.pending);
                  l == Serial(w.done) && Listed(l))
            && (forall pid :: pid in w.procs && Completed(w.procs[pid]) ==>
                  (w.procs[pid].job.Adding? ==> w.procs[pid].record.Some?)
                  && Entry(pid, UpdateOf(w.procs[pid])) in w.done)
  {
    RunKeepsInv(c, EMPTY, steps);
    SerialIsListed(Run(c, EMPTY, steps).done);
    InvMeans(Run(c, EMPTY, steps));
  }
}
