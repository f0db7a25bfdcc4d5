/** What one tick of a voting manager does to every domain (core/voting.go, processPendingRecords), and the
    order in which the pending domains are listed for it. */
module Ticks {
  import opened Bytes
  import opened Options
  import opened Keys
  import opened Store
  import opened Lifecycle
  import opened Registration
  import Availability
  import Votes

  // ----- every domain on its own -----

  /** The DHT holds the same about a domain. */
  ghost predicate SameAt(dht: Dht, dht': Dht, d: Bytes) {
    && PendingOf(dht'.pending, d) == PendingOf(dht.pending, d)
    && (d in dht'.locks <==> d in dht.locks) && (d in dht.locks ==> dht'.locks[d] == dht.locks[d])
    && (d in dht'.records <==> d in dht.records) && (d in dht.records ==> dht'.records[d] == dht.records[d])
    && (d in dht'.votes <==> d in dht.votes) && (d in dht.votes ==> dht'.votes[d] == dht.votes[d])
  }

  lemma SettleElsewhere(N: Naming, v: View, e: Bytes, r: Record, confirm: bool, d: Bytes)
    requires e in v.dht.locks && r.domain == e && d != e
    ensures SameAt(v.dht, AfterSettle(N, v, e, r, confirm).dht, d)
  {
  }

  lemma ProcessOneElsewhere(N: Naming, c: Votes.Curve, v: View, e: Bytes, o: Outcome, d: Bytes)
    requires Inv(N, v) && PendingOf(v.dht.pending, e).Some? && d != e
    ensures SameAt(v.dht, ProcessOne(N, c, v, e, o).dht, d)
  {
    ProcessOneEffect(N, c, v, e, o);
    FreeIsNotPending(v.dht.locks, v.dht.pending, v.dht.records.Keys, e);
    SettleElsewhere(N, v, e, PendingOf(v.dht.pending, e).value, true, d);
    SettleElsewhere(N, v, e, PendingOf(v.dht.pending, e).value, false, d);
  }

  /** Deciding a domain depends on what the DHT holds about it, and on nothing else. */
  lemma ProcessOneAlike(N: Naming, c: Votes.Curve, v: View, w: View, d: Bytes, o: Outcome)
    requires Inv(N, v) && Inv(N, w) && PendingOf(v.dht.pending, d).Some?
    requires SameAt(v.dht, w.dht, d) && w.node.host == v.node.host
    ensures SameAt(ProcessOne(N, c, v, d, o).dht, ProcessOne(N, c, w, d, o).dht, d)
  {
    ProcessOneEffect(N, c, v, d, o);
    ProcessOneEffect(N, c, w, d, o);
    if Ripe(v, d) {
      DecideAlike(N, c, v, w, d, o);
    }
  }

  lemma DecideAlike(N: Naming, c: Votes.Curve, v: View, w: View, d: Bytes, o: Outcome)
    requires SameAt(v.dht, w.dht, d) && d in v.dht.votes && HoldsItsLock(v, d) && HoldsItsLock(w, d)
    requires PendingOf(v.dht.pending, d).value.domain == d
    ensures SameAt(AfterDecide(N, c, v, d, o).dht, AfterDecide(N, c, w, d, o).dht, d)
  {
    var r := PendingOf(v.dht.pending, d).value;
    SettleAlike(N, v, w, d, r, true);
    SettleAlike(N, v, w, d, r, false);
  }

  lemma SettleAlike(N: Naming, v: View, w: View, d: Bytes, r: Record, confirm: bool)
    requires SameAt(v.dht, w.dht, d) && d in v.dht.locks && r.domain == d
    ensures SameAt(AfterSettle(N, v, d, r, confirm).dht, AfterSettle(N, w, d, r, confirm).dht, d)
  {
  }

  lemma {:induction false} ProcessAllElsewhere(N: Naming, c: Votes.Curve, v: View, domains: seq<Bytes>,
                                               outcomes: Bytes -> Outcome, d: Bytes)
    requires Inv(N, v) && NoDuplicates(domains) && d !in domains
    requires forall e :: e in domains ==> PendingOf(v.dht.pending, e).Some?
    ensures SameAt(v.dht, ProcessAll(N, c, v, domains, outcomes).dht, d)
    decreases |domains|
  {
    if domains != [] {
      var e := domains[0];
      ProcessOneMoves(N, c, v, e, outcomes(e));
      ProcessOneTouchesOne(N, c, v, e, outcomes(e));
      ProcessOneElsewhere(N, c, v, e, outcomes(e), d);
      ProcessAllElsewhere(N, c, ProcessOne(N, c, v, e, outcomes(e)), domains[1..], outcomes, d);
    }
  }

  lemma {:induction false} ProcessAllAlone(N: Naming, c: Votes.Curve, v: View, domains: seq<Bytes>,
                                           outcomes: Bytes -> Outcome, d: Bytes)
    requires Inv(N, v) && NoDuplicates(domains) && d in domains
    requires forall e :: e in domains ==> PendingOf(v.dht.pending, e).Some?
    ensures SameAt(ProcessOne(N, c, v, d, outcomes(d)).dht, ProcessAll(N, c, v, domains, outcomes).dht, d)
    decreases |domains|
  {
    var e := domains[0];
    var w := ProcessOne(N, c, v, e, outcomes(e));
    ProcessOneMoves(N, c, v, e, outcomes(e));
    ProcessOneTouchesOne(N, c, v, e, outcomes(e));
    if e == d {
      assert d !in domains[1..];
      ProcessAllElsewhere(N, c, w, domains[1..], outcomes, d);
    } else {
      ProcessOneElsewhere(N, c, v, e, outcomes(e), d);
      ProcessAllAlone(N, c, w, domains[1..], outcomes, d);
      ProcessOneAlike(N, c, v, w, d, outcomes(d));
    }
  }

  /** A tick decides every domain as if it were the only one: a pending domain is settled exactly if it has a
      quorum and this node is its decision maker; it is then confirmed, with the pending record's core,
      exactly unless its votes carried and the chain refused; and nothing changes about any other domain. */
  lemma TickDecidesEach(N: Naming, c: Votes.Curve, v: View, outcomes: Bytes -> Outcome, d: Bytes)
    requires Inv(N, v)
    ensures var dht' := Process(N, c, v, outcomes).dht;
            if Ripe(v, d) then
              && PendingOf(dht'.pending, d).None? && d !in dht'.locks
              && (d in dht'.records <==> !(Votes.Carried(v.dht.votes[d]) && !outcomes(d).chainOk))
              && (d in dht'.records ==>
                    CoreOf(dht'.records[d]) == CoreOf(PendingOf(v.dht.pending, d).value.(status := Confirmed))
                    && d in dht'.votes && dht'.votes[d].consensus && dht'.votes[d].votes == v.dht.votes[d].votes)
            else SameAt(v.dht, dht', d)
  {
    var domains := PendingDomains(v.dht.index);
    if PendingOf(v.dht.pending, d).Some? {
      ProcessAllAlone(N, c, v, domains, outcomes, d);
      ProcessOneEffect(N, c, v, d, outcomes(d));
      if Ripe(v, d) {
        ConfirmedExactlyUnlessChainRefuses(N, c, v, d, outcomes(d));
        PendingIsUndecided(N, v, d);
      }
    } else {
      ProcessAllElsewhere(N, c, v, domains, outcomes, d);
    }
  }

  // ----- the order of the index -----

  /** The domains that are still pending, in their order. */
  ghost function Still(domains: seq<Bytes>, pending: map<Bytes, Cell>): seq<Bytes> {
    if domains == [] then []
    else
      var n := |domains| - 1;
      Still(domains[..n], pending) + if PendingOf(pending, domains[n]).Some? then [domains[n]] else []
  }

  lemma {:induction false} StillAll(domains: seq<Bytes>, pending: map<Bytes, Cell>)
    requires forall e :: e in domains ==> PendingOf(pending, e).Some?
    ensures Still(domains, pending) == domains
  {
    if domains != [] {
      StillAll(domains[..|domains| - 1], pending);
    }
  }

  lemma {:induction false} StillAlike(domains: seq<Bytes>, pending: map<Bytes, Cell>, pending': map<Bytes, Cell>)
    requires forall e :: e in domains ==> (PendingOf(pending', e).Some? <==> PendingOf(pending, e).Some?)
    ensures Still(domains, pending') == Still(domains, pending)
  {
    if domains != [] {
      StillAlike(domains[..|domains| - 1], pending, pending');
    }
  }

  lemma {:induction false} StillTwice(domains: seq<Bytes>, pending: map<Bytes, Cell>, pending': map<Bytes, Cell>)
    requires forall e :: PendingOf(pending', e).Some? ==> PendingOf(pending, e).Some?
    ensures Still(Still(domains, pending), pending') == Still(domains, pending')
  {
    if domains != [] {
      var n := |domains| - 1;
      var head := Still(domains[..n], pending);
      StillTwice(domains[..n], pending, pending');
      if PendingOf(pending, domains[n]).Some? {
        assert (head + [domains[n]])[..|head|] == head;
      } else {
        assert head + [] == head;
        assert Still(domains[..n], pending') + [] == Still(domains[..n], pending');
      }
    }
  }

  /** Taking a domain out of the index leaves the others, in their order. */
  lemma {:induction false} DropIsStill(domains: seq<Bytes>, pending: map<Bytes, Cell>, d: Bytes)
    requires forall e :: e in domains ==> PendingOf(pending, e).Some?
    ensures Drop(domains, d) == Still(domains, pending[d := Emptied])
  {
    if domains != [] {
      var n := |domains| - 1;
      assert domains == domains[..n] + [domains[n]];
      DropSnoc(domains[..n], domains[n], d);
      DropIsStill(domains[..n], pending, d);
      assert domains[n] != d ==> PendingOf(pending[d := Emptied], domains[n]) == PendingOf(pending, domains[n]);
    }
  }

  /** The index of a call is that of before, without what is no longer pending and with the newcomers. */
  ghost predicate Queues(dht: Dht, dht': Dht, newcomers: seq<Bytes>) {
    PendingDomains(dht'.index) == Still(PendingDomains(dht.index), dht'.pending) + newcomers
  }

  lemma Unmoved(N: Naming, dht: Dht, dht': Dht)
    requires DhtInv(N, dht) && dht'.index == dht.index && dht'.pending == dht.pending
    ensures Queues(dht, dht', [])
  {
    StillAll(PendingDomains(dht.index), dht.pending);
  }

  lemma RegisterQueues(N: Naming, v: View, r: Record, t: nat, u: nat)
    requires Inv(N, v) && r.domain != INDEX_KEY
    ensures var (v', ok) := Add(N, v, r, false, t, u); Queues(v.dht, v'.dht, if ok then [r.domain] else [])
  {
    AddEffect(N, v, r, false, t, u);
    GetKeepsPending(N, v, r.domain);
    var (v', ok) := Add(N, v, r, false, t, u);
    if ok {
      AddedWasFree(N, v, r, t, u);
      var domains := PendingDomains(v.dht.index);
      StillAlike(domains, v.dht.pending, v'.dht.pending);
      StillAll(domains, v.dht.pending);
    } else {
      Unmoved(N, v.dht, v'.dht);
    }
  }

  lemma SettleQueues(N: Naming, v: View, d: Bytes, r: Record, confirm: bool)
    requires Inv(N, v) && d in v.dht.locks
    ensures Queues(v.dht, AfterSettle(N, v, d, r, confirm).dht, [])
  {
    DropIsStill(PendingDomains(v.dht.index), v.dht.pending, d);
  }

  lemma ProcessOneQueues(N: Naming, c: Votes.Curve, v: View, d: Bytes, o: Outcome)
    requires Inv(N, v) && PendingOf(v.dht.pending, d).Some?
    ensures Queues(v.dht, ProcessOne(N, c, v, d, o).dht, [])
    ensures forall e :: PendingOf(ProcessOne(N, c, v, d, o).dht.pending, e).Some? ==> PendingOf(v.dht.pending, e).Some?
  {
    ProcessOneEffect(N, c, v, d, o);
    FreeIsNotPending(v.dht.locks, v.dht.pending, v.dht.records.Keys, d);
    var r := PendingOf(v.dht.pending, d).value;
    SettleQueues(N, v, d, r, true);
    SettleQueues(N, v, d, r, false);
    Unmoved(N, v.dht, v.dht);
    ProcessOneTouchesOne(N, c, v, d, o);
  }

  lemma QueuesTwice(dht: Dht, dht1: Dht, dht2: Dht)
    requires Queues(dht, dht1, []) && Queues(dht1, dht2, [])
    requires forall e :: PendingOf(dht2.pending, e).Some? ==> PendingOf(dht1.pending, e).Some?
    ensures Queues(dht, dht2, [])
  {
    var domains := PendingDomains(dht.index);
    assert Still(domains, dht1.pending) + [] == Still(domains, dht1.pending);
    StillTwice(domains, dht1.pending, dht2.pending);
  }

  lemma {:induction false} ProcessAllQueues(N: Naming, c: Votes.Curve, v: View, domains: seq<Bytes>,
                                            outcomes: Bytes -> Outcome)
    requires Inv(N, v) && NoDuplicates(domains)
    requires forall e :: e in domains ==> PendingOf(v.dht.pending, e).Some?
    ensures var dht' := ProcessAll(N, c, v, domains, outcomes).dht;
            && Queues(v.dht, dht', [])
            && forall e :: PendingOf(dht'.pending, e).Some? ==> PendingOf(v.dht.pending, e).Some?
    decreases |domains|
  {
    if domains == [] {
      Unmoved(N, v.dht, v.dht);
    } else {
      var d := domains[0];
      var w := ProcessOne(N, c, v, d, outcomes(d));
      ProcessOneMoves(N, c, v, d, outcomes(d));
      ProcessOneTouchesOne(N, c, v, d, outcomes(d));
      ProcessOneQueues(N, c, v, d, outcomes(d));
      ProcessAllQueues(N, c, w, domains[1..], outcomes);
      QueuesTwice(v.dht, w.dht, ProcessAll(N, c, w, domains[1..], outcomes).dht);
    }
  }

  lemma RejectQueues(N: Naming, v: View, d: Bytes, nanos: nat)
    requires Inv(N, v)
    ensures Queues(v.dht, RejectRecord(N, v, d, nanos).0.dht, [])
  {
    if PendingOf(v.dht.pending, d).Some? {
      PendingIsUndecided(N, v, d);
      SettleEffect(N, v, d, false, nanos);
      SettleQueues(N, v, d, PendingOf(v.dht.pending, d).value, false);
    } else {
      Unmoved(N, v.dht, v.dht);
    }
  }

  lemma LookupKeepsIndex(N: Naming, v: View, h: Word)
    ensures GetByNamehash(N, v, h).0.dht.index == v.dht.index
    ensures GetByNamehash(N, v, h).0.dht.pending == v.dht.pending
  {
    if EntryFor(v, h).Some? {
      GetKeepsPending(N, v, EntryFor(v, h).value);
    }
  }

  lemma BindKeepsIndex(N: Naming, v: View, h: Word, chain: nat, resolver: Bytes)
    ensures var dht' := BindAddressResolver(N, v, h, chain, resolver).0.dht;
            dht'.index == v.dht.index && dht'.pending == v.dht.pending
  {
    LookupKeepsIndex(N, v, h);
  }

  lemma EditKeepsIndex(N: Naming, v: View, e: Bytes, edit: Edit, now: nat)
    ensures var dht' := AddBinding(N, v, e, edit, now).0.dht;
            dht'.index == v.dht.index && dht'.pending == v.dht.pending
  {
    GetKeepsPending(N, v, e);
  }

  /** Calls that have nothing to do with pending domains. */
  predicate Elsewhere(call: Call) {
    !call.Register? && !call.ProcessPending? && !call.Reject?
  }

  lemma ElsewhereKeepsPending(N: Naming, c: Votes.Curve, v: View, call: Call)
    requires Inv(N, v) && Elsewhere(call)
    ensures var dht' := Perform(N, c, v, call).dht; dht'.index == v.dht.index && dht'.pending == v.dht.pending
  {
    match call
    case Lookup(e) => GetKeepsPending(N, v, e);
    case EditBinding(e, edit, now) => EditKeepsIndex(N, v, e, edit, now);
    case LookupHash(h) => LookupKeepsIndex(N, v, h);
    case Bind(h, chain, resolver) => BindKeepsIndex(N, v, h, chain, resolver);
    case VoteForAdded(e, id, b) => VoteAfterAddMoves(N, v, e, id, b.(host := v.node.host));
    case Vote(e, b) =>
  }

  /** No call puts a domain before another that was listed earlier. */
  lemma PerformQueues(N: Naming, c: Votes.Curve, v: View, call: Call)
    requires Inv(N, v) && Proper(call)
    ensures var dht' := Perform(N, c, v, call).dht;
            Queues(v.dht, dht', if call.Register? && Availability.Adds(N, v, call, call.record.domain)
                                then [call.record.domain] else [])
  {
    match call
    case Register(r, t, u) => RegisterQueues(N, v, r, t, u);
    case ProcessPending(outcomes) => ProcessAllQueues(N, c, v, PendingDomains(v.dht.index), outcomes);
    case Reject(e, nanos) => RejectQueues(N, v, e, nanos);
    case _ =>
      ElsewhereKeepsPending(N, c, v, call);
      Unmoved(N, v.dht, Perform(N, c, v, call).dht);
  }

  /** The i-th step registers the domain, and no later one does. */
  ghost predicate LastAdded(N: Naming, c: Votes.Curve, w: World, steps: seq<Step>, d: Bytes, i: nat) {
    && i < |steps| && Availability.StepAdds(N, Run(N, c, w, steps[..i]), steps[i], d)
    && forall j :: i < j < |steps| ==> !Availability.StepAdds(N, Run(N, c, w, steps[..j]), steps[j], d)
  }

  lemma LastAddedSnoc(N: Naming, c: Votes.Curve, w: World, before: seq<Step>, step: Step, d: Bytes, i: nat)
    ensures LastAdded(N, c, w, before + [step], d, i) <==>
            if Availability.StepAdds(N, Run(N, c, w, before), step, d) then i == |before|
            else LastAdded(N, c, w, before, d, i)
  {
    var steps := before + [step];
    assert forall j :: 0 <= j <= |before| ==> steps[..j] == before[..j];
    assert before[..|before|] == before && steps[|before|] == step;
    assert forall j :: 0 <= j < |before| ==> steps[j] == before[j];
  }

  lemma {:induction false} StillAt(domains: seq<Bytes>, pending: map<Bytes, Cell>, k: nat) returns (k': nat)
    requires k < |Still(domains, pending)|
    ensures k' < |domains| && domains[k'] == Still(domains, pending)[k] && k <= k'
  {
    var n := |domains| - 1;
    var head := Still(domains[..n], pending);
    if k < |head| {
      k' := StillAt(domains[..n], pending, k);
    } else {
      StillIsShorter(domains[..n], pending);
      k' := n;
    }
  }

  lemma {:induction false} StillIsShorter(domains: seq<Bytes>, pending: map<Bytes, Cell>)
    ensures |Still(domains, pending)| <= |domains|
  {
    if domains != [] {
      StillIsShorter(domains[..|domains| - 1], pending);
    }
  }

  /** Where two domains of the filtered list stood. */
  lemma {:induction false} StillPair(domains: seq<Bytes>, pending: map<Bytes, Cell>, j: nat, k: nat)
    returns (j': nat, k': nat)
    requires j < k < |Still(domains, pending)|
    ensures j' < k' < |domains|
    ensures domains[j'] == Still(domains, pending)[j] && domains[k'] == Still(domains, pending)[k]
  {
    var n := |domains| - 1;
    var head := Still(domains[..n], pending);
    if k < |head| {
      j', k' := StillPair(domains[..n], pending, j, k);
    } else {
      j' := StillAt(domains[..n], pending, j);
      k' := n;
    }
  }

  /** A listed domain cannot be registered, so its last registration stays the last. */
  lemma StaysLast(N: Naming, c: Votes.Curve, w0: World, before: seq<Step>, step: Step, d: Bytes, i: nat)
    requires LastAdded(N, c, w0, before, d, i) && WorldInv(N, Run(N, c, w0, before)) && Proper(step.call)
    requires d in PendingDomains(Run(N, c, w0, before).dht.index)
    ensures LastAdded(N, c, w0, before + [step], d, i)
  {
    var w := Run(N, c, w0, before);
    if Availability.StepAdds(N, w, step, d) {
      AddedWasFree(N, At(w, step.host), step.call.record, step.call.t, step.call.u);
    }
    LastAddedSnoc(N, c, w0, before, step, d, i);
  }

  lemma NextQueues(N: Naming, c: Votes.Curve, w: World, step: Step)
    requires WorldInv(N, w) && Proper(step.call)
    ensures var dht' := Next(N, c, w, step).dht;
            || (PendingDomains(dht'.index) == Still(PendingDomains(w.dht.index), dht'.pending))
            || (step.call.Register? && Availability.StepAdds(N, w, step, step.call.record.domain)
                && PendingDomains(dht'.index) ==
                   Still(PendingDomains(w.dht.index), dht'.pending) + [step.call.record.domain])
  {
    var domains := PendingDomains(w.dht.index);
    if step.host in w.nodes {
      PerformQueues(N, c, At(w, step.host), step.call);
      var dht' := Next(N, c, w, step).dht;
      assert Still(domains, dht'.pending) + [] == Still(domains, dht'.pending);
    } else {
      StillAll(domains, w.dht.pending);
    }
  }

  /** Every listed domain was registered in the run. */
  lemma {:induction false} ListedWasAdded(N: Naming, c: Votes.Curve, hosts: set<Host>, steps: seq<Step>, j: nat)
    returns (a: nat)
    requires forall i :: 0 <= i < |steps| ==> Proper(steps[i].call)
    requires j < |PendingDomains(Run(N, c, Genesis(hosts), steps).dht.index)|
    ensures LastAdded(N, c, Genesis(hosts), steps, PendingDomains(Run(N, c, Genesis(hosts), steps).dht.index)[j], a)
  {
    var before, step := steps[..|steps| - 1], steps[|steps| - 1];
    assert steps == before + [step];
    ReachableInv(N, c, hosts, before);
    var w := Run(N, c, Genesis(hosts), before);
    NextQueues(N, c, w, step);
    var domains, dht' := PendingDomains(w.dht.index), Next(N, c, w, step).dht;
    var d := PendingDomains(dht'.index)[j];
    if j < |Still(domains, dht'.pending)| {
      var j' := StillAt(domains, dht'.pending, j);
      a := ListedWasAdded(N, c, hosts, before, j');
      StaysLast(N, c, Genesis(hosts), before, step, d, a);
    } else {
      a := |before|;
      LastAddedSnoc(N, c, Genesis(hosts), before, step, d, a);
    }
  }

  /** First come, first served: in every state of every run the index lists the pending domains in the order
      in which they were registered. */
  lemma {:induction false} ListedInOrder(N: Naming, c: Votes.Curve, hosts: set<Host>, steps: seq<Step>, j: nat, k: nat)
    returns (a: nat, b: nat)
    requires forall i :: 0 <= i < |steps| ==> Proper(steps[i].call)
    requires j < k < |PendingDomains(Run(N, c, Genesis(hosts), steps).dht.index)|
    ensures var domains := PendingDomains(Run(N, c, Genesis(hosts), steps).dht.index);
            && a < b && LastAdded(N, c, Genesis(hosts), steps, domains[j], a)
            && LastAdded(N, c, Genesis(hosts), steps, domains[k], b)
  {
    var before, step := steps[..|steps| - 1], steps[|steps| - 1];
    assert steps == before + [step];
    ReachableInv(N, c, hosts, before);
    var w := Run(N, c, Genesis(hosts), before);
    NextQueues(N, c, w, step);
    var domains, dht' := PendingDomains(w.dht.index), Next(N, c, w, step).dht;
    var listed := PendingDomains(dht'.index);
    if k < |Still(domains, dht'.pending)| {
      var j', k' := StillPair(domains, dht'.pending, j, k);
      a, b := ListedInOrder(N, c, hosts, before, j', k');
      StaysLast(N, c, Genesis(hosts), before, step, listed[j], a);
      StaysLast(N, c, Genesis(hosts), before, step, listed[k], b);
    } else {
      var j' := StillAt(domains, dht'.pending, j);
      a := ListedWasAdded(N, c, hosts, before, j');
      StaysLast(N, c, Genesis(hosts), before, step, listed[j], a);
      b := |before|;
      LastAddedSnoc(N, c, Genesis(hosts), before, step, listed[k], b);
    }
  }
}
