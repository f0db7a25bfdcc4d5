/** IsDomainAvailable over whole runs (core/store.go): a pending key is emptied and never removed, and the
    check takes the empty value for a failure. */
module Availability {
  import opened Bytes
  import opened Options
  import opened Keys
  import opened Store
  import opened Lifecycle
  import opened Registration
  import Votes

  /** The call registers the domain and succeeds. */
  ghost predicate Adds(N: Naming, v: View, call: Call, d: Bytes) {
    call.Register? && call.record.domain == d && Add(N, v, call.record, false, call.t, call.u).1
  }

  ghost predicate StepAdds(N: Naming, w: World, step: Step, d: Bytes) {
    step.host in w.nodes && Adds(N, At(w, step.host), step.call, d)
  }

  /** Some registration of the domain has succeeded in the run, whatever became of it. */
  ghost predicate EverAdded(N: Naming, c: Votes.Curve, w: World, steps: seq<Step>, d: Bytes) {
    exists i :: 0 <= i < |steps| && StepAdds(N, Run(N, c, w, steps[..i]), steps[i], d)
  }

  lemma EverAddedSnoc(N: Naming, c: Votes.Curve, w: World, before: seq<Step>, step: Step, d: Bytes)
    ensures EverAdded(N, c, w, before + [step], d) <==>
            EverAdded(N, c, w, before, d) || StepAdds(N, Run(N, c, w, before), step, d)
  {
    var steps := before + [step];
    assert forall i :: 0 <= i <= |before| ==> steps[..i] == before[..i];
    assert before[..|before|] == before && steps[|before|] == step;
    assert forall i :: 0 <= i < |before| ==> steps[i] == before[i];
    if StepAdds(N, Run(N, c, w, before), step, d) {
      assert StepAdds(N, Run(N, c, w, steps[..|before|]), steps[|before|], d);
    }
    if EverAdded(N, c, w, before, d) {
      var i :| 0 <= i < |before| && StepAdds(N, Run(N, c, w, before[..i]), before[i], d);
      assert StepAdds(N, Run(N, c, w, steps[..i]), steps[i], d);
    }
  }

  // ----- pending keys are only ever added, by registrations -----

  lemma RegisterAddsKey(N: Naming, v: View, r: Record, t: nat, u: nat)
    requires Inv(N, v) && r.domain != INDEX_KEY
    ensures var (v', ok) := Add(N, v, r, false, t, u);
            v'.dht.pending.Keys == v.dht.pending.Keys + (if ok then {r.domain} else {})
  {
    AddEffect(N, v, r, false, t, u);
    GetMoves(N, v, r.domain);
  }

  lemma ProcessOneKeepsKeys(N: Naming, c: Votes.Curve, v: View, d: Bytes, o: Outcome)
    requires Inv(N, v) && PendingOf(v.dht.pending, d).Some?
    ensures ProcessOne(N, c, v, d, o).dht.pending.Keys == v.dht.pending.Keys
  {
    ProcessOneEffect(N, c, v, d, o);
    if d in v.dht.votes {
      DecideTouchesOne(N, c, v, d, o);
    }
  }

  lemma {:induction false} ProcessAllKeepsKeys(N: Naming, c: Votes.Curve, v: View, domains: seq<Bytes>,
                                               outcomes: Bytes -> Outcome)
    requires Inv(N, v) && NoDuplicates(domains)
    requires forall d :: d in domains ==> PendingOf(v.dht.pending, d).Some?
    ensures ProcessAll(N, c, v, domains, outcomes).dht.pending.Keys == v.dht.pending.Keys
    decreases |domains|
  {
    if domains != [] {
      var d := domains[0];
      ProcessOneMoves(N, c, v, d, outcomes(d));
      ProcessOneTouchesOne(N, c, v, d, outcomes(d));
      ProcessOneKeepsKeys(N, c, v, d, outcomes(d));
      ProcessAllKeepsKeys(N, c, ProcessOne(N, c, v, d, outcomes(d)), domains[1..], outcomes);
    }
  }

  lemma LookupKeepsPending(N: Naming, v: View, d: Bytes)
    ensures Get(N, v, d).0.dht.pending == v.dht.pending
  {
  }

  lemma HashLookupKeepsPending(N: Naming, v: View, h: Word)
    ensures GetByNamehash(N, v, h).0.dht.pending == v.dht.pending
  {
  }

  lemma BindKeepsPending(N: Naming, v: View, h: Word, chain: nat, resolver: Bytes)
    ensures BindAddressResolver(N, v, h, chain, resolver).0.dht.pending == v.dht.pending
  {
    HashLookupKeepsPending(N, v, h);
  }

  lemma EditKeepsPending(N: Naming, v: View, d: Bytes, e: Edit, now: nat)
    ensures AddBinding(N, v, d, e, now).0.dht.pending == v.dht.pending
  {
    LookupKeepsPending(N, v, d);
  }

  lemma RejectKeepsKeys(N: Naming, v: View, d: Bytes, nanos: nat)
    requires Inv(N, v)
    ensures RejectRecord(N, v, d, nanos).0.dht.pending.Keys == v.dht.pending.Keys
  {
    if PendingOf(v.dht.pending, d).Some? {
      PendingIsUndecided(N, v, d);
      SettleEffect(N, v, d, false, nanos);
    }
  }

  /** A call adds the pending key of the domain it registers, and no other call adds or removes any. */
  lemma PerformAddsKeys(N: Naming, c: Votes.Curve, v: View, call: Call, d: Bytes)
    requires Inv(N, v) && Proper(call)
    ensures d in Perform(N, c, v, call).dht.pending <==> d in v.dht.pending || Adds(N, v, call, d)
  {
    match call
    case Register(r, t, u) => RegisterAddsKey(N, v, r, t, u);
    case VoteForAdded(e, id, b) => VoteAfterAddMoves(N, v, e, id, b.(host := v.node.host));
    case Vote(e, b) =>
    case ProcessPending(outcomes) => ProcessAllKeepsKeys(N, c, v, PendingDomains(v.dht.index), outcomes);
    case Reject(e, nanos) => RejectKeepsKeys(N, v, e, nanos);
    case Lookup(e) => LookupKeepsPending(N, v, e);
    case LookupHash(h) => HashLookupKeepsPending(N, v, h);
    case Bind(h, chain, resolver) => BindKeepsPending(N, v, h, chain, resolver);
    case EditBinding(e, edit, now) => EditKeepsPending(N, v, e, edit, now);
  }

  lemma {:induction false} PendingKeysAreAdded(N: Naming, c: Votes.Curve, hosts: set<Host>, steps: seq<Step>, d: Bytes)
    requires forall i :: 0 <= i < |steps| ==> Proper(steps[i].call)
    ensures d in Run(N, c, Genesis(hosts), steps).dht.pending <==> EverAdded(N, c, Genesis(hosts), steps, d)
  {
    if steps != [] {
      var before, step := steps[..|steps| - 1], steps[|steps| - 1];
      assert steps == before + [step];
      PendingKeysAreAdded(N, c, hosts, before, d);
      ReachableInv(N, c, hosts, before);
      EverAddedSnoc(N, c, Genesis(hosts), before, step, d);
      var w := Run(N, c, Genesis(hosts), before);
      if step.host in w.nodes {
        PerformAddsKeys(N, c, At(w, step.host), step.call, d);
      }
    }
  }

  /** In every run, on every node: a domain that Get finds is taken; of the others IsDomainAvailable fails
      for exactly those that were registered at any time in the run, by anyone, and is right about the
      rest. */
  lemma AvailableExactlyWhen(N: Naming, c: Votes.Curve, hosts: set<Host>, steps: seq<Step>, host: Host, d: Bytes)
    requires forall i :: 0 <= i < |steps| ==> Proper(steps[i].call)
    requires host in Run(N, c, Genesis(hosts), steps).nodes
    ensures var v := At(Run(N, c, Genesis(hosts), steps), host);
            IsDomainAvailable(N, v, d) ==
            if Get(N, v, d).1.Some? then Taken
            else if EverAdded(N, c, Genesis(hosts), steps, d) then LookupError
            else Available
  {
    PendingKeysAreAdded(N, c, hosts, steps, d);
  }
}
