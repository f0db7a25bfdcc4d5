/** A confirmed domain has a saved consensus, in every run; and what that means for registering without the
    check. */
module Consensus {
  import opened Bytes
  import opened Options
  import opened Keys
  import opened Store
  import opened Lifecycle
  import opened Registration
  import Locks
  import Votes

  // ----- every confirmed domain was decided -----

  ghost predicate Decided(dht: Dht, d: Bytes) {
    d in dht.votes && dht.votes[d].consensus
  }

  ghost predicate ConfirmedAreDecided(dht: Dht) {
    forall d :: d in dht.records ==> Decided(dht, d)
  }

  /** A domain newly confirmed has its consensus saved. */
  ghost predicate ConfirmsDecided(dht: Dht, dht': Dht) {
    forall d :: d in dht'.records ==> d in dht.records || Decided(dht', d)
  }

  lemma GetKeepsRecords(N: Naming, v: View, d: Bytes)
    requires Inv(N, v)
    ensures Get(N, v, d).0.dht.records == v.dht.records
  {
    GetMoves(N, v, d);
  }

  lemma RegisterKeepsRecords(N: Naming, v: View, r: Record, t: nat, u: nat)
    requires Inv(N, v) && r.domain != INDEX_KEY
    ensures Add(N, v, r, false, t, u).0.dht.records == v.dht.records
  {
    AddEffect(N, v, r, false, t, u);
    GetKeepsRecords(N, v, r.domain);
  }

  lemma ProcessOneConfirmsDecided(N: Naming, c: Votes.Curve, v: View, d: Bytes, o: Outcome)
    requires Inv(N, v) && PendingOf(v.dht.pending, d).Some?
    ensures ConfirmsDecided(v.dht, ProcessOne(N, c, v, d, o).dht)
  {
    ProcessOneEffect(N, c, v, d, o);
    PendingIsUndecided(N, v, d);
  }

  lemma ConfirmsTransitive(dht: Dht, dht1: Dht, dht2: Dht, actor: Host)
    requires ConfirmsDecided(dht, dht1) && ConfirmsDecided(dht1, dht2) && Extends(dht1, dht2, actor)
    ensures ConfirmsDecided(dht, dht2)
  {
  }

  lemma {:induction false} ProcessAllConfirmsDecided(N: Naming, c: Votes.Curve, v: View, domains: seq<Bytes>,
                                                     outcomes: Bytes -> Outcome)
    requires Inv(N, v) && NoDuplicates(domains)
    requires forall d :: d in domains ==> PendingOf(v.dht.pending, d).Some?
    ensures ConfirmsDecided(v.dht, ProcessAll(N, c, v, domains, outcomes).dht)
    decreases |domains|
  {
    if domains != [] {
      var d := domains[0];
      ProcessOneMoves(N, c, v, d, outcomes(d));
      ProcessOneTouchesOne(N, c, v, d, outcomes(d));
      ProcessOneConfirmsDecided(N, c, v, d, outcomes(d));
      var w := ProcessOne(N, c, v, d, outcomes(d));
      ProcessAllConfirmsDecided(N, c, w, domains[1..], outcomes);
      ProcessAllMoves(N, c, w, domains[1..], outcomes);
      ConfirmsTransitive(v.dht, w.dht, ProcessAll(N, c, w, domains[1..], outcomes).dht, w.node.host);
    }
  }

  lemma BindKeepsDomains(N: Naming, v: View, h: Word, chain: nat, resolver: Bytes)
    requires Inv(N, v)
    ensures BindAddressResolver(N, v, h, chain, resolver).0.dht.records.Keys == v.dht.records.Keys
  {
    GetByNamehashMoves(N, v, h);
  }

  lemma SaveKeepsDomains(N: Naming, v: View, r: Record)
    requires r.domain in v.dht.records
    ensures SaveRecord(N, v, r).dht.records.Keys == v.dht.records.Keys
  {
  }

  lemma EditKeepsDomains(N: Naming, v: View, d: Bytes, e: Edit, now: nat)
    requires Inv(N, v)
    ensures AddBinding(N, v, d, e, now).0.dht.records.Keys == v.dht.records.Keys
  {
    GetKeepsRecords(N, v, d);
    var (v1, r) := Get(N, v, d);
    var v' := AddBinding(N, v, d, e, now).0;
    if v' != v && v' != v1 {
      ConfirmedAnswer(N, v, d);
      var saved := Edited(r.value, e).(updatedAt := Some(now));
      assert v' == SaveRecord(N, v1, saved);
      EditKeepsCore(r.value, e, now);
      SaveKeepsDomains(N, v1, saved);
    }
  }

  lemma PerformConfirmsDecided(N: Naming, c: Votes.Curve, v: View, call: Call)
    requires Inv(N, v) && Proper(call)
    ensures ConfirmsDecided(v.dht, Perform(N, c, v, call).dht)
  {
    match call
    case Register(r, t, u) => RegisterKeepsRecords(N, v, r, t, u);
    case VoteForAdded(d, id, b) => VoteAfterAddMoves(N, v, d, id, b.(host := v.node.host));
    case Vote(d, b) =>
    case ProcessPending(outcomes) => ProcessAllConfirmsDecided(N, c, v, PendingDomains(v.dht.index), outcomes);
    case Reject(d, nanos) =>
      if PendingOf(v.dht.pending, d).Some? {
        PendingIsUndecided(N, v, d);
        SettleEffect(N, v, d, false, nanos);
      }
    case Lookup(d) => GetKeepsRecords(N, v, d);
    case LookupHash(h) => GetByNamehashMoves(N, v, h);
    case Bind(h, chain, resolver) => BindKeepsDomains(N, v, h, chain, resolver);
    case EditBinding(d, e, now) => EditKeepsDomains(N, v, d, e, now);
  }

  lemma NextKeepsDecided(N: Naming, c: Votes.Curve, w: World, step: Step)
    requires WorldInv(N, w) && Proper(step.call) && ConfirmedAreDecided(w.dht)
    ensures ConfirmedAreDecided(Next(N, c, w, step).dht)
  {
    NextKeepsWorldInv(N, c, w, step);
    if step.host in w.nodes {
      PerformConfirmsDecided(N, c, At(w, step.host), step.call);
    }
  }

  /** In every run a domain is confirmed only with its consensus saved; and a saved consensus, as every run
      keeps, means that it is confirmed.  So the two are one, and votes behind them make a quorum. */
  lemma {:induction false} ConfirmedExactlyWhenDecided(N: Naming, c: Votes.Curve, hosts: set<Host>, steps: seq<Step>)
    requires forall i :: 0 <= i < |steps| ==> Proper(steps[i].call)
    ensures var dht := Run(N, c, Genesis(hosts), steps).dht;
            && ConfirmedAreDecided(dht)
            && forall d :: Decided(dht, d) ==> d in dht.records && Votes.HasQuorum(dht.votes[d])
  {
    ReachableInv(N, c, hosts, steps);
    if steps != [] {
      var before := steps[..|steps| - 1];
      ConfirmedExactlyWhenDecided(N, c, hosts, before);
      ReachableInv(N, c, hosts, before);
      NextKeepsDecided(N, c, Run(N, c, Genesis(hosts), before), steps[|steps| - 1]);
    }
  }

  // ----- registering a confirmed domain without the check -----

  /** The node that decides on an added record, whichever it is, finds some record of the domain. */
  lemma DeciderFinds(N: Naming, v: View, added: View, decider: Node, d: Bytes)
    requires NodeInv(N, v.dht, decider) && d in v.dht.records && v.dht.records[d].status == Confirmed
    requires PendingOf(added.dht.pending, d).Some?
    ensures var w := View(added.dht, decider); Get(N, w, d).0 == w && Get(N, w, d).1.Some?
  {
  }

  /** What the next decision by any node makes of a record added without the check to a confirmed domain: it
      takes the confirmed record's place exactly if that node is the decision maker of the saved consensus,
      unless the votes carried and the chain refuses; otherwise the confirmed record stays. */
  lemma UncheckedAddReplacesExactlyWhen(N: Naming, c: Votes.Curve, v: View, r: Record, t: nat, u: nat, decider: Node,
                                        o: Outcome)
    requires Inv(N, v) && ValidDomain(r.domain) && r.domain in v.dht.records && Decided(v.dht, r.domain)
    requires NodeInv(N, v.dht, decider)
    ensures var d := r.domain;
            var (added, ok) := Add(N, v, r, true, t, u);
            var after := ProcessOne(N, c, View(added.dht, decider), d, o).dht;
            var result := v.dht.votes[d];
            && ok && d in after.records
            && after.records[d] ==
               if result.decisionMaker == decider.host && !(Votes.Carried(result) && !o.chainOk)
               then Registered(r, v.node.host, t).(status := Confirmed)
               else v.dht.records[d]
  {
    var d := r.domain;
    FreeIsNotPending(v.dht.locks, v.dht.pending, v.dht.records.Keys, d);
    AddEffect(N, v, r, true, t, u);
    var added := AfterAdd(v, r, t);
    AddedHoldsItsLock(v, r, t, decider);
    DeciderFinds(N, v, added, decider, d);
    DecideEffect(N, c, View(added.dht, decider), d, o);
  }

  lemma AdderStaysSound(N: Naming, v: View, r: Record, t: nat, u: nat)
    requires Inv(N, v) && ValidDomain(r.domain) && r.domain in v.dht.records
    ensures NodeInv(N, v.dht, Add(N, v, r, true, t, u).0.node)
  {
    FreeIsNotPending(v.dht.locks, v.dht.pending, v.dht.records.Keys, r.domain);
    AddEffect(N, v, r, true, t, u);
  }

  /** A node adds a record without the check and some node, perhaps the same, then decides. */
  ghost function AddedThenDecided(N: Naming, c: Votes.Curve, w: World, r: Record, t: nat, u: nat, adder: Host,
                                  decider: Host, o: Outcome): Dht
    requires adder in w.nodes && decider in w.nodes
  {
    var added := Add(N, At(w, adder), r, true, t, u).0;
    ProcessOne(N, c, At(World(added.dht, w.nodes[adder := added.node]), decider), r.domain, o).dht
  }

  ghost function DecidingNode(N: Naming, w: World, r: Record, t: nat, u: nat, adder: Host, decider: Host): Node
    requires adder in w.nodes && decider in w.nodes
  {
    if decider == adder then Add(N, At(w, adder), r, true, t, u).0.node else w.nodes[decider]
  }

  lemma DecidingNodeIsSound(N: Naming, w: World, r: Record, t: nat, u: nat, adder: Host, decider: Host)
    requires WorldInv(N, w) && adder in w.nodes && decider in w.nodes
    requires ValidDomain(r.domain) && r.domain in w.dht.records
    ensures var node := DecidingNode(N, w, r, t, u, adder, decider);
            NodeInv(N, w.dht, node) && node.host == decider && Inv(N, At(w, adder))
  {
    AdderStaysSound(N, At(w, adder), r, t, u);
    AddKeepsHost(N, At(w, adder), r, t, u);
  }

  lemma AddKeepsHost(N: Naming, v: View, r: Record, t: nat, u: nat)
    ensures Add(N, v, r, true, t, u).0.node.host == v.node.host
  {
  }

  lemma DeciderOf(N: Naming, c: Votes.Curve, w: World, r: Record, t: nat, u: nat, adder: Host, decider: Host,
                  o: Outcome)
    requires adder in w.nodes && decider in w.nodes
    ensures AddedThenDecided(N, c, w, r, t, u, adder, decider, o) ==
            var node := DecidingNode(N, w, r, t, u, adder, decider);
            ProcessOne(N, c, View(Add(N, At(w, adder), r, true, t, u).0.dht, node), r.domain, o).dht
  {
  }

  lemma ReplacedFrom(N: Naming, c: Votes.Curve, w: World, r: Record, t: nat, u: nat, adder: Host, decider: Host,
                     o: Outcome)
    requires WorldInv(N, w) && adder in w.nodes && decider in w.nodes
    requires ValidDomain(r.domain) && r.domain in w.dht.records && Decided(w.dht, r.domain)
    ensures var d, result := r.domain, w.dht.votes[r.domain];
            var after := AddedThenDecided(N, c, w, r, t, u, adder, decider, o);
            && d in after.records
            && after.records[d] ==
               if result.decisionMaker == decider && !(Votes.Carried(result) && !o.chainOk)
               then Registered(r, adder, t).(status := Confirmed)
               else w.dht.records[d]
  {
    DecidingNodeIsSound(N, w, r, t, u, adder, decider);
    UncheckedAddReplacesExactlyWhen(N, c, At(w, adder), r, t, u, DecidingNode(N, w, r, t, u, adder, decider), o);
    DeciderOf(N, c, w, r, t, u, adder, decider, o);
  }

  /** So from every reachable state with a confirmed domain, for any two nodes. */
  lemma ReplacedExactlyWhen(N: Naming, c: Votes.Curve, hosts: set<Host>, steps: seq<Step>, r: Record, t: nat, u: nat,
                            adder: Host, decider: Host, o: Outcome)
    requires forall i :: 0 <= i < |steps| ==> Proper(steps[i].call)
    requires ValidDomain(r.domain) && r.domain in Run(N, c, Genesis(hosts), steps).dht.records
    requires adder in hosts && decider in hosts
    ensures var w := Run(N, c, Genesis(hosts), steps);
            var d := r.domain;
            && adder in w.nodes && decider in w.nodes && d in w.dht.votes
            && var after := AddedThenDecided(N, c, w, r, t, u, adder, decider, o);
               && d in after.records
               && after.records[d] ==
                  if w.dht.votes[d].decisionMaker == decider && !(Votes.Carried(w.dht.votes[d]) && !o.chainOk)
                  then Registered(r, adder, t).(status := Confirmed)
                  else w.dht.records[d]
  {
    ReachableInv(N, c, hosts, steps);
    ConfirmedExactlyWhenDecided(N, c, hosts, steps);
    ReplacedFrom(N, c, Run(N, c, Genesis(hosts), steps), r, t, u, adder, decider, o);
  }

  /** And it does happen, from an empty network: a record is registered, voted for and confirmed, and the
      registration request of a rival, which had asked Get before, takes its place. */
  lemma ConfirmedIsReplaced(N: Naming, c: Votes.Curve, hosts: set<Host>, host: Host, r: Record, t: nat, u: nat,
                            b: Votes.Ballot, outcomes: Bytes -> Outcome, rival: Record, t': nat, u': nat, o: Outcome)
    returns (steps: seq<Step>)
    requires ValidDomain(r.domain) && host in hosts && b.decisionMaker == host && b.onlineNodes <= 2
    requires outcomes(r.domain).chainOk && rival.domain == r.domain && o.chainOk
    ensures forall i :: 0 <= i < |steps| ==> Proper(steps[i].call)
    ensures var w := Run(N, c, Genesis(hosts), steps);
            && host in w.nodes && w.nodes[host].host == host
            && r.domain in w.dht.records && w.dht.records[r.domain].signer == r.signer
            && var (added, ok) := Add(N, At(w, host), rival, true, t', u');
               var decided := ProcessOne(N, c, added, r.domain, o);
               ok && r.domain in decided.dht.records && decided.dht.records[r.domain].signer == rival.signer
  {
    steps := ConfirmedIsReached(N, c, hosts, host, r, t, u, b, outcomes);
    var v := At(Run(N, c, Genesis(hosts), steps), host);
    AdderStaysSound(N, v, rival, t', u');
    AddKeepsHost(N, v, rival, t', u');
    UncheckedAddReplacesExactlyWhen(N, c, v, rival, t', u', Add(N, v, rival, true, t', u').0.node, o);
  }
}
