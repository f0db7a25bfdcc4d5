/** What the registration protocol promises its users, over whole runs from an empty network, and where
    the code keeps less than it seems to promise. */
module Registration {
  import opened Bytes
  import opened Options
  import opened Keys
  import opened Store
  import opened Lifecycle
  import Locks
  import Namehash
  import Votes

  /** A network before its first call: an empty DHT, and nodes that know nothing. */
  function Genesis(hosts: set<Host>): World {
    World(Dht(map[], None, map[], map[], map[], map[]),
          map host | host in hosts :: Node(host, map[], map[], map[], 0, None))
  }

  lemma GenesisInv(N: Naming, hosts: set<Host>)
    ensures WorldInv(N, Genesis(hosts)) && Genesis(hosts).nodes.Keys == hosts
    ensures TotalVersions(Genesis(hosts).nodes) == 0 && |Genesis(hosts).dht.records| == 0
  {
    GenesisVersions(Genesis(hosts).nodes);
  }

  lemma {:induction false} GenesisVersions(nodes: map<Host, Node>)
    requires forall host :: host in nodes ==> nodes[host].version == 0
    ensures TotalVersions(nodes) == 0
    decreases |nodes|
  {
    if nodes != map[] {
      var host :| host in nodes && TotalVersions(nodes) == nodes[host].version + TotalVersions(nodes - {host});
      GenesisVersions(nodes - {host});
    }
  }

  /** Nothing is counted twice or lost: in every state of every run the store versions of all nodes add up
      to the number of confirmed domains; and the invariant of the protocol holds. */
  lemma ReachableInv(N: Naming, c: Votes.Curve, hosts: set<Host>, steps: seq<Step>)
    requires forall i :: 0 <= i < |steps| ==> Proper(steps[i].call)
    ensures var w := Run(N, c, Genesis(hosts), steps);
            WorldInv(N, w) && w.nodes.Keys == hosts && TotalVersions(w.nodes) == |w.dht.records|
  {
    GenesisInv(N, hosts);
    RunKeepsWorldInv(N, c, Genesis(hosts), steps);
  }

  /** The life of a domain, in every state any nodes reach by any calls: it is pending exactly while its
      lock is held, with that record's lock id; it is never pending and confirmed at once; the pending
      index lists it once while it is pending; a saved consensus means it is confirmed; and the index
      lock is free between calls. */
  lemma LifecycleHolds(N: Naming, c: Votes.Curve, hosts: set<Host>, steps: seq<Step>, d: Bytes)
    requires forall i :: 0 <= i < |steps| ==> Proper(steps[i].call)
    requires ValidDomain(d)
    ensures var dht := Run(N, c, Genesis(hosts), steps).dht;
            var pending := PendingOf(dht.pending, d);
            && (pending.Some? <==> d in dht.locks)
            && (pending.Some? ==> pending.value.domain == d && pending.value.lockID == Some(dht.locks[d]))
            && !(pending.Some? && d in dht.records)
            && (pending.Some? <==> d in PendingDomains(dht.index)) && NoDuplicates(PendingDomains(dht.index))
            && (d in dht.votes && dht.votes[d].consensus ==> d in dht.records)
            && INDEX_KEY !in dht.locks
  {
    ReachableInv(N, c, hosts, steps);
    var dht := Run(N, c, Genesis(hosts), steps).dht;
    FreeIsNotPending(dht.locks, dht.pending, dht.records.Keys, d);
  }

  ghost function At(w: World, host: Host): View
    requires host in w.nodes
  {
    View(w.dht, w.nodes[host])
  }

  /** First registration wins: once a domain is confirmed, then in every later state, on every node, Get
      answers with a confirmed record with the same owner, keys and signed transaction, and nobody can
      add the domain again, although events and edits keep rewriting the record. */
  lemma FirstRegistrationWins(N: Naming, c: Votes.Curve, hosts: set<Host>, past: seq<Step>, future: seq<Step>,
                              d: Bytes, host: Host, rival: Record, t: nat, u: nat)
    requires forall i :: 0 <= i < |past| ==> Proper(past[i].call)
    requires forall i :: 0 <= i < |future| ==> Proper(future[i].call)
    requires d in Run(N, c, Genesis(hosts), past).dht.records && host in hosts && rival.domain == d
    ensures var w := Run(N, c, Genesis(hosts), past);
            var w' := Run(N, c, w, future);
            && host in w'.nodes
            && var answer := Get(N, At(w', host), d).1;
               && answer.Some? && answer.value.status == Confirmed
               && CoreOf(answer.value) == CoreOf(w.dht.records[d])
               && !Add(N, At(w', host), rival, false, t, u).1
  {
    ReachableInv(N, c, hosts, past);
    var w := Run(N, c, Genesis(hosts), past);
    RunKeepsWorldInv(N, c, w, future);
    var v := At(Run(N, c, w, future), host);
    FreeIsNotPending(v.dht.locks, v.dht.pending, v.dht.records.Keys, d);
    GetAnswers(N, v, d);
  }

  /** A saved consensus is final: no later call changes the result, the domain stays confirmed, and
      deciding once more would count to the same decision. */
  lemma ConsensusIsFinal(N: Naming, c: Votes.Curve, hosts: set<Host>, past: seq<Step>, future: seq<Step>, d: Bytes)
    requires forall i :: 0 <= i < |past| ==> Proper(past[i].call)
    requires forall i :: 0 <= i < |future| ==> Proper(future[i].call)
    requires var dht := Run(N, c, Genesis(hosts), past).dht; d in dht.votes && dht.votes[d].consensus
    ensures var w := Run(N, c, Genesis(hosts), past);
            var dht' := Run(N, c, w, future).dht;
            && d in dht'.votes && dht'.votes[d] == w.dht.votes[d] && d in dht'.records
            && Votes.Tally(c, dht'.votes[d]).decision == w.dht.votes[d].decision
  {
    ReachableInv(N, c, hosts, past);
    var w := Run(N, c, Genesis(hosts), past);
    RunKeepsWorldInv(N, c, w, future);
    Votes.TallyAgain(c, w.dht.votes[d]);
  }

  // ----- the namehash index -----

  /** The domain that a node finds listed under a namehash. */
  function EntryFor(v: View, h: Word): Option<Bytes> {
    if h in v.node.namehashes then Some(v.node.namehashes[h])
    else if h in v.dht.namehashes then Some(v.dht.namehashes[h])
    else None
  }

  /** Looking a domain up by its namehash does what Get does, unless another domain with the same
      namehash is listed, exactly when the domain is not pending: pending records have no entry. */
  lemma NamehashLookupAgreesExactlyWhen(N: Naming, v: View, d: Bytes)
    requires Inv(N, v)
    ensures var entry := EntryFor(v, N(d));
            && (entry.Some? ==> entry.value in v.dht.records && N(entry.value) == N(d))
            && (entry in {None, Some(d)} ==>
                  (GetByNamehash(N, v, N(d)) == Get(N, v, d) <==> PendingOf(v.dht.pending, d).None?))
  {
    GetAnswers(N, v, d);
    FreeIsNotPending(v.dht.locks, v.dht.pending, v.dht.records.Keys, d);
  }

  /** With the namehash of the program, in every state of every run: the lookup agrees for every domain
      that is not pending, or the two domains break Keccak. */
  lemma NamehashIndexSound(H: Hash, N: Naming, c: Votes.Curve, hosts: set<Host>, steps: seq<Step>, d: Bytes, host: Host)
    requires forall name :: N(name) == Namehash.Namehash(H, name)
    requires forall i :: 0 <= i < |steps| ==> Proper(steps[i].call)
    requires host in Run(N, c, Genesis(hosts), steps).nodes
    ensures var v := At(Run(N, c, Genesis(hosts), steps), host);
            var entry := EntryFor(v, Namehash.Namehash(H, d));
            if entry.Some? && entry.value != d then
              && Namehash.Labels(entry.value) != Namehash.Labels(d)
              && Refutes(H, Namehash.Distinguish(H, Namehash.Labels(entry.value), Namehash.Labels(d)))
            else
              PendingOf(v.dht.pending, d).None? <==>
              GetByNamehash(N, v, Namehash.Namehash(H, d)) == Get(N, v, d)
  {
    ReachableInv(N, c, hosts, steps);
    var v := At(Run(N, c, Genesis(hosts), steps), host);
    NamehashLookupAgreesExactlyWhen(N, v, d);
    var entry := EntryFor(v, N(d));
    if entry.Some? && entry.value != d {
      Namehash.NamehashInjectiveUnlessBroken(H, entry.value, d);
    }
  }

  // ----- undoing a registration -----

  /** The DHT reads the same, but for the key of an emptied pending record. */
  ghost predicate ReadsAlike(dht: Dht, dht': Dht) {
    && dht'.locks == dht.locks && PendingDomains(dht'.index) == PendingDomains(dht.index)
    && (forall e :: PendingOf(dht'.pending, e) == PendingOf(dht.pending, e))
    && dht'.records == dht.records && dht'.votes == dht.votes && dht'.namehashes == dht.namehashes
  }

  lemma SettlingRestores(N: Naming, v: View, r: Record, t: nat, rejecter: Node)
    requires PendingOf(v.dht.pending, r.domain).None? && r.domain !in v.dht.locks
    requires r.domain !in PendingDomains(v.dht.index)
    ensures var v1 := View(AfterAdd(v, r, t).dht, rejecter);
            var w := AfterSettle(N, v1, r.domain, Registered(r, v.node.host, t), false);
            ReadsAlike(v.dht, w.dht) && r.domain in w.dht.pending
  {
    AddRemove(v.dht.locks, r.domain, Locks.LockId(v.node.host, t));
    DropAbsent(PendingDomains(v.dht.index), r.domain);
  }

  /** A domain that reads as free is free for every node. */
  lemma FreeForAll(N: Naming, v: View, r: Record, t: nat, u: nat)
    requires PendingOf(v.dht.pending, r.domain).None? && r.domain !in v.dht.records && r.domain !in v.node.records
    requires r.domain !in v.dht.locks && INDEX_KEY !in v.dht.locks && r.domain != INDEX_KEY
    ensures Get(N, v, r.domain) == (v, None) && Add(N, v, r, false, t, u).1
    ensures r.domain in v.dht.pending ==> IsDomainAvailable(N, v, r.domain) == LookupError
  {
    AddEffect(N, v, r, false, t, u);
  }

  /** A rejection by any node undoes a registration by any other: everything in the DHT reads as before.
      Get finds nothing and the domain can be added again, yet IsDomainAvailable answers with an error. */
  lemma RejectUndoesAdd(N: Naming, v: View, r: Record, t: nat, u: nat, rejecter: Node, nanos: nat, other: Node,
                        again: Record, t': nat, u': nat)
    requires Inv(N, v) && ValidDomain(r.domain) && Add(N, v, r, false, t, u).1
    requires NodeInv(N, v.dht, other) && again.domain == r.domain
    ensures var (w, ok) := RejectRecord(N, View(Add(N, v, r, false, t, u).0.dht, rejecter), r.domain, nanos);
            && ok && ReadsAlike(v.dht, w.dht)
            && Get(N, View(w.dht, other), r.domain).1 == None
            && Add(N, View(w.dht, other), again, false, t', u').1
            && IsDomainAvailable(N, View(w.dht, other), r.domain) == LookupError
  {
    AddedWasFree(N, v, r, t, u);
    SettlingRestores(N, v, r, t, rejecter);
    var v1 := View(AfterAdd(v, r, t).dht, rejecter);
    AddedHoldsItsLock(v, r, t, rejecter);
    SettleEffect(N, v1, r.domain, false, nanos);
    var w := AfterSettle(N, v1, r.domain, Registered(r, v.node.host, t), false);
    FreeForAll(N, View(w.dht, other), again, t', u');
  }

  /** A registration that succeeds found the domain free. */
  lemma AddedWasFree(N: Naming, v: View, r: Record, t: nat, u: nat)
    requires Inv(N, v) && r.domain != INDEX_KEY && Add(N, v, r, false, t, u).1
    ensures Add(N, v, r, false, t, u).0 == AfterAdd(v, r, t)
    ensures PendingOf(v.dht.pending, r.domain).None? && r.domain !in v.dht.locks && r.domain !in v.dht.records
    ensures r.domain !in PendingDomains(v.dht.index)
  {
    AddEffect(N, v, r, false, t, u);
    GetAnswers(N, v, r.domain);
    FreeIsNotPending(v.dht.locks, v.dht.pending, v.dht.records.Keys, r.domain);
  }

  lemma AddedHoldsItsLock(v: View, r: Record, t: nat, other: Node)
    requires INDEX_KEY !in v.dht.locks && r.domain != INDEX_KEY
    ensures HoldsItsLock(View(AfterAdd(v, r, t).dht, other), r.domain)
    ensures PendingOf(AfterAdd(v, r, t).dht.pending, r.domain) == Some(Registered(r, v.node.host, t))
  {
  }

  // ----- what a decision does -----

  /** A pending domain with a quorum, in the hands of its decision maker. */
  ghost predicate Ripe(v: View, d: Bytes) {
    && PendingOf(v.dht.pending, d).Some? && d in v.dht.votes
    && v.dht.votes[d].decisionMaker == v.node.host && Votes.HasQuorum(v.dht.votes[d])
  }

  /** A decided domain ends up confirmed, with the pending record's owner, exactly unless the votes
      carried and the chain refused the transaction: a majority of rejections confirms it as well. */
  lemma ConfirmedExactlyUnlessChainRefuses(N: Naming, c: Votes.Curve, v: View, d: Bytes, o: Outcome)
    requires Inv(N, v) && Ripe(v, d)
    ensures var v' := ProcessOne(N, c, v, d, o);
            && PendingOf(v'.dht.pending, d).None? && d !in v'.dht.locks
            && (d in v'.dht.records <==> !(Votes.Carried(v.dht.votes[d]) && !o.chainOk))
            && (d in v'.dht.records ==>
                  CoreOf(v'.dht.records[d]) == CoreOf(PendingOf(v.dht.pending, d).value.(status := Confirmed)))
            && (d !in v'.dht.records ==> v'.dht.votes == v.dht.votes)
  {
    PendingIsUndecided(N, v, d);
    DecideEffect(N, c, v, d, o);
  }

  /** Deciding over a pending record whose transaction the chain takes confirms that record. */
  lemma DecisionConfirms(N: Naming, c: Votes.Curve, v: View, d: Bytes, o: Outcome)
    requires Ripe(v, d) && HoldsItsLock(v, d) && Get(N, v, d).1.Some? && o.chainOk
    requires v.dht.votes[d].domain == d && PendingOf(v.dht.pending, d).value.domain == d
    ensures var v' := ProcessOne(N, c, v, d, o);
            && d in v'.dht.records && v'.dht.records[d] == PendingOf(v.dht.pending, d).value.(status := Confirmed)
            && d in v'.dht.votes && v'.dht.votes[d].votes == v.dht.votes[d].votes
  {
    var tallied := Votes.Tally(c, v.dht.votes[d]);
    var got := if tallied.decision then Get(N, v, d).0 else v;
    var voted := got.(dht := got.dht.(votes := got.dht.votes[d := tallied]));
    assert got.dht.votes == v.dht.votes;
    assert HoldsItsLock(voted, d);
    SettleEffect(N, voted, d, true, o.nanos);
  }

  lemma RefusalFreesDomain(N: Naming, c: Votes.Curve, v: View, d: Bytes, o: Outcome)
    requires Inv(N, v) && Ripe(v, d) && Votes.Carried(v.dht.votes[d]) && !o.chainOk
    ensures var refused := ProcessOne(N, c, v, d, o);
            && Inv(N, refused) && Get(N, refused, d) == (refused, None) && d !in refused.dht.locks
            && refused.dht.votes == v.dht.votes && d !in refused.dht.records && refused.node.host == v.node.host
  {
    ProcessOneMoves(N, c, v, d, o);
    ConfirmedExactlyUnlessChainRefuses(N, c, v, d, o);
    GetAnswers(N, ProcessOne(N, c, v, d, o), d);
  }

  lemma FirstRegistration(N: Naming, c: Votes.Curve, hosts: set<Host>, host: Host, r: Record, t: nat, u: nat)
    requires ValidDomain(r.domain) && host in hosts
    ensures var w := Next(N, c, Genesis(hosts), Step(host, Register(r, t, u)));
            && host in w.nodes && w.nodes[host].host == host && w.dht.votes == map[]
            && PendingOf(w.dht.pending, r.domain) == Some(Registered(r, host, t))
            && w.dht.index == Some([r.domain]) && w.dht.records == map[]
            && forall other :: other in hosts && other != host ==> other in w.nodes && w.nodes[other].records == map[]
  {
    AddEffect(N, At(Genesis(hosts), host), r, false, t, u);
    assert [] + [r.domain] == [r.domain];
  }

  lemma FirstVoteRipens(N: Naming, c: Votes.Curve, w: World, host: Host, d: Bytes, b: Votes.Ballot)
    requires host in w.nodes && w.nodes[host].host == host && w.dht.votes == map[]
    requires PendingOf(w.dht.pending, d).Some? && b.decisionMaker == host && b.onlineNodes <= 2
    ensures var w' := Next(N, c, w, Step(host, Vote(d, b)));
            && host in w'.nodes && w'.dht == w.dht.(votes := w'.dht.votes) && Ripe(At(w', host), d)
            && (Votes.Carried(w'.dht.votes[d]) <==> b.decision)
            && forall other :: other in w.nodes && other != host ==>
                 other in w'.nodes && w'.nodes[other] == w.nodes[other]
  {
    var result := Votes.Submit(None, d, b.(host := host)).value;
    assert result.votes.Keys == {host};
    assert Votes.Accepting(result.votes) == if b.decision then {host} else {};
  }

  lemma RunOfTwo(N: Naming, c: Votes.Curve, w: World, first: Step, second: Step)
    ensures Run(N, c, w, [first, second]) == Next(N, c, Next(N, c, w, first), second)
  {
    assert [first, second][..1] == [first] && [first][..0] == [];
    assert Run(N, c, w, []) == w;
    assert Run(N, c, w, [first]) == Next(N, c, w, first);
  }

  lemma RunSnoc(N: Naming, c: Votes.Curve, w: World, steps: seq<Step>, step: Step)
    ensures Run(N, c, w, steps + [step]) == Next(N, c, Run(N, c, w, steps), step)
  {
    assert (steps + [step])[..|steps|] == steps;
  }

  /** Such states are reached, whatever the vote: a node that sees at most two peers registers a domain
      and votes on it. */
  lemma RipeIsReached(N: Naming, c: Votes.Curve, hosts: set<Host>, host: Host, r: Record, t: nat, u: nat,
                      b: Votes.Ballot)
    returns (steps: seq<Step>)
    requires ValidDomain(r.domain) && host in hosts && b.decisionMaker == host && b.onlineNodes <= 2
    ensures forall i :: 0 <= i < |steps| ==> Proper(steps[i].call)
    ensures var w := Run(N, c, Genesis(hosts), steps);
            && host in w.nodes && w.nodes[host].host == host && Inv(N, At(w, host)) && Ripe(At(w, host), r.domain)
            && (Votes.Carried(w.dht.votes[r.domain]) <==> b.decision)
            && PendingOf(w.dht.pending, r.domain) == Some(Registered(r, host, t))
            && w.dht.index == Some([r.domain]) && w.dht.records == map[]
            && forall other :: other in hosts && other != host ==> other in w.nodes && w.nodes[other].records == map[]
  {
    var register, vote := Step(host, Register(r, t, u)), Step(host, Vote(r.domain, b));
    steps := [register, vote];
    FirstRegistration(N, c, hosts, host, r, t, u);
    FirstVoteRipens(N, c, Next(N, c, Genesis(hosts), register), host, r.domain, b);
    RunOfTwo(N, c, Genesis(hosts), register, vote);
    ReachableInv(N, c, hosts, steps);
  }

  /** Deciding the only pending domain, the chain not refusing. */
  lemma OnlyPendingIsConfirmed(N: Naming, c: Votes.Curve, v: View, d: Bytes, outcomes: Bytes -> Outcome)
    requires Inv(N, v) && Ripe(v, d) && v.dht.index == Some([d]) && outcomes(d).chainOk
    ensures var v' := Process(N, c, v, outcomes);
            var record := PendingOf(v.dht.pending, d).value.(status := Confirmed);
            && d in v'.dht.records && v'.dht.records[d] == record
            && d in v'.node.records && v'.node.records[d] == record
            && d in v'.dht.votes && v'.dht.votes[d].consensus && v'.dht.votes[d].decisionMaker == v.node.host
            && v'.dht.records.Keys == v.dht.records.Keys + {d}
  {
    ConfirmsOnly(N, c, v, d, outcomes(d));
    assert [d][1..] == [];
    assert ProcessAll(N, c, ProcessOne(N, c, v, d, outcomes(d)), [], outcomes) == ProcessOne(N, c, v, d, outcomes(d));
  }

  lemma ConfirmsOnly(N: Naming, c: Votes.Curve, v: View, d: Bytes, o: Outcome)
    requires Inv(N, v) && Ripe(v, d) && o.chainOk
    ensures var v' := ProcessOne(N, c, v, d, o);
            var record := PendingOf(v.dht.pending, d).value.(status := Confirmed);
            && d in v'.dht.records && v'.dht.records[d] == record
            && d in v'.node.records && v'.node.records[d] == record
            && d in v'.dht.votes && v'.dht.votes[d].consensus && v'.dht.votes[d].decisionMaker == v.node.host
            && v'.dht.records.Keys == v.dht.records.Keys + {d}
  {
    ProcessOneEffect(N, c, v, d, o);
  }

  /** The only domain of the network is confirmed, with its consensus saved, and but for the node that
      decided no node has a copy. */
  ghost predicate OnlyConfirmed(w: World, hosts: set<Host>, host: Host, record: Record) {
    var d := record.domain;
    && host in w.nodes && w.dht.records.Keys == {d} && w.dht.records[d] == record
    && d in w.nodes[host].records && w.nodes[host].records[d] == record
    && d in w.dht.votes && w.dht.votes[d].consensus && w.dht.votes[d].decisionMaker == host
    && forall other :: other in hosts && other != host ==> other in w.nodes && w.nodes[other].records == map[]
  }

  lemma ThenOnlyConfirmed(nodes: map<Host, Node>, hosts: set<Host>, host: Host, v: View, record: Record)
    requires forall other :: other in hosts && other != host ==> other in nodes && nodes[other].records == map[]
    requires var d := record.domain;
             && v.dht.records.Keys == {d} && v.dht.records[d] == record
             && d in v.node.records && v.node.records[d] == record
             && d in v.dht.votes && v.dht.votes[d].consensus && v.dht.votes[d].decisionMaker == host
    ensures OnlyConfirmed(World(v.dht, nodes[host := v.node]), hosts, host, record)
  {
  }

  lemma TickConfirms(N: Naming, c: Votes.Curve, v: View, nodes: map<Host, Node>, hosts: set<Host>, r: Record, t: nat,
                     outcomes: Bytes -> Outcome)
    requires Inv(N, v) && Ripe(v, r.domain) && v.dht.records == map[]
    requires v.dht.index == Some([r.domain]) && outcomes(r.domain).chainOk
    requires PendingOf(v.dht.pending, r.domain) == Some(Registered(r, v.node.host, t))
    requires forall other :: other in hosts && other != v.node.host ==> other in nodes && nodes[other].records == map[]
    ensures var v' := Process(N, c, v, outcomes);
            OnlyConfirmed(World(v'.dht, nodes[v.node.host := v'.node]), hosts, v.node.host,
                          Registered(r, v.node.host, t).(status := Confirmed))
  {
    OnlyPendingIsConfirmed(N, c, v, r.domain, outcomes);
    ThenOnlyConfirmed(nodes, hosts, v.node.host, Process(N, c, v, outcomes),
                      Registered(r, v.node.host, t).(status := Confirmed));
  }

  lemma TickStep(N: Naming, c: Votes.Curve, w: World, host: Host, outcomes: Bytes -> Outcome)
    requires host in w.nodes
    ensures var v' := Process(N, c, At(w, host), outcomes);
            Next(N, c, w, Step(host, ProcessPending(outcomes))) == World(v'.dht, w.nodes[host := v'.node])
  {
  }

  lemma ThenTick(N: Naming, c: Votes.Curve, w0: World, hosts: set<Host>, host: Host, ripe: seq<Step>, r: Record, t: nat,
                 outcomes: Bytes -> Outcome)
    requires var w := Run(N, c, w0, ripe);
             && host in w.nodes && w.nodes[host].host == host && Inv(N, At(w, host)) && Ripe(At(w, host), r.domain)
             && w.dht.index == Some([r.domain]) && w.dht.records == map[]
             && PendingOf(w.dht.pending, r.domain) == Some(Registered(r, host, t))
             && forall other :: other in hosts && other != host ==> other in w.nodes && w.nodes[other].records == map[]
    requires outcomes(r.domain).chainOk
    ensures OnlyConfirmed(Run(N, c, w0, ripe + [Step(host, ProcessPending(outcomes))]), hosts, host,
                          Registered(r, host, t).(status := Confirmed))
  {
    var w := Run(N, c, w0, ripe);
    TickConfirms(N, c, At(w, host), w.nodes, hosts, r, t, outcomes);
    TickStep(N, c, w, host, outcomes);
    RunSnoc(N, c, w0, ripe, Step(host, ProcessPending(outcomes)));
  }

  /** And from there a confirmed domain. */
  lemma ConfirmedIsReached(N: Naming, c: Votes.Curve, hosts: set<Host>, host: Host, r: Record, t: nat, u: nat,
                           b: Votes.Ballot, outcomes: Bytes -> Outcome) returns (steps: seq<Step>)
    requires ValidDomain(r.domain) && host in hosts && b.decisionMaker == host && b.onlineNodes <= 2
    requires outcomes(r.domain).chainOk
    ensures forall i :: 0 <= i < |steps| ==> Proper(steps[i].call)
    ensures WorldInv(N, Run(N, c, Genesis(hosts), steps)) && Run(N, c, Genesis(hosts), steps).nodes.Keys == hosts
    ensures OnlyConfirmed(Run(N, c, Genesis(hosts), steps), hosts, host, Registered(r, host, t).(status := Confirmed))
  {
    var ripe := RipeIsReached(N, c, hosts, host, r, t, u, b);
    steps := ripe + [Step(host, ProcessPending(outcomes))];
    ThenTick(N, c, Genesis(hosts), hosts, host, ripe, r, t, outcomes);
    ReachableInv(N, c, hosts, steps);
  }

  /** Votes outlive the registration they were cast on: before a single vote is cast on a new
      registration, a node's next tick settles it exactly when votes of an earlier one are there, they
      make a quorum and that node is their decision maker; and it is then confirmed unless they carry and
      the chain refuses. */
  lemma VotesDecideExactlyWhen(N: Naming, c: Votes.Curve, v: View, next: Record, t: nat, u: nat, decider: Node,
                               o: Outcome)
    requires Inv(N, v) && ValidDomain(next.domain) && Add(N, v, next, false, t, u).1
    requires Inv(N, View(Add(N, v, next, false, t, u).0.dht, decider))
    ensures var d := next.domain;
            var w := ProcessOne(N, c, View(Add(N, v, next, false, t, u).0.dht, decider), d, o);
            var settles := d in v.dht.votes && Votes.HasQuorum(v.dht.votes[d])
                && v.dht.votes[d].decisionMaker == decider.host;
            && (PendingOf(w.dht.pending, d).None? <==> settles)
            && (d in w.dht.records <==> settles && !(Votes.Carried(v.dht.votes[d]) && !o.chainOk))
            && (d in w.dht.records ==> w.dht.records[d].signer == next.signer)
  {
    var d := next.domain;
    AddedWasFree(N, v, next, t, u);
    var added := View(AfterAdd(v, next, t).dht, decider);
    assert PendingOf(added.dht.pending, d) == Some(Registered(next, v.node.host, t));
    ProcessOneEffect(N, c, added, d, o);
  }

  /** Votes outlive the registration they were cast on: after a refused transaction whoever registers the
      domain next is confirmed by them, without one new vote. */
  lemma LeftoverVotesDecide(N: Naming, c: Votes.Curve, v: View, d: Bytes, o: Outcome,
                            next: Record, t: nat, u: nat, o': Outcome)
    requires Inv(N, v) && Ripe(v, d) && ValidDomain(d) && Votes.Carried(v.dht.votes[d])
    requires !o.chainOk && o'.chainOk && next.domain == d
    ensures var refused := ProcessOne(N, c, v, d, o);
            var (registered, ok) := Add(N, refused, next, false, t, u);
            var decided := ProcessOne(N, c, registered, d, o');
            && ok && d in decided.dht.records && decided.dht.records[d].signer == next.signer
            && d in decided.dht.votes && decided.dht.votes[d].votes == v.dht.votes[d].votes
  {
    RefusalFreesDomain(N, c, v, d, o);
    var refused := ProcessOne(N, c, v, d, o);
    AddEffect(N, refused, next, false, t, u);
    AddMoves(N, refused, next, t);
    var registered := AfterAdd(refused, next, t);
    PendingIsUndecided(N, registered, d);
    DecisionConfirms(N, c, registered, d, o');
  }

  // ----- registering without the check -----

  lemma ConfirmedAndPending(N: Naming, v: View, d: Bytes)
    requires d in v.dht.records && PendingOf(v.dht.pending, d).Some?
    ensures !Inv(N, v)
  {
    assert !PendingFits(v.dht.locks, PendingOf(v.dht.pending, d).value, v.dht.records.Keys, d);
  }

  /** The registration request asks Get first and adds without checking later.  On a domain whose lock is
      free the later call keeps the invariant exactly when Get would still find nothing. */
  lemma UncheckedAddSafeExactlyWhen(N: Naming, v: View, r: Record, t: nat, u: nat)
    requires Inv(N, v) && ValidDomain(r.domain) && r.domain !in v.dht.locks
    ensures Add(N, v, r, true, t, u).1
    ensures Inv(N, Add(N, v, r, true, t, u).0) <==> Get(N, v, r.domain).1 == None
  {
    AddEffect(N, v, r, true, t, u);
    GetAnswers(N, v, r.domain);
    FreeIsNotPending(v.dht.locks, v.dht.pending, v.dht.records.Keys, r.domain);
    if r.domain !in v.dht.records {
      AddMoves(N, v, r, t);
    } else {
      ConfirmedAndPending(N, AfterAdd(v, r, t), r.domain);
    }
  }
}
