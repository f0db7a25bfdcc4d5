/** Whose votes the DHT holds, in every run of whole calls by any nodes (core/voting.go). */
module Ballots {
  import opened Bytes
  import opened Options
  import opened Keys
  import opened Store
  import opened Lifecycle
  import opened Registration
  import opened Consensus
  import Votes

  function VotesFor(dht: Dht, d: Bytes): map<Host, Votes.Vote> {
    if d in dht.votes then dht.votes[d].votes else map[]
  }

  /** The ballot that a call casts on a domain, if any; the vote that a registration starts accepts. */
  function CastOn(call: Call, d: Bytes): Option<Votes.Ballot> {
    match call
    case Vote(e, b) => if e == d then Some(b) else None
    case VoteForAdded(e, _, b) => if e == d then Some(b.(decision := true)) else None
    case _ => None
  }

  /** The host's vote is the one it casts, and no other vote changes. */
  ghost predicate Takes(votes: map<Host, Votes.Vote>, votes': map<Host, Votes.Vote>, d: Bytes, b: Votes.Ballot) {
    votes' - {b.host} == votes - {b.host} && b.host in votes' && Votes.IsVote(votes'[b.host], d, b)
  }

  lemma SubmitTakes(N: Naming, v: View, e: Bytes, b: Votes.Ballot, d: Bytes)
    requires Inv(N, v)
    ensures var dht' := SubmitVote(v, e, b).0.dht;
            if e == d && !Decided(v.dht, d) then Takes(VotesFor(v.dht, d), VotesFor(dht', d), d, b)
            else VotesFor(dht', d) == VotesFor(v.dht, d)
  {
    if !Decided(v.dht, e) {
      if e in v.dht.votes {
        Votes.VoteCounts(v.dht.votes[e], e, b);
      } else {
        Votes.OthersAfter(map[], b.host, Votes.Vote(e, b.host, b.decision, b.signature, b.now));
      }
    }
  }

  lemma RegisterKeepsVotes(N: Naming, v: View, r: Record, t: nat, u: nat)
    ensures Add(N, v, r, false, t, u).0.dht.votes == v.dht.votes
  {
    AddEffect(N, v, r, false, t, u);
    GetKeepsPending(N, v, r.domain);
  }

  /** A tick leaves the result of a pending domain as it is, or decided. */
  lemma ProcessOneVotes(N: Naming, c: Votes.Curve, v: View, e: Bytes, o: Outcome)
    requires Inv(N, v) && PendingOf(v.dht.pending, e).Some?
    ensures var votes' := ProcessOne(N, c, v, e, o).dht.votes;
            votes' == v.dht.votes || (e in v.dht.votes && votes' == v.dht.votes[e := Votes.Tally(c, v.dht.votes[e])])
  {
    ProcessOneEffect(N, c, v, e, o);
    if e in v.dht.votes {
      DecideVotes(N, c, v, e, o);
    }
  }

  lemma DecideVotes(N: Naming, c: Votes.Curve, v: View, e: Bytes, o: Outcome)
    requires e in v.dht.votes && HoldsItsLock(v, e)
    ensures var votes' := AfterDecide(N, c, v, e, o).dht.votes;
            votes' == v.dht.votes || votes' == v.dht.votes[e := Votes.Tally(c, v.dht.votes[e])]
  {
  }

  lemma ProcessOneKeepsVotes(N: Naming, c: Votes.Curve, v: View, e: Bytes, o: Outcome, d: Bytes)
    requires Inv(N, v) && PendingOf(v.dht.pending, e).Some?
    ensures VotesFor(ProcessOne(N, c, v, e, o).dht, d) == VotesFor(v.dht, d)
  {
    ProcessOneVotes(N, c, v, e, o);
    if e in v.dht.votes {
      TallyKeepsVotes(c, v.dht.votes[e]);
      OthersVotes(v.dht, ProcessOne(N, c, v, e, o).dht, e, Votes.Tally(c, v.dht.votes[e]), d);
    }
  }

  lemma TallyKeepsVotes(c: Votes.Curve, result: Votes.VoteResult)
    ensures Votes.Tally(c, result).votes == result.votes
  {
  }

  lemma OthersVotes(dht: Dht, dht': Dht, e: Bytes, result: Votes.VoteResult, d: Bytes)
    requires e in dht.votes && result.votes == dht.votes[e].votes
    requires dht'.votes == dht.votes || dht'.votes == dht.votes[e := result]
    ensures VotesFor(dht', d) == VotesFor(dht, d)
  {
  }

  lemma {:induction false} ProcessAllKeepsVotes(N: Naming, c: Votes.Curve, v: View, domains: seq<Bytes>,
                                                outcomes: Bytes -> Outcome, d: Bytes)
    requires Inv(N, v) && NoDuplicates(domains)
    requires forall e :: e in domains ==> PendingOf(v.dht.pending, e).Some?
    ensures VotesFor(ProcessAll(N, c, v, domains, outcomes).dht, d) == VotesFor(v.dht, d)
    decreases |domains|
  {
    if domains != [] {
      var e := domains[0];
      ProcessOneMoves(N, c, v, e, outcomes(e));
      ProcessOneTouchesOne(N, c, v, e, outcomes(e));
      ProcessOneKeepsVotes(N, c, v, e, outcomes(e), d);
      ProcessAllKeepsVotes(N, c, ProcessOne(N, c, v, e, outcomes(e)), domains[1..], outcomes, d);
    }
  }

  lemma RejectKeepsVotes(N: Naming, v: View, e: Bytes, nanos: nat)
    requires e != INDEX_KEY
    ensures RejectRecord(N, v, e, nanos).0.dht.votes == v.dht.votes
  {
    SettlesExactlyWhen(N, v, e, false, nanos);
  }

  lemma LookupKeepsVotes(N: Naming, v: View, h: Word)
    ensures GetByNamehash(N, v, h).0.dht.votes == v.dht.votes
  {
    if EntryFor(v, h).Some? {
      GetKeepsPending(N, v, EntryFor(v, h).value);
    }
  }

  lemma BindKeepsVotes(N: Naming, v: View, h: Word, chain: nat, resolver: Bytes)
    ensures BindAddressResolver(N, v, h, chain, resolver).0.dht.votes == v.dht.votes
  {
    LookupKeepsVotes(N, v, h);
  }

  lemma EditKeepsVotes(N: Naming, v: View, e: Bytes, edit: Edit, now: nat)
    ensures AddBinding(N, v, e, edit, now).0.dht.votes == v.dht.votes
  {
    GetKeepsPending(N, v, e);
  }

  predicate Quiet(call: Call) {
    !call.Vote? && !call.VoteForAdded? && !call.ProcessPending?
  }

  lemma QuietKeepsVotes(N: Naming, c: Votes.Curve, v: View, call: Call)
    requires Quiet(call) && Proper(call)
    ensures Perform(N, c, v, call).dht.votes == v.dht.votes
  {
    match call
    case Register(r, t, u) => RegisterKeepsVotes(N, v, r, t, u);
    case Reject(e, nanos) => RejectKeepsVotes(N, v, e, nanos);
    case Lookup(e) => GetKeepsPending(N, v, e);
    case LookupHash(h) => LookupKeepsVotes(N, v, h);
    case Bind(h, chain, resolver) => BindKeepsVotes(N, v, h, chain, resolver);
    case EditBinding(e, edit, now) => EditKeepsVotes(N, v, e, edit, now);
  }

  /** A call that casts a ballot on an undecided domain puts it in its host's place; no call does anything
      else to the votes. */
  lemma PerformTakes(N: Naming, c: Votes.Curve, v: View, call: Call, d: Bytes)
    requires Inv(N, v) && Proper(call)
    ensures var votes, votes' := VotesFor(v.dht, d), VotesFor(Perform(N, c, v, call).dht, d);
            var cast := CastOn(call, d);
            if cast.Some? && !Decided(v.dht, d) then Takes(votes, votes', d, cast.value.(host := v.node.host))
            else votes' == votes
  {
    if Quiet(call) {
      QuietKeepsVotes(N, c, v, call);
    } else {
      match call
      case VoteForAdded(e, id, b) =>
        VoteAfterAddMoves(N, v, e, id, b.(host := v.node.host));
        SubmitTakes(N, v, e, b.(host := v.node.host, decision := true), d);
      case Vote(e, b) => SubmitTakes(N, v, e, b.(host := v.node.host), d);
      case ProcessPending(outcomes) => ProcessAllKeepsVotes(N, c, v, PendingDomains(v.dht.index), outcomes, d);
    }
  }

  // ----- over runs -----

  /** The step casts a ballot of that host on a domain that is not decided. */
  ghost predicate Casts(w: World, step: Step, d: Bytes, host: Host) {
    step.host == host && host in w.nodes && CastOn(step.call, d).Some? && !Decided(w.dht, d)
  }

  /** The i-th step is the last one to do so. */
  ghost predicate LastCast(N: Naming, c: Votes.Curve, w: World, steps: seq<Step>, d: Bytes, host: Host, i: nat) {
    && i < |steps| && Casts(Run(N, c, w, steps[..i]), steps[i], d, host)
    && forall j :: i < j < |steps| ==> !Casts(Run(N, c, w, steps[..j]), steps[j], d, host)
  }

  lemma LastCastSnoc(N: Naming, c: Votes.Curve, w: World, before: seq<Step>, step: Step, d: Bytes, host: Host, i: nat)
    ensures LastCast(N, c, w, before + [step], d, host, i) <==>
            if Casts(Run(N, c, w, before), step, d, host) then i == |before|
            else LastCast(N, c, w, before, d, host, i)
  {
    var steps := before + [step];
    assert forall j :: 0 <= j <= |before| ==> steps[..j] == before[..j];
    assert before[..|before|] == before && steps[|before|] == step;
    assert forall j :: 0 <= j < |before| ==> steps[j] == before[j];
  }

  lemma LastCastsSnoc(N: Naming, c: Votes.Curve, w: World, before: seq<Step>, step: Step, d: Bytes, host: Host)
    ensures forall i: nat :: LastCast(N, c, w, before + [step], d, host, i) <==>
                             if Casts(Run(N, c, w, before), step, d, host) then i == |before|
                             else LastCast(N, c, w, before, d, host, i)
  {
    forall i: nat {
      LastCastSnoc(N, c, w, before, step, d, host, i);
    }
  }

  lemma OthersKept(votes: map<Host, Votes.Vote>, votes': map<Host, Votes.Vote>, actor: Host)
    ensures votes' - {actor} == votes - {actor} ==>
              forall p :: p != actor ==> (p in votes' <==> p in votes) && (p in votes ==> votes'[p] == votes[p])
  {
    forall p | p != actor && votes' - {actor} == votes - {actor}
      ensures (p in votes' <==> p in votes) && (p in votes ==> votes'[p] == votes[p])
    {
      assert p in votes' <==> p in votes' - {actor};
      assert p in votes <==> p in votes - {actor};
      if p in votes {
        assert votes[p] == (votes - {actor})[p] && votes'[p] == (votes' - {actor})[p];
      }
    }
  }

  /** What a step does to one host's vote. */
  lemma StepTakes(N: Naming, c: Votes.Curve, w: World, step: Step, d: Bytes, host: Host)
    requires WorldInv(N, w) && Proper(step.call)
    ensures var votes, votes' := VotesFor(w.dht, d), VotesFor(Next(N, c, w, step).dht, d);
            if Casts(w, step, d, host)
            then host in votes' && Votes.IsVote(votes'[host], d, CastOn(step.call, d).value.(host := host))
            else (host in votes' <==> host in votes) && (host in votes ==> votes'[host] == votes[host])
  {
    if step.host in w.nodes {
      PerformTakes(N, c, At(w, step.host), step.call, d);
      OthersKept(VotesFor(w.dht, d), VotesFor(Next(N, c, w, step).dht, d), step.host);
    }
  }

  /** A host has a vote exactly if it cast one, and then its last. */
  ghost predicate HoldsLastCast(N: Naming, c: Votes.Curve, w: World, steps: seq<Step>, d: Bytes, host: Host,
                                votes: map<Host, Votes.Vote>)
  {
    && (host in votes <==> exists i: nat :: LastCast(N, c, w, steps, d, host, i))
    && forall i: nat :: LastCast(N, c, w, steps, d, host, i) ==>
         host in votes && Votes.IsVote(votes[host], d, CastOn(steps[i].call, d).value.(host := host))
  }

  lemma CastHolds(N: Naming, c: Votes.Curve, w: World, before: seq<Step>, step: Step, d: Bytes, host: Host,
                  votes: map<Host, Votes.Vote>)
    requires Casts(Run(N, c, w, before), step, d, host)
    requires host in votes && Votes.IsVote(votes[host], d, CastOn(step.call, d).value.(host := host))
    ensures HoldsLastCast(N, c, w, before + [step], d, host, votes)
  {
    LastCastsSnoc(N, c, w, before, step, d, host);
    assert LastCast(N, c, w, before + [step], d, host, |before|);
  }

  lemma NoCastHolds(N: Naming, c: Votes.Curve, w: World, before: seq<Step>, step: Step, d: Bytes, host: Host,
                    votes: map<Host, Votes.Vote>, votes': map<Host, Votes.Vote>)
    requires HoldsLastCast(N, c, w, before, d, host, votes) && !Casts(Run(N, c, w, before), step, d, host)
    requires (host in votes' <==> host in votes) && (host in votes ==> votes'[host] == votes[host])
    ensures HoldsLastCast(N, c, w, before + [step], d, host, votes')
  {
    LastCastsSnoc(N, c, w, before, step, d, host);
    assert forall i :: 0 <= i < |before| ==> (before + [step])[i] == before[i];
    if i: nat :| LastCast(N, c, w, before, d, host, i) {
      assert LastCast(N, c, w, before + [step], d, host, i);
    }
  }

  /** The vote of a host on a domain, in every state of every run, is exactly what the host cast last while
      the domain was not decided: its choice, signature and time; and a host that never did has none. */
  lemma {:induction false} VoteIsLastCast(N: Naming, c: Votes.Curve, hosts: set<Host>, steps: seq<Step>, d: Bytes,
                                          host: Host)
    requires forall k :: 0 <= k < |steps| ==> Proper(steps[k].call)
    ensures HoldsLastCast(N, c, Genesis(hosts), steps, d, host, VotesFor(Run(N, c, Genesis(hosts), steps).dht, d))
  {
    if steps != [] {
      var before, step := steps[..|steps| - 1], steps[|steps| - 1];
      assert steps == before + [step];
      ReachableInv(N, c, hosts, before);
      VoteIsLastCast(N, c, hosts, before, d, host);
      var w := Run(N, c, Genesis(hosts), before);
      StepTakes(N, c, w, step, d, host);
      var votes, votes' := VotesFor(w.dht, d), VotesFor(Next(N, c, w, step).dht, d);
      if Casts(w, step, d, host) {
        CastHolds(N, c, Genesis(hosts), before, step, d, host, votes');
      } else {
        NoCastHolds(N, c, Genesis(hosts), before, step, d, host, votes, votes');
      }
    }
  }

  /** Decided results, and no others, are signed, with the aggregate of their votes' signatures. */
  ghost predicate SignedWhenDecided(c: Votes.Curve, dht: Dht) {
    forall d :: d in dht.votes ==>
      dht.votes[d].signature ==
      if dht.votes[d].consensus then Some(Votes.Aggregate(c, dht.votes[d].votes)) else None
  }

  lemma SubmitKeepsSigned(N: Naming, c: Votes.Curve, v: View, e: Bytes, b: Votes.Ballot)
    requires Inv(N, v) && SignedWhenDecided(c, v.dht)
    ensures SignedWhenDecided(c, SubmitVote(v, e, b).0.dht)
  {
  }

  lemma ProcessOneKeepsSigned(N: Naming, c: Votes.Curve, v: View, e: Bytes, o: Outcome)
    requires Inv(N, v) && PendingOf(v.dht.pending, e).Some? && SignedWhenDecided(c, v.dht)
    ensures SignedWhenDecided(c, ProcessOne(N, c, v, e, o).dht)
  {
    ProcessOneVotes(N, c, v, e, o);
  }

  lemma {:induction false} ProcessAllKeepsSigned(N: Naming, c: Votes.Curve, v: View, domains: seq<Bytes>,
                                                 outcomes: Bytes -> Outcome)
    requires Inv(N, v) && NoDuplicates(domains) && SignedWhenDecided(c, v.dht)
    requires forall e :: e in domains ==> PendingOf(v.dht.pending, e).Some?
    ensures SignedWhenDecided(c, ProcessAll(N, c, v, domains, outcomes).dht)
    decreases |domains|
  {
    if domains != [] {
      var e := domains[0];
      ProcessOneMoves(N, c, v, e, outcomes(e));
      ProcessOneTouchesOne(N, c, v, e, outcomes(e));
      ProcessOneKeepsSigned(N, c, v, e, outcomes(e));
      ProcessAllKeepsSigned(N, c, ProcessOne(N, c, v, e, outcomes(e)), domains[1..], outcomes);
    }
  }

  lemma PerformKeepsSigned(N: Naming, c: Votes.Curve, v: View, call: Call)
    requires Inv(N, v) && Proper(call) && SignedWhenDecided(c, v.dht)
    ensures SignedWhenDecided(c, Perform(N, c, v, call).dht)
  {
    if Quiet(call) {
      QuietKeepsVotes(N, c, v, call);
    } else {
      match call
      case VoteForAdded(e, id, b) =>
        VoteAfterAddMoves(N, v, e, id, b.(host := v.node.host));
        SubmitKeepsSigned(N, c, v, e, b.(host := v.node.host, decision := true));
      case Vote(e, b) => SubmitKeepsSigned(N, c, v, e, b.(host := v.node.host));
      case ProcessPending(outcomes) => ProcessAllKeepsSigned(N, c, v, PendingDomains(v.dht.index), outcomes);
    }
  }

  lemma {:induction false} DecidedAreSigned(N: Naming, c: Votes.Curve, hosts: set<Host>, steps: seq<Step>)
    requires forall k :: 0 <= k < |steps| ==> Proper(steps[k].call)
    ensures SignedWhenDecided(c, Run(N, c, Genesis(hosts), steps).dht)
  {
    if steps != [] {
      var before, step := steps[..|steps| - 1], steps[|steps| - 1];
      DecidedAreSigned(N, c, hosts, before);
      ReachableInv(N, c, hosts, before);
      var w := Run(N, c, Genesis(hosts), before);
      if step.host in w.nodes {
        PerformKeepsSigned(N, c, At(w, step.host), step.call);
      }
    }
  }

  /** So in every run a decided domain carries the sum, in any order, of the points that its voters signed
      their last ballots with, and nobody else's. */
  lemma ConsensusIsSignedByVoters(N: Naming, c: Votes.Curve, hosts: set<Host>, steps: seq<Step>, d: Bytes,
                                  order: seq<Host>, k: nat)
    requires Votes.Exchanges(c) && forall j :: 0 <= j < |steps| ==> Proper(steps[j].call)
    requires Decided(Run(N, c, Genesis(hosts), steps).dht, d)
    requires Votes.IsOrder(order, VotesFor(Run(N, c, Genesis(hosts), steps).dht, d)) && k < |order|
    ensures var dht := Run(N, c, Genesis(hosts), steps).dht;
            var points := Votes.Signatures(VotesFor(dht, d), order);
            && dht.votes[d].signature == Some(Votes.Sum(c, points))
            && exists i: nat :: LastCast(N, c, Genesis(hosts), steps, d, order[k], i)
                           && CastOn(steps[i].call, d).value.signature == points[k]
  {
    var dht := Run(N, c, Genesis(hosts), steps).dht;
    DecidedAreSigned(N, c, hosts, steps);
    Votes.AggregateIsAnySum(c, VotesFor(dht, d), order);
    assert order[k] in VotesFor(dht, d);
    VoteIsLastCast(N, c, hosts, steps, d, order[k]);
    var i: nat :| LastCast(N, c, Genesis(hosts), steps, d, order[k], i);
  }
}
