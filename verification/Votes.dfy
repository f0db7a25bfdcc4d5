/** core/voting.go: vote results, how a vote is added to one and how one is decided. */
module Votes {
  import opened Bytes
  import opened Options

  /** A point of the curve that vote signatures live on, and the addition that aggregates them. */
  datatype Point = Point(x: int, y: int)
  datatype Curve = Curve(zero: Point, add: (Point, Point) -> Point)

  /** Two points may be added to a third in either order. */
  ghost predicate Exchanges(c: Curve) {
    forall p, q, r :: c.add(c.add(p, q), r) == c.add(c.add(p, r), q)
  }

  /** Point addition is commutative and associative, and so it exchanges. */
  lemma CommutativeExchanges(c: Curve)
    requires forall p, q :: c.add(p, q) == c.add(q, p)
    requires forall p, q, r :: c.add(c.add(p, q), r) == c.add(p, c.add(q, r))
    ensures Exchanges(c)
  {
    forall p, q, r
      ensures c.add(c.add(p, q), r) == c.add(c.add(p, r), q)
    {
      calc {
        c.add(c.add(p, q), r);
        c.add(p, c.add(q, r));
        c.add(p, c.add(r, q));
        c.add(c.add(p, r), q);
      }
    }
  }

  datatype Vote = Vote(domain: Bytes, peer: Host, decision: bool, signature: Point, timestamp: int)

  datatype VoteResult = VoteResult(
    domain: Bytes, votes: map<Host, Vote>, threshold: int, totalVotes: int,
    consensus: bool, decision: bool, signature: Option<Point>,
    onlineNodes: nat, decisionMaker: Host, lastUpdated: int, attempts: int)

  /** What a host brings to a vote: its choice and signature, the peers it sees, the decision maker it
      would pick (any of them, or a crash in the code) and the time. */
  datatype Ballot = Ballot(
    host: Host, decision: bool, signature: Point, onlineNodes: nat, decisionMaker: Host, now: int)

  function FirstResult(domain: Bytes, b: Ballot): VoteResult {
    VoteResult(domain, map[], (b.onlineNodes * 2) / 3, 0, false, false, None, b.onlineNodes, b.decisionMaker, b.now, 0)
  }

  function WithVote(r: VoteResult, b: Ballot): VoteResult {
    var votes := r.votes[b.host := Vote(r.domain, b.host, b.decision, b.signature, b.now)];
    r.(votes := votes, totalVotes := |votes|)
  }

  /** SubmitVote on the result it read: what it saves, or None when it was decided already. */
  function Submit(read: Option<VoteResult>, domain: Bytes, b: Ballot): Option<VoteResult> {
    var r := if read.Some? then read.value else FirstResult(domain, b);
    if r.consensus || r.decision then None else Some(WithVote(r, b))
  }

  function Accepting(votes: map<Host, Vote>): set<Host> {
    set p | p in votes && votes[p].decision
  }

  predicate HasQuorum(r: VoteResult) {
    r.totalVotes >= r.threshold
  }

  /** A strict majority of the votes counted. */
  predicate Carried(r: VoteResult) {
    |Accepting(r.votes)| > r.totalVotes / 2
  }

  // ----- aggregation in any order -----

  /** An order in which a map's keys may be visited. */
  ghost predicate IsOrder(order: seq<Host>, votes: map<Host, Vote>) {
    && (forall i, j :: 0 <= i < j < |order| ==> order[i] != order[j])
    && (forall p :: p in order <==> p in votes)
  }

  function Sum(c: Curve, points: seq<Point>): Point {
    if points == [] then c.zero else c.add(Sum(c, points[..|points| - 1]), points[|points| - 1])
  }

  function Signatures(votes: map<Host, Vote>, order: seq<Host>): seq<Point>
    requires forall p :: p in order ==> p in votes
  {
    seq(|order|, i requires 0 <= i < |order| => votes[order[i]].signature)
  }

  function Without<T>(s: seq<T>, i: nat): seq<T>
    requires i < |s|
  {
    s[..i] + s[i + 1..]
  }

  /** Any point of a sum may be added last. */
  lemma {:induction false} SumLast(c: Curve, s: seq<Point>, i: nat)
    requires Exchanges(c) && i < |s|
    ensures Sum(c, s) == c.add(Sum(c, Without(s, i)), s[i])
  {
    var n := |s| - 1;
    if i == n {
      assert Without(s, i) == s[..n];
    } else {
      SumLast(c, s[..n], i);
      var rest := Without(s, i);
      assert rest[..n - 1] == Without(s[..n], i) && rest[n - 1] == s[n];
      var head := Sum(c, Without(s[..n], i));
      assert c.add(c.add(head, s[i]), s[n]) == c.add(c.add(head, s[n]), s[i]);
    }
  }

  /** Taking a vote's turn out of the sum. */
  lemma SumWithout(c: Curve, votes: map<Host, Vote>, order: seq<Host>, i: nat)
    requires Exchanges(c) && IsOrder(order, votes) && i < |order|
    ensures IsOrder(Without(order, i), votes - {order[i]})
    ensures Sum(c, Signatures(votes, order)) ==
            c.add(Sum(c, Signatures(votes - {order[i]}, Without(order, i))), votes[order[i]].signature)
  {
    OrderWithout(votes, order, i);
    SignaturesWithout(votes, order, i);
    SumLast(c, Signatures(votes, order), i);
  }

  lemma SignaturesWithout(votes: map<Host, Vote>, order: seq<Host>, i: nat)
    requires IsOrder(order, votes) && i < |order| && IsOrder(Without(order, i), votes - {order[i]})
    ensures Without(Signatures(votes, order), i) == Signatures(votes - {order[i]}, Without(order, i))
  {
  }

  lemma NonemptyOrder(votes: map<Host, Vote>, order: seq<Host>)
    requires IsOrder(order, votes) && order != []
    ensures exists p :: p in votes
  {
    assert order[0] in votes;
  }

  lemma {:induction false} SumIgnoresOrder(c: Curve, votes: map<Host, Vote>, s: seq<Host>, t: seq<Host>)
    requires Exchanges(c) && IsOrder(s, votes) && IsOrder(t, votes)
    ensures Sum(c, Signatures(votes, s)) == Sum(c, Signatures(votes, t))
    decreases |s|
  {
    if t != [] {
      NonemptyOrder(votes, t);
    }
    if s != [] {
      var p := s[0];
      assert p in votes && p in t;
      var i :| 0 <= i < |t| && t[i] == p;
      SumWithout(c, votes, s, 0);
      SumWithout(c, votes, t, i);
      SumIgnoresOrder(c, votes - {p}, Without(s, 0), Without(t, i));
    }
  }

  lemma OrderWithout(votes: map<Host, Vote>, order: seq<Host>, i: nat)
    requires IsOrder(order, votes) && i < |order|
    ensures IsOrder(Without(order, i), votes - {order[i]})
  {
    var rest := Without(order, i);
    forall p
      ensures p in rest <==> p in votes && p != order[i]
    {
      if p in rest {
        var k :| 0 <= k < |rest| && rest[k] == p;
        assert order[if k < i then k else k + 1] == p;
      }
      if p in votes && p != order[i] {
        var k :| 0 <= k < |order| && order[k] == p;
        assert rest[if k < i then k else k - 1] == p;
      }
    }
  }

  lemma {:induction false} OrderExists(votes: map<Host, Vote>)
    ensures exists order :: IsOrder(order, votes)
    decreases |votes|
  {
    if votes == map[] {
      assert IsOrder([], votes);
    } else {
      var p :| p in votes;
      OrderExists(votes - {p});
      var rest :| IsOrder(rest, votes - {p});
      assert IsOrder(rest + [p], votes);
    }
  }

  /** The sum of the votes' signatures, in an order that no caller can tell. */
  ghost function Aggregate(c: Curve, votes: map<Host, Vote>): Point {
    OrderExists(votes);
    var order :| IsOrder(order, votes);
    Sum(c, Signatures(votes, order))
  }

  // ----- deciding -----

  /** decide on a result that has its quorum. */
  ghost function Tally(c: Curve, r: VoteResult): VoteResult {
    r.(consensus := true, decision := Carried(r), signature := Some(Aggregate(c, r.votes)))
  }

  /** The counting loop of decide, which visits the votes in some order. */
  method CountAccepts(votes: map<Host, Vote>, order: seq<Host>) returns (accepts: nat)
    requires IsOrder(order, votes)
    ensures accepts == |Accepting(votes)|
  {
    accepts := 0;
    ghost var seen: set<Host> := {};
    for i := 0 to |order|
      invariant forall p :: p in seen <==> p in order[..i] && p in votes && votes[p].decision
      invariant accepts == |seen|
    {
      var p := order[i];
      assert order[..i + 1] == order[..i] + [p];
      if votes[p].decision {
        assert p !in seen;
        seen := seen + {p};
        accepts := accepts + 1;
      }
    }
    assert order[..|order|] == order;
    assert seen == Accepting(votes);
  }

  /** The aggregating loops of decide: collect the signatures, then add them up. */
  method AggregateSignatures(c: Curve, votes: map<Host, Vote>, order: seq<Host>) returns (aggSig: Point)
    requires Exchanges(c) && IsOrder(order, votes)
    ensures aggSig == Aggregate(c, votes)
  {
    var signatures: seq<Point> := [];
    for i := 0 to |order|
      invariant signatures == Signatures(votes, order)[..i]
    {
      signatures := signatures + [votes[order[i]].signature];
    }
    aggSig := c.zero;
    for i := 0 to |signatures|
      invariant aggSig == Sum(c, signatures[..i])
    {
      assert signatures[..i + 1][..i] == signatures[..i];
      aggSig := c.add(aggSig, signatures[i]);
    }
    assert signatures[..|signatures|] == Signatures(votes, order);
    AggregateIsAnySum(c, votes, order);
  }

  /** The deciding half of decide.  The result does not depend on the orders its loops happen to use. */
  method ComputeTally(c: Curve, r: VoteResult, countOrder: seq<Host>, signOrder: seq<Host>)
    returns (tallied: VoteResult)
    requires Exchanges(c) && IsOrder(countOrder, r.votes) && IsOrder(signOrder, r.votes)
    ensures tallied == Tally(c, r)
  {
    var accepts := CountAccepts(r.votes, countOrder);
    var aggSig := AggregateSignatures(c, r.votes, signOrder);
    tallied := r.(consensus := true, decision := accepts > r.totalVotes / 2, signature := Some(aggSig));
  }

  /** Whatever order the map is visited in, the aggregated signature is the same. */
  lemma AggregateIsAnySum(c: Curve, votes: map<Host, Vote>, order: seq<Host>)
    requires Exchanges(c) && IsOrder(order, votes)
    ensures Sum(c, Signatures(votes, order)) == Aggregate(c, votes)
  {
    OrderExists(votes);
    forall other | IsOrder(other, votes)
      ensures Sum(c, Signatures(votes, order)) == Sum(c, Signatures(votes, other))
    {
      SumIgnoresOrder(c, votes, order, other);
    }
  }

  // ----- what every stored result satisfies -----

  ghost predicate WellFormed(r: VoteResult) {
    && r.totalVotes == |r.votes|
    && (forall p :: p in r.votes ==> r.votes[p].peer == p && r.votes[p].domain == r.domain)
    && r.threshold == (r.onlineNodes * 2) / 3
    && (r.decision ==> r.consensus)
    && (r.consensus ==> HasQuorum(r) && (r.decision <==> 2 * |Accepting(r.votes)| > r.totalVotes))
  }

  lemma AcceptingAfter(votes: map<Host, Vote>, host: Host, vote: Vote)
    ensures Accepting(votes[host := vote]) ==
            if vote.decision then Accepting(votes) + {host} else Accepting(votes) - {host}
  {
    var after := votes[host := vote];
    forall p
      ensures p in Accepting(after) <==> if p == host then vote.decision else p in Accepting(votes)
    {
    }
  }

  lemma OthersAfter(votes: map<Host, Vote>, host: Host, vote: Vote)
    ensures votes[host := vote] - {host} == votes - {host}
  {
  }

  lemma SizeAfter(votes: map<Host, Vote>, host: Host, vote: Vote)
    ensures |votes[host := vote]| == |votes| + (if host in votes then 0 else 1)
  {
  }

  /** The vote says what its host cast: its choice, signed by it, at that time. */
  ghost predicate IsVote(v: Vote, domain: Bytes, b: Ballot) {
    && v.domain == domain && v.peer == b.host && v.decision == b.decision
    && v.signature == b.signature && v.timestamp == b.now
  }

  /** A vote counts once, as its peer's latest word, and no other peer's vote changes. */
  lemma VoteCounts(r: VoteResult, domain: Bytes, b: Ballot)
    requires WellFormed(r) && !r.consensus
    ensures Submit(Some(r), domain, b) == Some(WithVote(r, b))
    ensures var r' := WithVote(r, b);
            && Accepting(r'.votes) ==
               (if b.decision then Accepting(r.votes) + {b.host} else Accepting(r.votes) - {b.host})
            && r'.totalVotes == r.totalVotes + (if b.host in r.votes then 0 else 1)
            && r'.(votes := r.votes, totalVotes := r.totalVotes) == r
            && r'.votes - {b.host} == r.votes - {b.host}
            && b.host in r'.votes && IsVote(r'.votes[b.host], r.domain, b)
  {
    var vote := Vote(r.domain, b.host, b.decision, b.signature, b.now);
    AcceptingAfter(r.votes, b.host, vote);
    OthersAfter(r.votes, b.host, vote);
    SizeAfter(r.votes, b.host, vote);
  }

  lemma SubmitKeepsWellFormed(read: Option<VoteResult>, domain: Bytes, b: Ballot)
    requires read.Some? ==> WellFormed(read.value)
    requires Submit(read, domain, b).Some?
    ensures WellFormed(Submit(read, domain, b).value)
  {
  }

  lemma TallyKeepsWellFormed(c: Curve, r: VoteResult)
    requires WellFormed(r) && HasQuorum(r)
    ensures WellFormed(Tally(c, r))
  {
  }

  /** Deciding again what was decided changes nothing but the signature of an altered result, and not
      even that for one that decide has signed. */
  lemma TallyAgain(c: Curve, r: VoteResult)
    requires WellFormed(r) && r.consensus
    ensures Tally(c, r).decision == r.decision && Tally(c, r).votes == r.votes
    ensures Tally(c, Tally(c, r)) == Tally(c, r)
    ensures r.signature == Some(Aggregate(c, r.votes)) ==> Tally(c, r) == r
  {
  }

  /** A write of a vote result: a vote cast on what was read, or a decision on it.  Reads may be stale:
      they return any result ever stored for the domain, or nothing. */
  datatype Write = Cast(read: Option<nat>, domain: Bytes, ballot: Ballot) | Decided(result: nat)

  /** Every result stored by a sequence of writes, oldest first. */
  ghost function Stored(c: Curve, writes: seq<Write>): seq<VoteResult> {
    if writes == [] then []
    else
      var before := Stored(c, writes[..|writes| - 1]);
      match writes[|writes| - 1]
      case Cast(read, domain, ballot) =>
        if read.Some? && read.value >= |before| then before
        else
          var r := if read.Some? then Some(before[read.value]) else None;
          (match Submit(r, if r.Some? then r.value.domain else domain, ballot)
           case None => before
           case Some(result) => before + [result])
      case Decided(read) =>
        if read < |before| && HasQuorum(before[read]) then before + [Tally(c, before[read])] else before
  }

  /** However stale the reads, every result ever stored is well formed: votes are counted and filed
      under their peers, the threshold is that of the recorded online nodes, and a decision is backed by
      a quorum and is the strict majority's. */
  lemma {:induction false} StoredAreWellFormed(c: Curve, writes: seq<Write>)
    ensures forall i :: 0 <= i < |Stored(c, writes)| ==> WellFormed(Stored(c, writes)[i])
  {
    if writes != [] {
      var earlier := writes[..|writes| - 1];
      StoredAreWellFormed(c, earlier);
      var before, after := Stored(c, earlier), Stored(c, writes);
      match writes[|writes| - 1]
      case Cast(read, domain, ballot) =>
        if |after| > |before| {
          var r := if read.Some? then Some(before[read.value]) else None;
          SubmitKeepsWellFormed(r, if r.Some? then r.value.domain else domain, ballot);
        }
      case Decided(read) =>
        if |after| > |before| {
          TallyKeepsWellFormed(c, before[read]);
        }
    }
  }

  // ----- whose votes they are -----

  /** Some write cast that vote. */
  ghost predicate WasCast(writes: seq<Write>, domain: Bytes, v: Vote) {
    exists k :: 0 <= k < |writes| && writes[k].Cast? && IsVote(v, domain, writes[k].ballot)
  }

  /** The result was begun by the first vote on the domain of some host, with the nodes that this host saw,
      the decision maker that it picked, and its time. */
  ghost predicate BegunBy(writes: seq<Write>, r: VoteResult) {
    exists k :: 0 <= k < |writes| && writes[k].Cast? && writes[k].read.None? && writes[k].domain == r.domain
      && Begins(writes[k].ballot, r)
  }

  ghost predicate Begins(b: Ballot, r: VoteResult) {
    && r.onlineNodes == b.onlineNodes && r.decisionMaker == b.decisionMaker
    && r.lastUpdated == b.now && r.attempts == 0
  }

  ghost predicate IsAccounted(c: Curve, writes: seq<Write>, r: VoteResult) {
    && (forall p :: p in r.votes ==> r.votes[p].peer == p && WasCast(writes, r.domain, r.votes[p]))
    && BegunBy(writes, r)
    && r.signature == (if r.consensus then Some(Aggregate(c, r.votes)) else None)
  }

  lemma AccountedLater(c: Curve, before: seq<Write>, write: Write, r: VoteResult)
    requires IsAccounted(c, before, r)
    ensures IsAccounted(c, before + [write], r)
  {
    var writes := before + [write];
    assert forall k :: 0 <= k < |before| ==> writes[k] == before[k];
    forall p | p in r.votes
      ensures WasCast(writes, r.domain, r.votes[p])
    {
      var k :| 0 <= k < |before| && before[k].Cast? && IsVote(r.votes[p], r.domain, before[k].ballot);
      assert writes[k] == before[k];
    }
    var k :| 0 <= k < |before| && before[k].Cast? && before[k].read.None? && before[k].domain == r.domain
             && Begins(before[k].ballot, r);
    assert writes[k] == before[k];
  }

  lemma CastIsAccounted(c: Curve, before: seq<Write>, write: Write, read: Option<VoteResult>, r: VoteResult)
    requires write.Cast? && (read.Some? ==> IsAccounted(c, before, read.value)) && (read.None? <==> write.read.None?)
    requires Submit(read, if read.Some? then read.value.domain else write.domain, write.ballot) == Some(r)
    requires read.Some? && read.value.decision ==> read.value.consensus
    ensures IsAccounted(c, before + [write], r)
  {
    var writes := before + [write];
    assert writes[|before|] == write;
    if read.Some? {
      AccountedLater(c, before, write, read.value);
    }
    assert IsVote(r.votes[write.ballot.host], r.domain, writes[|before|].ballot);
    forall p | p in r.votes
      ensures r.votes[p].peer == p && WasCast(writes, r.domain, r.votes[p])
    {
      if p != write.ballot.host {
        assert read.Some? && p in read.value.votes && r.votes[p] == read.value.votes[p];
      }
    }
    if read.None? {
      assert Begins(writes[|before|].ballot, r);
    }
  }

  /** In any history, however stale the reads: every stored vote is one that its peer cast, with that
      peer's choice, signature and time; a result keeps the online nodes, the decision maker and the time of
      the vote that began it; and it is signed exactly when it is decided, with the aggregate of its votes'
      signatures. */
  lemma {:induction false} StoredAreAccounted(c: Curve, writes: seq<Write>)
    ensures forall i :: 0 <= i < |Stored(c, writes)| ==> IsAccounted(c, writes, Stored(c, writes)[i])
  {
    if writes != [] {
      var earlier, write := writes[..|writes| - 1], writes[|writes| - 1];
      assert writes == earlier + [write];
      StoredAreAccounted(c, earlier);
      StoredAreWellFormed(c, earlier);
      var before, after := Stored(c, earlier), Stored(c, writes);
      forall i | 0 <= i < |before|
        ensures IsAccounted(c, writes, before[i])
      {
        AccountedLater(c, earlier, write, before[i]);
      }
      if |after| > |before| {
        match write
        case Cast(read, domain, ballot) =>
          var r := if read.Some? then Some(before[read.value]) else None;
          CastIsAccounted(c, earlier, write, r, after[|before|]);
        case Decided(read) => assert after[|before|] == Tally(c, before[read]);
      }
    }
  }

  /** So the signature of a decided result is the sum, in any order, of points that peers signed their own
      votes with. */
  lemma AggregateIsOfCast(c: Curve, writes: seq<Write>, i: nat, order: seq<Host>)
    requires Exchanges(c) && i < |Stored(c, writes)| && Stored(c, writes)[i].consensus
    requires IsOrder(order, Stored(c, writes)[i].votes)
    ensures var r := Stored(c, writes)[i];
            var points := Signatures(r.votes, order);
            && r.signature == Some(Sum(c, points))
            && forall j :: 0 <= j < |order| ==>
                 exists k :: 0 <= k < |writes| && writes[k].Cast? && writes[k].ballot.host == order[j]
                   && writes[k].ballot.decision == r.votes[order[j]].decision && writes[k].ballot.signature == points[j]
  {
    StoredAreAccounted(c, writes);
    var r := Stored(c, writes)[i];
    AggregateIsAnySum(c, r.votes, order);
    forall j | 0 <= j < |order|
      ensures exists k :: 0 <= k < |writes| && writes[k].Cast? && writes[k].ballot.host == order[j]
                && writes[k].ballot.decision == r.votes[order[j]].decision
                && writes[k].ballot.signature == Signatures(r.votes, order)[j]
    {
      assert order[j] in r.votes && WasCast(writes, r.domain, r.votes[order[j]]);
      var k :| 0 <= k < |writes| && writes[k].Cast? && IsVote(r.votes[order[j]], r.domain, writes[k].ballot);
    }
  }

  /** The peers behind a decision to submit: more than a third of the nodes counted as online. */
  lemma CarriedBound(r: VoteResult)
    requires WellFormed(r) && HasQuorum(r) && Carried(r)
    ensures |Accepting(r.votes)| >= r.onlineNodes / 3 + 1
  {
  }

  /** In any history of stale reads and writes a signed transaction is submitted only with the accepting
      votes of at least n/3 + 1 distinct peers, n being the recorded number of online nodes. */
  lemma SubmissionQuorum(c: Curve, writes: seq<Write>, i: nat)
    requires i < |Stored(c, writes)|
    requires var r := Stored(c, writes)[i]; HasQuorum(r) && Tally(c, r).decision
    ensures var r := Stored(c, writes)[i];
            |Accepting(r.votes)| >= r.onlineNodes / 3 + 1
  {
    StoredAreWellFormed(c, writes);
    CarriedBound(Stored(c, writes)[i]);
  }

  // ----- the bound is attained -----

  function Peer(i: nat): (name: Host)
    ensures |name| == i
  {
    seq(i, j => 'p')
  }

  /** A vote of every peer up to total, the first ones accepting. */
  function Ballots(accepts: nat, total: nat): (votes: map<Host, Vote>) {
    if total == 0 then map[]
    else Ballots(accepts, total - 1)[Peer(total) := Vote("", Peer(total), total <= accepts, Point(0, 0), 0)]
  }

  lemma RejectingAdded(votes: map<Host, Vote>, p: Host, vote: Vote)
    requires p !in votes && !vote.decision
    ensures Accepting(votes[p := vote]) == Accepting(votes)
  {
    AcceptingAfter(votes, p, vote);
  }

  lemma {:induction false} AcceptingBallots(accepts: nat, total: nat)
    requires accepts <= total
    ensures |Accepting(Ballots(accepts, total))| == accepts
  {
    if total > accepts {
      AcceptingBallots(accepts, total - 1);
      BallotsUpTo(accepts, total - 1);
      RejectingAdded(Ballots(accepts, total - 1), Peer(total), Vote("", Peer(total), false, Point(0, 0), 0));
    } else {
      BallotsUpTo(accepts, total);
      AllAccepting(Ballots(accepts, total));
    }
  }

  lemma AllAccepting(votes: map<Host, Vote>)
    requires forall p :: p in votes ==> votes[p].decision
    ensures |Accepting(votes)| == |votes|
  {
    assert Accepting(votes) == votes.Keys;
  }

  lemma {:induction false} BallotsUpTo(accepts: nat, total: nat)
    ensures var votes := Ballots(accepts, total);
            && |votes| == total
            && forall p :: p in votes ==>
                 && 1 <= |p| <= total && votes[p].peer == p && votes[p].domain == ""
                 && (votes[p].decision <==> |p| <= accepts)
  {
    if total > 0 {
      BallotsUpTo(accepts, total - 1);
      assert Peer(total) !in Ballots(accepts, total - 1);
    }
  }

  /** Peers 1 to total vote one after another, each having read the vote before; the first ones accept. */
  lemma {:induction false} VotesInTurn(c: Curve, n: nat, accepts: nat, total: nat) returns (writes: seq<Write>)
    requires total > 0
    ensures |Stored(c, writes)| == total
    ensures Stored(c, writes)[total - 1] ==
            VoteResult("", Ballots(accepts, total), (n * 2) / 3, total, false, false, None, n, "", 0, 0)
  {
    var ballot := Ballot(Peer(total), total <= accepts, Point(0, 0), n, "", 0);
    var before: seq<Write> := [];
    if total > 1 {
      before := VotesInTurn(c, n, accepts, total - 1);
    }
    var write := Cast(if total > 1 then Some(total - 2) else None, "", ballot);
    writes := before + [write];
    assert writes[..|writes| - 1] == before;
    BallotsUpTo(accepts, total);
    var read := if total > 1 then Some(Stored(c, before)[total - 2]) else None;
    assert Submit(read, "", ballot).value.votes == Ballots(accepts, total);
  }

  /** No better bound holds: for every number of online nodes some history stores a result that carries
      with exactly n/3 + 1 accepting votes. */
  lemma SubmissionQuorumIsTight(c: Curve, n: nat) returns (writes: seq<Write>, i: nat)
    ensures i < |Stored(c, writes)|
    ensures var r := Stored(c, writes)[i];
            && HasQuorum(r) && Tally(c, r).decision && r.onlineNodes == n && |Accepting(r.votes)| == n / 3 + 1
  {
    var total := if n < 3 then 1 else (n * 2) / 3;
    writes := VotesInTurn(c, n, n / 3 + 1, total);
    i := total - 1;
    AcceptingBallots(n / 3 + 1, total);
  }
}
