/** Any number of listeners on one chain (contracts/evm/listener.go), each crashing and starting again as it
    will, and a node that handles what they gossip: the way of the logs from the listeners' runs to the node. */
module Delivery {
  import opened Bytes
  import opened Options
  import opened Gossip
  import opened Publishing
  import Lifecycle
  import Listener
  import Registry
  import Store

  // ----- deliveries in order -----

  /** The log after the ones delivered so far, the first being the base. */
  function Frontier(deliveries: seq<nat>, base: nat): nat {
    if deliveries == [] then base
    else
      var frontier := Frontier(deliveries[..|deliveries| - 1], base);
      if deliveries[|deliveries| - 1] == frontier then frontier + 1 else frontier
  }

  /** Each delivery is of a log delivered before or of the next one. */
  ghost predicate InOrder(deliveries: seq<nat>, base: nat) {
    deliveries != [] ==>
      var before, last := deliveries[..|deliveries| - 1], deliveries[|deliveries| - 1];
      InOrder(before, base) && base <= last <= Frontier(before, base)
  }

  lemma {:induction false} InOrderIsWithin(deliveries: seq<nat>, base: nat)
    requires InOrder(deliveries, base)
    ensures base <= Frontier(deliveries, base)
    ensures forall i :: 0 <= i < |deliveries| ==> base <= deliveries[i] < Frontier(deliveries, base)
  {
    if deliveries != [] {
      InOrderIsWithin(deliveries[..|deliveries| - 1], base);
    }
  }

  /** What is made of the deliveries: nothing for some of the logs. */
  function Picked<T>(all: seq<Option<T>>, deliveries: seq<nat>): seq<T>
    requires forall i :: 0 <= i < |deliveries| ==> deliveries[i] < |all|
  {
    Decoded(seq(|deliveries|, i requires 0 <= i < |deliveries| => all[deliveries[i]]))
  }

  lemma PickedSnoc<T>(all: seq<Option<T>>, before: seq<nat>, last: nat)
    requires last < |all| && forall i :: 0 <= i < |before| ==> before[i] < |all|
    ensures Picked(all, before + [last]) == Picked(all, before) + if all[last].Some? then [all[last].value] else []
  {
    var picked := seq(|before|, i requires 0 <= i < |before| => all[before[i]]);
    var longer := before + [last];
    assert seq(|longer|, i requires 0 <= i < |longer| => all[longer[i]]) == picked + [all[last]];
    DecodedSnoc(picked, all[last]);
  }

  /** De-duplication leaves the same of both. */
  ghost predicate SameFirsts<T>(id: T -> Bytes, stream: seq<T>, items: seq<T>) {
    FirstOccurrences(id, false, stream) == FirstOccurrences(id, false, items)
  }

  /** An item never delivered before is new to the stream exactly if it is new to the items. */
  lemma NewItem<T>(id: T -> Bytes, stream: seq<T>, items: seq<T>, x: T)
    requires SameFirsts(id, stream, items)
    ensures SameFirsts(id, stream + [x], items + [x])
  {
    Gossip.FirstsSnoc(id, stream, x);
    Gossip.FirstsSnoc(id, items, x);
    FirstsHaveIds(id, stream, id(x));
    FirstsHaveIds(id, items, id(x));
  }

  /** An item delivered before is dropped. */
  lemma OldItem<T>(id: T -> Bytes, stream: seq<T>, items: seq<T>, x: T)
    requires SameFirsts(id, stream, items) && x in items
    ensures SameFirsts(id, stream + [x], items)
  {
    var k :| 0 <= k < |items| && items[k] == x;
    assert id(items[k]) == id(x);
    Gossip.FirstsSnoc(id, stream, x);
    FirstsHaveIds(id, stream, id(x));
    FirstsHaveIds(id, items, id(x));
    assert FirstOccurrences(id, false, stream) + [] == FirstOccurrences(id, false, stream);
  }

  lemma {:induction false} InDecoded<T>(items: seq<Option<T>>, i: nat)
    requires i < |items| && items[i].Some?
    ensures items[i].value in Decoded(items)
  {
    if i > 0 {
      InDecoded(items[1..], i - 1);
    }
  }

  lemma NewDelivery<T>(id: T -> Bytes, all: seq<Option<T>>, before: seq<nat>, base: nat, frontier: nat)
    requires base <= frontier < |all| && forall i :: 0 <= i < |before| ==> before[i] < |all|
    requires SameFirsts(id, Picked(all, before), Decoded(all[base..frontier]))
    ensures SameFirsts(id, Picked(all, before + [frontier]), Decoded(all[base..frontier + 1]))
  {
    var stream, items := Picked(all, before), Decoded(all[base..frontier]);
    PickedSnoc(all, before, frontier);
    assert all[base..frontier + 1] == all[base..frontier] + [all[frontier]];
    DecodedSnoc(all[base..frontier], all[frontier]);
    if all[frontier].Some? {
      NewItem(id, stream, items, all[frontier].value);
    } else {
      assert stream + [] == stream && items + [] == items;
    }
  }

  lemma OldDelivery<T>(id: T -> Bytes, all: seq<Option<T>>, before: seq<nat>, base: nat, frontier: nat, last: nat)
    requires base <= last < frontier <= |all| && forall i :: 0 <= i < |before| ==> before[i] < |all|
    requires SameFirsts(id, Picked(all, before), Decoded(all[base..frontier]))
    ensures SameFirsts(id, Picked(all, before + [last]), Decoded(all[base..frontier]))
  {
    var stream, items := Picked(all, before), Decoded(all[base..frontier]);
    PickedSnoc(all, before, last);
    if all[last].Some? {
      assert all[base..frontier][last - base] == all[last];
      InDecoded(all[base..frontier], last - base);
      OldItem(id, stream, items, all[last].value);
    } else {
      assert stream + [] == stream;
    }
  }

  /** However often and whenever items are delivered again, the deliveries have the same first occurrences as
      each item once. */
  lemma {:induction false} InOrderDelivers<T>(id: T -> Bytes, all: seq<Option<T>>, deliveries: seq<nat>, base: nat)
    requires InOrder(deliveries, base) && Frontier(deliveries, base) <= |all|
    ensures forall i :: 0 <= i < |deliveries| ==> deliveries[i] < |all|
    ensures base <= Frontier(deliveries, base)
    ensures SameFirsts(id, Picked(all, deliveries), Decoded(all[base..Frontier(deliveries, base)]))
  {
    InOrderIsWithin(deliveries, base);
    if deliveries != [] {
      var before, last := deliveries[..|deliveries| - 1], deliveries[|deliveries| - 1];
      assert deliveries == before + [last];
      InOrderDelivers(id, all, before, base);
      var frontier := Frontier(before, base);
      if last == frontier {
        NewDelivery(id, all, before, base, frontier);
      } else {
        OldDelivery(id, all, before, base, frontier, last);
      }
    }
  }

  // ----- logs and their events -----

  function LogId(l: BoundLog): Bytes {
    EventId(Published(l))
  }

  lemma {:induction false} EventsOfFirsts(logs: seq<BoundLog>)
    ensures Events(FirstOccurrences(LogId, false, logs)) == FirstOccurrences(EventId, false, Events(logs))
  {
    if logs != [] {
      var n := |logs| - 1;
      var before, l := logs[..n], logs[n];
      assert logs == before + [l] && Events(logs) == Events(before) + [Published(l)];
      EventsOfFirsts(before);
      Gossip.FirstsSnoc(LogId, before, l);
      Gossip.FirstsSnoc(EventId, Events(before), Published(l));
      SameIds(before, LogId(l));
      var firsts := FirstOccurrences(LogId, false, before);
      assert Events(firsts + [l]) == Events(firsts) + [Published(l)] && firsts + [] == firsts;
    }
  }

  lemma SameIds(logs: seq<BoundLog>, i: Bytes)
    ensures HasId(LogId, logs, i) <==> HasId(EventId, Events(logs), i)
  {
    assert forall k :: 0 <= k < |logs| ==> EventId(Events(logs)[k]) == LogId(logs[k]);
  }

  lemma SameFirstsDeliver(stream: seq<BoundLog>, logs: seq<BoundLog>)
    requires SameFirsts(LogId, stream, logs)
    ensures Delivers(stream, logs)
  {
    EventsOfFirsts(stream);
    EventsOfFirsts(logs);
  }

  // ----- listeners on one chain -----

  type Fleet = map<Host, Listener.State>

  /** A new block for all of them, or one listener's own step. */
  datatype Step = Block(payloads: seq<int>) | On(host: Host, step: Listener.Step)

  function Next(deployment: nat, fleet: Fleet, s: Step): Fleet {
    match s
    case Block(ps) => map h | h in fleet :: Listener.Next(deployment, fleet[h], Listener.Mine(ps))
    case On(h, step) =>
      if h !in fleet || step.Mine? then fleet else fleet[h := Listener.Next(deployment, fleet[h], step)]
  }

  function Run(deployment: nat, fleet: Fleet, steps: seq<Step>): Fleet {
    if steps == [] then fleet else Next(deployment, Run(deployment, fleet, steps[..|steps| - 1]), steps[|steps| - 1])
  }

  /** The logs handed over, by whichever listener, in the order in which that happened. */
  function Deliveries(deployment: nat, fleet: Fleet, steps: seq<Step>): seq<nat> {
    if steps == [] then []
    else
      var before, s := steps[..|steps| - 1], steps[|steps| - 1];
      var now := Run(deployment, fleet, before);
      Deliveries(deployment, fleet, before) + DeliveredBy(now, s)
  }

  function DeliveredBy(fleet: Fleet, s: Step): seq<nat> {
    if s.On? && s.host in fleet && Listener.Handing(fleet[s.host], s.step).Some?
    then [Listener.Handing(fleet[s.host], s.step).value]
    else []
  }

  /** Every listener's history query succeeds. */
  ghost predicate QueriesSucceed(steps: seq<Step>) {
    forall i :: 0 <= i < |steps| && steps[i].On? && steps[i].step.Start? ==> steps[i].step.queryOk
  }

  /** The listeners before their first start, on a chain with those logs. */
  ghost predicate Initial(deployment: nat, fleet: Fleet, logs: seq<Listener.Log>, head: nat) {
    forall h :: h in fleet ==> Listener.Initial(deployment, fleet[h]) && fleet[h].logs == logs && fleet[h].head == head
  }

  /** What is kept of a listener and the log after those it has handled; the proofs below are about any such
      relation that each of its steps keeps. */
  type Keeps = (Listener.State, nat) -> bool

  ghost predicate KeptBySteps(deployment: nat, base: nat, K: Keeps) {
    forall s: Listener.State, own: nat, step: Listener.Step {:trigger K(s, own), Listener.Next(deployment, s, step)} ::
      K(s, own) && (step.Start? ==> step.queryOk) ==>
        var handed := Listener.Handing(s, step);
        && (handed.Some? ==> base <= handed.value <= own && handed.value < |s.logs|)
        && K(Listener.Next(deployment, s, step), if handed == Some(own) then own + 1 else own)
  }

  ghost function HandledStretch(deployment: nat, base: nat): Keeps {
    (s: Listener.State, own: nat) => Listener.Inv(deployment, s) && Listener.Contiguous(deployment, s, base, own)
  }

  lemma HandledStretchIsKept(deployment: nat, base: nat)
    ensures KeptBySteps(deployment, base, HandledStretch(deployment, base))
  {
    var K := HandledStretch(deployment, base);
    forall s, own: nat, step: Listener.Step | K(s, own) && (step.Start? ==> step.queryOk)
      ensures var handed := Listener.Handing(s, step);
              && (handed.Some? ==> base <= handed.value <= own && handed.value < |s.logs|)
              && K(Listener.Next(deployment, s, step), if handed == Some(own) then own + 1 else own)
    {
      Listener.StepHandsInOrder(deployment, s, step, base, own);
      Listener.NextKeepsInv(deployment, s, step);
    }
  }

  /** The chain as every listener sees it. */
  datatype Chain = Chain(logs: seq<Listener.Log>, head: nat)

  /** No listener has handled more than all deliveries together. */
  ghost predicate FleetInv(K: Keeps, fleet: Fleet, own: map<Host, nat>, chain: Chain, frontier: nat) {
    && own.Keys == fleet.Keys && frontier <= |chain.logs|
    && forall h :: h in fleet ==> K(fleet[h], own[h]) && own[h] <= frontier && OnChain(fleet[h], chain)
  }

  predicate OnChain(s: Listener.State, chain: Chain) {
    s.logs == chain.logs && s.head == chain.head
  }

  function WithBlock(chain: Chain, payloads: seq<int>): Chain {
    Chain(chain.logs + seq(|payloads|, i requires 0 <= i < |payloads| => Listener.Log(chain.head + 1, payloads[i])),
          chain.head + 1)
  }

  lemma MineGrowsChain(deployment: nat, s: Listener.State, chain: Chain, payloads: seq<int>)
    requires OnChain(s, chain)
    ensures OnChain(Listener.Next(deployment, s, Listener.Mine(payloads)), WithBlock(chain, payloads))
    ensures Listener.Handing(s, Listener.Mine(payloads)).None?
  {
  }

  lemma OwnStepKeepsChain(deployment: nat, s: Listener.State, chain: Chain, step: Listener.Step)
    requires OnChain(s, chain) && !step.Mine?
    ensures OnChain(Listener.Next(deployment, s, step), chain)
  {
  }

  lemma BlockKeepsFleet(deployment: nat, base: nat, K: Keeps, fleet: Fleet, own: map<Host, nat>, chain: Chain,
                        frontier: nat, payloads: seq<int>)
    requires KeptBySteps(deployment, base, K) && FleetInv(K, fleet, own, chain, frontier)
    ensures FleetInv(K, Next(deployment, fleet, Block(payloads)), own, WithBlock(chain, payloads), frontier)
  {
    forall h | h in fleet
      ensures K(Listener.Next(deployment, fleet[h], Listener.Mine(payloads)), own[h])
      ensures OnChain(Listener.Next(deployment, fleet[h], Listener.Mine(payloads)), WithBlock(chain, payloads))
    {
      MineGrowsChain(deployment, fleet[h], chain, payloads);
    }
  }

  lemma OwnStepKeepsFleet(deployment: nat, base: nat, K: Keeps, fleet: Fleet, own: map<Host, nat>, chain: Chain,
                          frontier: nat, host: Host, step: Listener.Step) returns (own': map<Host, nat>)
    requires KeptBySteps(deployment, base, K) && FleetInv(K, fleet, own, chain, frontier)
    requires host in fleet && !step.Mine? && (step.Start? ==> step.queryOk)
    ensures var handed := Listener.Handing(fleet[host], step);
            && (handed.Some? ==> base <= handed.value <= frontier)
            && FleetInv(K, Next(deployment, fleet, On(host, step)), own', chain,
                        if handed == Some(frontier) then frontier + 1 else frontier)
  {
    var handed := Listener.Handing(fleet[host], step);
    own' := own[host := if handed == Some(own[host]) then own[host] + 1 else own[host]];
    OwnStepKeepsChain(deployment, fleet[host], chain, step);
    assert K(Listener.Next(deployment, fleet[host], step), own'[host]);
  }

  lemma FleetBegins(deployment: nat, fleet: Fleet, logs: seq<Listener.Log>, head: nat, base: nat)
    returns (own: map<Host, nat>)
    requires Initial(deployment, fleet, logs, head) && Listener.Begins(deployment, logs, base)
    ensures FleetInv(HandledStretch(deployment, base), fleet, own, Chain(logs, head), base)
  {
    own := map h | h in fleet :: base;
    forall h | h in fleet
      ensures HandledStretch(deployment, base)(fleet[h], base)
    {
      InitialIsKept(deployment, fleet[h], base);
    }
  }

  lemma InitialIsKept(deployment: nat, s: Listener.State, base: nat)
    requires Listener.Initial(deployment, s) && Listener.Begins(deployment, s.logs, base)
    ensures HandledStretch(deployment, base)(s, base)
  {
    assert Listener.Inv(deployment, s);
    assert Listener.Contiguous(deployment, s, base, base);
  }

  lemma FleetStep(deployment: nat, base: nat, K: Keeps, now: Fleet, own: map<Host, nat>, chain: Chain,
                  earlier: seq<nat>, s: Step) returns (own': map<Host, nat>, chain': Chain)
    requires KeptBySteps(deployment, base, K)
    requires FleetInv(K, now, own, chain, Frontier(earlier, base)) && InOrder(earlier, base)
    requires s.On? && s.step.Start? ==> s.step.queryOk
    ensures var deliveries := earlier + DeliveredBy(now, s);
            InOrder(deliveries, base) && FleetInv(K, Next(deployment, now, s), own', chain', Frontier(deliveries, base))
  {
    own', chain' := own, chain;
    assert earlier + [] == earlier;
    match s
    case Block(ps) =>
      BlockKeepsFleet(deployment, base, K, now, own, chain, Frontier(earlier, base), ps);
      chain' := WithBlock(chain, ps);
    case On(h, step) =>
      if h in now && !step.Mine? {
        own' := OwnStepKeepsFleet(deployment, base, K, now, own, chain, Frontier(earlier, base), h, step);
        var handed := Listener.Handing(now[h], step);
        if handed.Some? {
          assert (earlier + [handed.value])[..|earlier|] == earlier;
        }
      }
  }

  /** All listeners together deliver in order: whenever one of them crashes, starts again and replays, each
      delivery is of a log delivered before or of the next one. */
  lemma {:induction false} FleetDeliversInOrder(deployment: nat, fleet: Fleet, logs: seq<Listener.Log>, head: nat,
                                                base: nat, steps: seq<Step>)
    returns (own: map<Host, nat>, chain: Chain)
    requires Initial(deployment, fleet, logs, head) && Listener.Begins(deployment, logs, base) && QueriesSucceed(steps)
    ensures InOrder(Deliveries(deployment, fleet, steps), base)
    ensures FleetInv(HandledStretch(deployment, base), Run(deployment, fleet, steps), own, chain,
                     Frontier(Deliveries(deployment, fleet, steps), base))
  {
    if steps == [] {
      own := FleetBegins(deployment, fleet, logs, head, base);
      chain := Chain(logs, head);
    } else {
      var before, s := steps[..|steps| - 1], steps[|steps| - 1];
      own, chain := FleetDeliversInOrder(deployment, fleet, logs, head, base, before);
      HandledStretchIsKept(deployment, base);
      own, chain := FleetStep(deployment, base, HandledStretch(deployment, base), Run(deployment, fleet, before), own,
                              chain, Deliveries(deployment, fleet, before), s);
    }
  }

  // ----- from the contract to the node -----

  /** A listener whose subscription has handed over every log of the chain. */
  predicate Drained(s: Listener.State) {
    s.session.Subscribed? && s.session.next == |s.logs|
  }

  /** The run of the listeners, the logs of the chain that are NameBound logs, and a listener that is done. */
  ghost predicate Observed(deployment: nat, fleet: Fleet, logs: seq<Listener.Log>, head: nat, steps: seq<Step>,
                           all: seq<Option<BoundLog>>, host: Host) {
    var now := Run(deployment, fleet, steps);
    && Initial(deployment, fleet, logs, head) && Listener.Begins(deployment, logs, 0) && QueriesSucceed(steps)
    && host in now && Drained(now[host]) && |all| == |now[host].logs|
  }

  /** With one listener done, everything was delivered, and de-duplication leaves each log once. */
  lemma ObservedDelivers(deployment: nat, fleet: Fleet, logs: seq<Listener.Log>, head: nat, steps: seq<Step>,
                         all: seq<Option<BoundLog>>, host: Host)
    requires Observed(deployment, fleet, logs, head, steps, all, host)
    ensures var deliveries := Deliveries(deployment, fleet, steps);
            && (forall i :: 0 <= i < |deliveries| ==> deliveries[i] < |all|)
            && Delivers(Picked(all, deliveries), Decoded(all))
  {
    var own, chain := FleetDeliversInOrder(deployment, fleet, logs, head, 0, steps);
    var deliveries := Deliveries(deployment, fleet, steps);
    DrainedIsAll(deployment, Run(deployment, fleet, steps), own, chain, Frontier(deliveries, 0), host);
    InOrderDelivers(LogId, all, deliveries, 0);
    assert all[0..|all|] == all;
    SameFirstsDeliver(Picked(all, deliveries), Decoded(all));
  }

  lemma DrainedIsAll(deployment: nat, fleet: Fleet, own: map<Host, nat>, chain: Chain, frontier: nat, host: Host)
    requires FleetInv(HandledStretch(deployment, 0), fleet, own, chain, frontier)
    requires host in fleet && Drained(fleet[host])
    ensures frontier == |fleet[host].logs|
  {
    assert HandledStretch(deployment, 0)(fleet[host], own[host]);
  }

  /** From the contract to the node, whatever the listeners' crashes make of the stream: a node that has
      handled all that was gossiped answers for a name with the first binding logged in the name's last
      block; so it answers with an active binding's resolver exactly when that is the one logged first. */
  lemma NodeShowsFirstOfBlock(c: Registry.Chain, N: Store.Naming, text: Texts, v: Store.View, chainID: nat,
                              mined: seq<Mined>, deployment: nat, fleet: Fleet, logs: seq<Listener.Log>, head: nat,
                              steps: seq<Step>, all: seq<Option<BoundLog>>, host: Host, h: Word, i: nat, k: nat)
    requires Observed(deployment, fleet, logs, head, steps, all, host)
    requires BlocksInOrder(mined) && Decoded(all) == LogsOf(c, chainID, mined) && WritesHex(text)
    requires Lifecycle.Inv(N, v) && Known(v, h) && LastBlock(LogsOf(c, chainID, mined), h, i, k)
    ensures var deliveries := Deliveries(deployment, fleet, steps);
            && (forall j :: 0 <= j < |deliveries| ==> deliveries[j] < |all|)
            && var stream := Events(Picked(all, deliveries));
               var found := LogsOf(c, chainID, mined);
               var b := Registry.BindingOf(Registry.Run(c, Registry.EMPTY, Txs(mined)), h);
               var answer := Answer(N, BindAll(N, text, v, Fresh(EventId, false, {}, stream)), h, chainID);
               && answer == Some(text(found[i].resolver))
               && (b.status == Registry.Active ==>
                     (answer == Some(text(b.resolver)) <==> found[i].resolver == found[k].resolver))
  {
    ObservedDelivers(deployment, fleet, logs, head, steps, all, host);
    DeliveredIsShown(c, N, text, v, chainID, mined, Picked(all, Deliveries(deployment, fleet, steps)), h, i, k);
  }

  /** What the de-duplication is for: without it the node would answer with whatever was delivered last.  The
      two agree exactly when the last delivery for the name tells the resolver of its last block's first
      log; a replay after a newer log makes them differ. */
  lemma RepeatsLeaveNoTrace(N: Store.Naming, text: Texts, v: Store.View, chainID: nat, deployment: nat, fleet: Fleet,
                            logs: seq<Listener.Log>, head: nat, steps: seq<Step>, all: seq<Option<BoundLog>>,
                            host: Host, h: Word, i: nat, k: nat)
    requires Observed(deployment, fleet, logs, head, steps, all, host) && WritesHex(text)
    requires InBlockOrder(Decoded(all), chainID) && LastBlock(Decoded(all), h, i, k)
    requires Lifecycle.Inv(N, v) && Known(v, h)
    ensures var deliveries := Deliveries(deployment, fleet, steps);
            && (forall j :: 0 <= j < |deliveries| ==> deliveries[j] < |all|)
            && var stream := Events(Picked(all, deliveries));
               var once := Answer(N, BindAll(N, text, v, Fresh(EventId, false, {}, stream)), h, chainID);
               var each := Answer(N, BindAll(N, text, v, stream), h, chainID);
               && once == Some(text(Decoded(all)[i].resolver))
               && (once == each <==> LastEvent(stream, h, chainID) == Some(Decoded(all)[i].resolver))
  {
    ObservedDelivers(deployment, fleet, logs, head, steps, all, host);
    var stream := Picked(all, Deliveries(deployment, fleet, steps));
    WithAndWithoutRepeats(N, text, v, chainID, Decoded(all), stream, h, i, k);
  }
}
