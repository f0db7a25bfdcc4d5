/** Edits of a confirmed record, by a request or by an event of the contract: what they do for the node that
    makes them, and what becomes of the record that the nodes share. */
module Edits {
  import opened Bytes
  import opened Options
  import opened Keys
  import opened Store
  import opened Lifecycle
  import opened Registration
  import Votes

  /** What an edit sets, and nothing else. */
  ghost predicate ShowsEdit(before: Binding, after: Binding, e: Edit) {
    match e
    case SetA(x) => after.a == x && after == before.(a := x)
    case SetTxt(x) => after.txt == x && after == before.(txt := x)
    case SetContentHash(x) => after.contentHash == x && after == before.(contentHash := x)
    case SetAddress(chain, x) =>
      && (forall k :: k != chain ==> (k in after.addresses <==> k in before.addresses)
                                     && (k in before.addresses ==> after.addresses[k] == before.addresses[k]))
      && (if chain in after.addresses then after.addresses[chain] else "") == x
      && after.(addresses := before.addresses) == before
  }

  /** An edit changes a record exactly when its bindings do not show it already. */
  lemma ChangesExactlyWhen(r: Record, e: Edit)
    ensures !Changes(r, e) <==> ShowsEdit(r.bindings, r.bindings, e)
  {
  }

  lemma EditedShows(r: Record, e: Edit, now: nat)
    ensures CoreOf(Edited(r, e).(updatedAt := Some(now))) == CoreOf(r)
    ensures ShowsEdit(r.bindings, Edited(r, e).bindings, e)
    ensures !Changes(r, e) ==> ShowsEdit(r.bindings, r.bindings, e)
  {
  }

  lemma SavedIsFound(N: Naming, v: View, r: Record, newcomer: Node)
    requires r.status == Confirmed && PendingOf(v.dht.pending, r.domain).None? && newcomer.records == map[]
    ensures Get(N, SaveRecord(N, v, r), r.domain).1 == Some(r)
    ensures Get(N, View(SaveRecord(N, v, r).dht, newcomer), r.domain).1 == Some(r)
  {
  }

  /** A request without a domain, or with an empty value for anything but an address, is refused and does
      nothing; every other one succeeds exactly on confirmed domains. */
  lemma EditAnsweredExactlyWhen(N: Naming, v: View, d: Bytes, e: Edit, now: nat)
    requires Inv(N, v)
    ensures var (v', answer) := AddBinding(N, v, d, e, now);
            && (answer.Some? <==>
                  && d in v.dht.records && d != ""
                  && match e
                     case SetA(x) => x != ""
                     case SetTxt(x) => x != ""
                     case SetContentHash(x) => x != ""
                     case SetAddress(_, _) => true)
            && (answer.None? ==> v'.dht.records == v.dht.records)
            && (answer.None? && d in v.dht.records ==> v' == v)
  {
    GetAnswers(N, v, d);
    FreeIsNotPending(v.dht.locks, v.dht.pending, v.dht.records.Keys, d);
    if d in v.dht.records {
      ConfirmedGet(N, v, d);
    }
  }

  /** Right after an edit the editing node answers with the bindings it had before and the edit; if that was a
      change, the record bears the time of the edit, and any node without a copy answers with it too; if it
      was none, the record is as it was. */
  lemma EditTakesEffect(N: Naming, v: View, d: Bytes, e: Edit, now: nat, newcomer: Node)
    requires Inv(N, v) && d != "" && !Incomplete(e) && newcomer.records == map[]
    ensures var (v', answer) := AddBinding(N, v, d, e, now);
            && (answer.Some? <==> d in v.dht.records)
            && (answer.Some? ==>
                  && Get(N, v, d).1.Some? && Get(N, v', d).1 == answer
                  && CoreOf(answer.value) == CoreOf(Get(N, v, d).1.value)
                  && ShowsEdit(Get(N, v, d).1.value.bindings, answer.value.bindings, e)
                  && (Changes(Get(N, v, d).1.value, e) ==>
                        answer.value.updatedAt == Some(now) && Get(N, View(v'.dht, newcomer), d).1 == answer)
                  && (!Changes(Get(N, v, d).1.value, e) ==> answer == Get(N, v, d).1 && v' == Get(N, v, d).0))
  {
    GetAnswers(N, v, d);
    FreeIsNotPending(v.dht.locks, v.dht.pending, v.dht.records.Keys, d);
    if d in v.dht.records {
      ConfirmedGet(N, v, d);
      EditedShows(Get(N, v, d).1.value, e, now);
      SavedIsFound(N, Get(N, v, d).0, Edited(Get(N, v, d).1.value, e).(updatedAt := Some(now)), newcomer);
    }
  }

  /** Get of a confirmed domain, and again. */
  lemma ConfirmedGet(N: Naming, v: View, d: Bytes)
    requires Inv(N, v) && d in v.dht.records
    ensures var (v1, r) := Get(N, v, d);
            && r.Some? && r.value.status == Confirmed && r.value.domain == d
            && v1.dht.pending == v.dht.pending && PendingOf(v.dht.pending, d).None?
            && Get(N, v1, d).1 == r
  {
    GetAnswers(N, v, d);
    FreeIsNotPending(v.dht.locks, v.dht.pending, v.dht.records.Keys, d);
    assert v.dht.records[d].status == Confirmed && v.dht.records[d].domain == d;
    GetTwice(N, v, d);
  }

  lemma GetTwice(N: Naming, v: View, d: Bytes)
    requires d in v.node.records ==> v.node.records[d].status != PendingStatus
    requires d in v.dht.records && v.dht.records[d].domain == d && v.dht.records[d].status == Confirmed
    ensures Get(N, Get(N, v, d).0, d).1 == Get(N, v, d).1
  {
  }

  /** A NameBound event for a confirmed domain sets that chain's address for the handling node. */
  lemma EventTakesEffect(N: Naming, v: View, d: Bytes, chain: nat, resolver: Bytes)
    requires Inv(N, v) && d in v.dht.records && EntryFor(v, N(d)) in {None, Some(d)}
    ensures var (v', ok) := BindAddressResolver(N, v, N(d), chain, resolver);
            && ok && Get(N, v', d).1.Some? && Get(N, v, d).1.Some?
            && var before, after := Get(N, v, d).1.value, Get(N, v', d).1.value;
               CoreOf(after) == CoreOf(before) && chain in after.bindings.addresses
               && after.bindings.addresses[chain] == resolver
               && after.bindings.(addresses := before.bindings.addresses) == before.bindings
  {
    GetAnswers(N, v, d);
    FreeIsNotPending(v.dht.locks, v.dht.pending, v.dht.records.Keys, d);
    NamehashLookupAgreesExactlyWhen(N, v, d);
  }

  // ----- the shared record -----

  /** The record a node works from: its own copy, however old, or the DHT's. */
  function WorkedFrom(v: View, d: Bytes): Record
    requires d in v.dht.records
  {
    if d in v.node.records then v.node.records[d] else v.dht.records[d]
  }

  /** The two differ at most in what the edit sets. */
  ghost predicate AgreeApart(b: Binding, b': Binding, e: Edit) {
    match e
    case SetA(_) => b.(a := b'.a) == b'
    case SetTxt(_) => b.(txt := b'.txt) == b'
    case SetContentHash(_) => b.(contentHash := b'.contentHash) == b'
    case SetAddress(chain, _) =>
      && b.(addresses := b'.addresses) == b'
      && forall k :: k != chain ==> (k in b.addresses <==> k in b'.addresses)
                                    && (k in b.addresses ==> b.addresses[k] == b'.addresses[k])
  }

  lemma OverwrittenShows(own: Record, shared: Binding, e: Edit)
    ensures ShowsEdit(shared, Edited(own, e).bindings, e) <==> AgreeApart(own.bindings, shared, e)
  {
  }

  lemma UnchangedShows(shared: Record, e: Edit)
    ensures ShowsEdit(shared.bindings, shared.bindings, e) <==> !Changes(shared, e)
  {
  }

  /** A node saves its own copy, edited, over the shared record.  So the shared record gets the edit and
      keeps everything else exactly when that copy agrees with it apart from the edit; and if the edit
      changes nothing in the copy, exactly when it would change nothing in the shared record. */
  lemma EditReachesSharedExactlyWhen(N: Naming, v: View, d: Bytes, e: Edit, now: nat)
    requires Inv(N, v) && d in v.dht.records && d != "" && !Incomplete(e)
    ensures var dht' := AddBinding(N, v, d, e, now).0.dht;
            var own, shared := WorkedFrom(v, d), v.dht.records[d];
            && d in dht'.records
            && (ShowsEdit(shared.bindings, dht'.records[d].bindings, e) <==>
                if Changes(own, e) then AgreeApart(own.bindings, shared.bindings, e) else !Changes(shared, e))
            && (d !in v.node.records ==> ShowsEdit(shared.bindings, dht'.records[d].bindings, e))
  {
    GetOfConfirmed(N, v, d);
    OverwrittenShows(WorkedFrom(v, d), v.dht.records[d].bindings, e);
    UnchangedShows(v.dht.records[d], e);
  }

  /** The same for an event of the contract, which always saves. */
  lemma EventReachesSharedExactlyWhen(N: Naming, v: View, d: Bytes, chain: nat, resolver: Bytes)
    requires Inv(N, v) && d in v.dht.records && EntryFor(v, N(d)) in {None, Some(d)}
    ensures var dht' := BindAddressResolver(N, v, N(d), chain, resolver).0.dht;
            var own, shared, e := WorkedFrom(v, d), v.dht.records[d], SetAddress(chain, resolver);
            && d in dht'.records && dht'.records[d] == WithAddress(own, chain, resolver)
            && (ShowsEdit(shared.bindings, dht'.records[d].bindings, e) <==>
                AgreeApart(own.bindings, shared.bindings, e))
            && (d !in v.node.records ==> ShowsEdit(shared.bindings, dht'.records[d].bindings, e))
  {
    GetOfConfirmed(N, v, d);
    assert N(d) in v.dht.namehashes;
    OverwrittenShows(WorkedFrom(v, d), v.dht.records[d].bindings, SetAddress(chain, resolver));
  }

  lemma GetOfConfirmed(N: Naming, v: View, d: Bytes)
    requires Inv(N, v) && d in v.dht.records
    ensures var (v1, r) := Get(N, v, d);
            && r == Some(WorkedFrom(v, d)) && r.value.status == Confirmed && r.value.domain == d
            && v1.dht.records == v.dht.records
  {
    GetAnswers(N, v, d);
    FreeIsNotPending(v.dht.locks, v.dht.pending, v.dht.records.Keys, d);
    assert v.dht.records[d].status == Confirmed && v.dht.records[d].domain == d;
  }

  // ----- an edit that is lost -----

  lemma EditOfNewcomer(N: Naming, v: View, d: Bytes, x: Bytes, now: nat)
    requires Inv(N, v) && d in v.dht.records && d !in v.node.records && d != ""
    requires x != "" && x != v.dht.records[d].bindings.txt
    ensures var dht' := AddBinding(N, v, d, SetTxt(x), now).0.dht;
            && d in dht'.records && dht'.records[d].bindings.txt == x
            && N(d) in dht'.namehashes && dht'.namehashes[N(d)] == d
  {
    EditReachesSharedExactlyWhen(N, v, d, SetTxt(x), now);
    GetOfConfirmed(N, v, d);
  }

  lemma EditStep(N: Naming, c: Votes.Curve, w: World, a: Host, b: Host, d: Bytes, x: Bytes, now: nat)
    requires WorldInv(N, w) && a in w.nodes && b in w.nodes && a != b && d in w.dht.records && ValidDomain(d)
    requires d !in w.nodes[b].records && x != "" && x != w.dht.records[d].bindings.txt
    ensures var w1 := Next(N, c, w, Step(b, EditBinding(d, SetTxt(x), now)));
            && WorldInv(N, w1) && a in w1.nodes && w1.nodes[a] == w.nodes[a]
            && d in w1.dht.records && w1.dht.records[d].bindings.txt == x
            && N(d) in w1.dht.namehashes && w1.dht.namehashes[N(d)] == d
  {
    NextKeepsWorldInv(N, c, w, Step(b, EditBinding(d, SetTxt(x), now)));
    EditOfNewcomer(N, At(w, b), d, x, now);
  }

  lemma EventOnCopy(N: Naming, v: View, d: Bytes, chain: nat, resolver: Bytes)
    requires Inv(N, v) && d in v.dht.records && d in v.node.records && EntryFor(v, N(d)) in {None, Some(d)}
    ensures var dht' := BindAddressResolver(N, v, N(d), chain, resolver).0.dht;
            d in dht'.records && dht'.records[d].bindings.txt == v.node.records[d].bindings.txt
  {
    EventReachesSharedExactlyWhen(N, v, d, chain, resolver);
  }

  lemma EventStep(N: Naming, c: Votes.Curve, w: World, a: Host, d: Bytes, chain: nat, resolver: Bytes)
    requires a in w.nodes && Inv(N, At(w, a)) && d in w.dht.records && d in w.nodes[a].records
    requires EntryFor(At(w, a), N(d)) in {None, Some(d)}
    ensures var w' := Next(N, c, w, Step(a, Bind(N(d), chain, resolver)));
            d in w'.dht.records && w'.dht.records[d].bindings.txt == w.nodes[a].records[d].bindings.txt
  {
    EventOnCopy(N, At(w, a), d, chain, resolver);
  }

  /** A node without a copy sets the text, and the DHT has it; then a node with an older copy handles an
      event, and the DHT has the old text again. */
  lemma EventRevertsEdit(N: Naming, c: Votes.Curve, w: World, a: Host, b: Host, d: Bytes, x: Bytes, now: nat,
                         chain: nat, resolver: Bytes)
    requires WorldInv(N, w) && a in w.nodes && b in w.nodes && a != b && d in w.dht.records && ValidDomain(d)
    requires d in w.nodes[a].records && d !in w.nodes[b].records && x != "" && x != w.dht.records[d].bindings.txt
    requires N(d) in w.nodes[a].namehashes ==> w.nodes[a].namehashes[N(d)] == d
    ensures var w1 := Next(N, c, w, Step(b, EditBinding(d, SetTxt(x), now)));
            var w2 := Next(N, c, w1, Step(a, Bind(N(d), chain, resolver)));
            && d in w1.dht.records && w1.dht.records[d].bindings.txt == x
            && d in w2.dht.records && w2.dht.records[d].bindings.txt == w.nodes[a].records[d].bindings.txt
  {
    EditStep(N, c, w, a, b, d, x, now);
    EventStep(N, c, Next(N, c, w, Step(b, EditBinding(d, SetTxt(x), now))), a, d, chain, resolver);
  }

  lemma NewcomerFinds(N: Naming, dht: Dht, d: Bytes, newcomer: Node)
    requires DhtInv(N, dht) && d in dht.records && newcomer.records == map[]
    ensures Get(N, View(dht, newcomer), d).1 == Some(dht.records[d])
  {
    FreeIsNotPending(dht.locks, dht.pending, dht.records.Keys, d);
  }

  lemma OnlyDomain(N: Naming, w: World, host: Host, d: Bytes)
    requires WorldInv(N, w) && host in w.nodes && w.dht.records.Keys == {d}
    ensures N(d) in w.nodes[host].namehashes ==> w.nodes[host].namehashes[N(d)] == d
  {
    assert NodeInv(N, w.dht, w.nodes[host]);
  }

  /** In every reachable state a node without records of its own answers with the shared record. */
  lemma NewcomerFindsShared(N: Naming, c: Votes.Curve, hosts: set<Host>, steps: seq<Step>, d: Bytes, newcomer: Node)
    requires forall i :: 0 <= i < |steps| ==> Proper(steps[i].call)
    requires d in Run(N, c, Genesis(hosts), steps).dht.records && newcomer.records == map[]
    ensures var dht := Run(N, c, Genesis(hosts), steps).dht; Get(N, View(dht, newcomer), d).1 == Some(dht.records[d])
  {
    ReachableInv(N, c, hosts, steps);
    NewcomerFinds(N, Run(N, c, Genesis(hosts), steps).dht, d, newcomer);
  }

  /** Such a run, from an empty network of two nodes: one registers and confirms a domain, the other sets
      its text, and the first handles a NameBound event.  The shared record then has the text that it was
      registered with. */
  lemma EditIsLost(N: Naming, c: Votes.Curve, a: Host, b: Host, r: Record, t: nat, u: nat, ballot: Votes.Ballot,
                   outcomes: Bytes -> Outcome, x: Bytes, now: nat, chain: nat, resolver: Bytes)
    returns (confirmed: seq<Step>)
    requires a != b && ValidDomain(r.domain) && ballot.decisionMaker == a && ballot.onlineNodes <= 2
    requires outcomes(r.domain).chainOk && x != "" && x != r.bindings.txt
    ensures forall i :: 0 <= i < |confirmed| ==> Proper(confirmed[i].call)
    ensures var d := r.domain;
            var w := Run(N, c, Genesis({a, b}), confirmed);
            var edited := Next(N, c, w, Step(b, EditBinding(d, SetTxt(x), now)));
            var after := Next(N, c, edited, Step(a, Bind(N(d), chain, resolver)));
            && d in edited.dht.records && edited.dht.records[d].bindings.txt == x
            && d in after.dht.records && after.dht.records[d].bindings.txt == r.bindings.txt
  {
    confirmed := ConfirmedIsReached(N, c, {a, b}, a, r, t, u, ballot, outcomes);
    var w := Run(N, c, Genesis({a, b}), confirmed);
    OnlyDomain(N, w, a, r.domain);
    EventRevertsEdit(N, c, w, a, b, r.domain, x, now, chain, resolver);
  }
}
