/** contracts/evm/contracts/src/AlticaRegistry.sol: the on-chain registry as a contract with two
    mappings, and what holds over every run of it. */
module Registry {
  import opened Bytes
  import opened Options
  import Digest

  type Uint64 = Digest.Uint64

  datatype Status = Pending | Active

  datatype Binding = Binding(resolver: Address, expiresAt: Uint64, signer: Address, status: Status)

  /** The zero value of a mapping entry, which delete restores. */
  const NO_BINDING := Binding(ZERO_ADDRESS, 0, ZERO_ADDRESS, Pending)
  const MAX_TIME_DRIFT: nat := 15 * 60

  /** ECDSA.recover gives a signer, never the zero address, or reverts. */
  type Signer = a: Address | a != ZERO_ADDRESS witness SomeSigner()

  function SomeSigner(): (a: Address)
    ensures a != ZERO_ADDRESS
  {
    var a: Bytes := "11111111111111111111";
    assert a[0] != ZERO_ADDRESS[0];
    a
  }

  /** What the contract takes from its chain: hashing, signature recovery, its place and its owner. */
  datatype Chain = Chain(
    H: Hash, recover: (Word, Bytes) -> Option<Signer>,
    chainId: Digest.Uint256, self: Address, owner: Address)

  datatype State = State(bindings: map<Word, Binding>, bindingSigner: map<Word, Address>)

  const EMPTY := State(map[], map[])

  function BindingOf(s: State, h: Word): Binding {
    if h in s.bindings then s.bindings[h] else NO_BINDING
  }

  function SignerOf(s: State, h: Word): Address {
    if h in s.bindingSigner then s.bindingSigner[h] else ZERO_ADDRESS
  }

  datatype Call =
    | SubmitBinding(h: Word, resolver: Address, expiresAt: Uint64, timestamp: Uint64, sig: Bytes)
    | UpdateResolver(h: Word, resolver: Address)
    | OracleUnbind(h: Word)
    | OracleDecideSigner(h: Word, signer: Address, accepted: bool)

  /** A transaction: its block's time, its sender and the call it makes. */
  datatype Tx = Tx(now: nat, sender: Address, call: Call)

  datatype Event =
    | SubmittedBinding(namehash: Word, signer: Address, expiresAt: Uint64)
    | DeletedBinding(namehash: Word, signer: Address)
    | NameBound(namehash: Word, resolver: Address, expiresAt: Uint64)
    | SignerBound(namehash: Word, signer: Address)

  datatype Outcome = Reverted | Done(state: State, events: seq<Event>)

  // ----- the specification of each call -----

  function RecoveredSigner(c: Chain, call: Call): Option<Signer>
    requires call.SubmitBinding?
  {
    var m := Digest.Message(call.h, call.resolver, call.expiresAt, call.timestamp, c.chainId, c.self);
    c.recover(Digest.TypedDigest(c.H, m), call.sig)
  }

  /** The time check adds in 64 bits and reverts on overflow. */
  predicate Stale(now: nat, timestamp: Uint64) {
    timestamp + MAX_TIME_DRIFT >= Digest.TWO_64 || now > timestamp + MAX_TIME_DRIFT
  }

  function ExecSubmit(c: Chain, s: State, now: nat, call: Call): Outcome
    requires call.SubmitBinding?
  {
    if Stale(now, call.timestamp) || now <= BindingOf(s, call.h).expiresAt then Reverted
    else
      match RecoveredSigner(c, call)
      case None => Reverted
      case Some(signer) =>
        Done(s.(bindings := s.bindings[call.h := Binding(call.resolver, call.expiresAt, signer, Pending)]),
             [SubmittedBinding(call.h, signer, call.expiresAt)])
  }

  function ExecUpdate(s: State, tx: Tx): Outcome
    requires tx.call.UpdateResolver?
  {
    var b := BindingOf(s, tx.call.h);
    if SignerOf(s, tx.call.h) != tx.sender || b.status != Active || b.expiresAt <= tx.now then Reverted
    else
      Done(s.(bindings := s.bindings[tx.call.h := b.(resolver := tx.call.resolver)]),
           [NameBound(tx.call.h, tx.call.resolver, b.expiresAt)])
  }

  function ExecUnbind(c: Chain, s: State, tx: Tx): Outcome
    requires tx.call.OracleUnbind?
  {
    if tx.sender != c.owner then Reverted
    else if BindingOf(s, tx.call.h).expiresAt < tx.now then
      Done(State(s.bindings - {tx.call.h}, s.bindingSigner - {tx.call.h}), [])
    else Done(s, [])
  }

  /** finalizeBinding on a state that already holds the signer. */
  function Finalize(s: State, now: nat, h: Word): Outcome {
    var b := BindingOf(s, h);
    var signer := SignerOf(s, h);
    if signer == ZERO_ADDRESS || b.status != Pending || b.expiresAt <= now || b.signer != signer then Reverted
    else Done(s.(bindings := s.bindings[h := b.(status := Active)]), [NameBound(h, b.resolver, b.expiresAt)])
  }

  function ExecDecide(c: Chain, s: State, tx: Tx): Outcome
    requires tx.call.OracleDecideSigner?
  {
    var h, signer := tx.call.h, tx.call.signer;
    if tx.sender != c.owner then Reverted
    else if !tx.call.accepted then Done(s.(bindings := s.bindings - {h}), [DeletedBinding(h, signer)])
    else if SignerOf(s, h) != ZERO_ADDRESS then Reverted
    else
      match Finalize(s.(bindingSigner := s.bindingSigner[h := signer]), tx.now, h)
      case Reverted => Reverted
      case Done(s', events) => Done(s', [SignerBound(h, signer)] + events)
  }

  function Exec(c: Chain, s: State, tx: Tx): Outcome {
    match tx.call
    case SubmitBinding(_, _, _, _, _) => ExecSubmit(c, s, tx.now, tx.call)
    case UpdateResolver(_, _) => ExecUpdate(s, tx)
    case OracleUnbind(_) => ExecUnbind(c, s, tx)
    case OracleDecideSigner(_, _, _) => ExecDecide(c, s, tx)
  }

  /** resolve, a view. */
  function Resolve(s: State, h: Word, now: nat): Address {
    var b := BindingOf(s, h);
    if SignerOf(s, h) == ZERO_ADDRESS then ZERO_ADDRESS
    else if b.status == Active || b.expiresAt > now then b.resolver
    else ZERO_ADDRESS
  }

  // ----- the contract -----

  class AlticaRegistry {
    const chain: Chain
    var bindings: map<Word, Binding>
    var bindingSigner: map<Word, Address>

    ghost function Value(): State
      reads this
    {
      State(bindings, bindingSigner)
    }

    /** What a call must leave behind: the outcome of the specification, or nothing if it reverts. */
    twostate predicate Meets(ok: bool, events: seq<Event>, outcome: Outcome)
      reads this
    {
      match outcome
      case Reverted => !ok && events == [] && Value() == old(Value())
      case Done(s, evs) => ok && events == evs && Value() == s
    }

    constructor (chain: Chain)
      ensures Value() == EMPTY && this.chain == chain
    {
      this.chain := chain;
      bindings, bindingSigner := map[], map[];
    }

    function StoredBinding(h: Word): Binding
      reads this
    {
      if h in bindings then bindings[h] else NO_BINDING
    }

    function StoredSigner(h: Word): Address
      reads this
    {
      if h in bindingSigner then bindingSigner[h] else ZERO_ADDRESS
    }

    method SubmitBinding(now: nat, h: Word, resolver: Address, expiresAt: Uint64, timestamp: Uint64, sig: Bytes)
      returns (ok: bool, events: seq<Event>)
      modifies this
      ensures Meets(ok, events,
                    ExecSubmit(chain, old(Value()), now, Call.SubmitBinding(h, resolver, expiresAt, timestamp, sig)))
    {
      ok, events := false, [];
      if timestamp + MAX_TIME_DRIFT >= Digest.TWO_64 {
        return;
      }
      if !(now <= timestamp + MAX_TIME_DRIFT) {
        return;
      }
      if !(now > StoredBinding(h).expiresAt) {
        return;
      }
      var m := Digest.Message(h, resolver, expiresAt, timestamp, chain.chainId, chain.self);
      var recovered := chain.recover(Digest.TypedDigest(chain.H, m), sig);
      if recovered.None? {
        return;
      }
      bindings := bindings[h := Binding(resolver, expiresAt, recovered.value, Pending)];
      ok, events := true, [SubmittedBinding(h, recovered.value, expiresAt)];
    }

    method UpdateResolver(now: nat, sender: Address, h: Word, resolver: Address)
      returns (ok: bool, events: seq<Event>)
      modifies this
      ensures Meets(ok, events, ExecUpdate(old(Value()), Tx(now, sender, Call.UpdateResolver(h, resolver))))
    {
      ok, events := false, [];
      if StoredSigner(h) != sender {
        return;
      }
      var b := StoredBinding(h);
      if b.status != Active || !(b.expiresAt > now) {
        return;
      }
      bindings := bindings[h := b.(resolver := resolver)];
      ok, events := true, [NameBound(h, resolver, b.expiresAt)];
    }

    method FinalizeBinding(now: nat, h: Word) returns (ok: bool, events: seq<Event>)
      modifies this
      ensures Meets(ok, events, Finalize(old(Value()), now, h))
    {
      ok, events := false, [];
      var signer := StoredSigner(h);
      if signer == ZERO_ADDRESS {
        return;
      }
      var b := StoredBinding(h);
      if b.status != Pending || !(b.expiresAt > now) || b.signer != signer {
        return;
      }
      bindings := bindings[h := b.(status := Active)];
      ok, events := true, [NameBound(h, b.resolver, b.expiresAt)];
    }

    method OracleUnbind(now: nat, sender: Address, h: Word) returns (ok: bool, events: seq<Event>)
      modifies this
      ensures Meets(ok, events, ExecUnbind(chain, old(Value()), Tx(now, sender, Call.OracleUnbind(h))))
    {
      ok, events := sender == chain.owner, [];
      if ok && StoredBinding(h).expiresAt < now {
        bindings := bindings - {h};
        bindingSigner := bindingSigner - {h};
      }
    }

    /** The signer is written before finalizeBinding makes its checks; a revert there undoes it. */
    method OracleDecideSigner(now: nat, sender: Address, h: Word, signer: Address, accepted: bool)
      returns (ok: bool, events: seq<Event>)
      modifies this
      ensures Meets(ok, events,
                    ExecDecide(chain, old(Value()), Tx(now, sender, Call.OracleDecideSigner(h, signer, accepted))))
    {
      ok, events := false, [];
      if sender != chain.owner {
        return;
      }
      if !accepted {
        bindings := bindings - {h};
        return true, [DeletedBinding(h, signer)];
      }
      if StoredSigner(h) != ZERO_ADDRESS {
        return;
      }
      var before := bindingSigner;
      bindingSigner := bindingSigner[h := signer];
      var finalized, bound := FinalizeBinding(now, h);
      if !finalized {
        bindingSigner := before;
        return;
      }
      ok, events := true, [SignerBound(h, signer)] + bound;
    }

    method ResolveName(now: nat, h: Word) returns (resolver: Address)
      ensures resolver == Resolve(Value(), h, now)
    {
      if StoredSigner(h) == ZERO_ADDRESS {
        return ZERO_ADDRESS;
      }
      var b := StoredBinding(h);
      if b.status == Active || b.expiresAt > now {
        return b.resolver;
      }
      return ZERO_ADDRESS;
    }
  }

  // ----- runs -----

  /** A reverted transaction leaves the state as it was. */
  function Next(c: Chain, s: State, tx: Tx): State {
    match Exec(c, s, tx)
    case Reverted => s
    case Done(s', _) => s'
  }

  function Run(c: Chain, s: State, txs: seq<Tx>): State {
    if txs == [] then s else Next(c, Run(c, s, txs[..|txs| - 1]), txs[|txs| - 1])
  }

  /** Block time never goes back. */
  ghost predicate Monotone(txs: seq<Tx>) {
    forall i, j :: 0 <= i < j < |txs| ==> txs[i].now <= txs[j].now
  }

  /** An active binding is one whose signer the oracle has recorded. */
  ghost predicate SignedWhenActive(s: State) {
    forall h: Word :: BindingOf(s, h).status == Active ==>
                        SignerOf(s, h) == BindingOf(s, h).signer && SignerOf(s, h) != ZERO_ADDRESS
  }

  lemma NextKeepsSignedWhenActive(c: Chain, s: State, tx: Tx)
    requires SignedWhenActive(s)
    ensures SignedWhenActive(Next(c, s, tx))
  {
    var s' := Next(c, s, tx);
    forall h: Word | BindingOf(s', h).status == Active
      ensures SignerOf(s', h) == BindingOf(s', h).signer && SignerOf(s', h) != ZERO_ADDRESS
    {
      assert h != tx.call.h ==> BindingOf(s', h) == BindingOf(s, h) && SignerOf(s', h) == SignerOf(s, h);
    }
  }

  /** In every state any senders can reach, an active binding's signer is the recorded one and not zero. */
  lemma {:induction false} RunKeepsSignedWhenActive(c: Chain, s: State, txs: seq<Tx>)
    requires SignedWhenActive(s)
    ensures SignedWhenActive(Run(c, s, txs))
  {
    if txs != [] {
      RunKeepsSignedWhenActive(c, s, txs[..|txs| - 1]);
      NextKeepsSignedWhenActive(c, Run(c, s, txs[..|txs| - 1]), txs[|txs| - 1]);
    }
  }

  predicate Rejects(c: Chain, tx: Tx, h: Word) {
    tx.sender == c.owner && tx.call.OracleDecideSigner? && tx.call.h == h && !tx.call.accepted
  }

  predicate UpdatesAs(tx: Tx, h: Word, signer: Address) {
    tx.sender == signer && tx.call.UpdateResolver? && tx.call.h == h
  }

  /** The same binding but for its resolver. */
  ghost predicate FrozenFrom(s: State, s': State, h: Word) {
    && SignerOf(s', h) == SignerOf(s, h)
    && BindingOf(s', h) == BindingOf(s, h).(resolver := BindingOf(s', h).resolver)
  }

  lemma ActiveStep(c: Chain, s: State, tx: Tx, h: Word)
    requires SignedWhenActive(s) && BindingOf(s, h).status == Active
    requires tx.now <= BindingOf(s, h).expiresAt && !Rejects(c, tx, h)
    ensures FrozenFrom(s, Next(c, s, tx), h)
    ensures !UpdatesAs(tx, h, BindingOf(s, h).signer) ==> BindingOf(Next(c, s, tx), h) == BindingOf(s, h)
  {
  }

  /** From an active binding on, nobody changes its signer, expiry or status until a block later than
      its expiry or a rejection by the owner; and its resolver only its signer changes. */
  lemma {:induction false} ActiveIsFrozen(c: Chain, s: State, txs: seq<Tx>, h: Word)
    requires SignedWhenActive(s) && BindingOf(s, h).status == Active
    requires Monotone(txs) && (txs != [] ==> txs[|txs| - 1].now <= BindingOf(s, h).expiresAt)
    requires forall i :: 0 <= i < |txs| ==> !Rejects(c, txs[i], h)
    ensures FrozenFrom(s, Run(c, s, txs), h)
    ensures (forall i :: 0 <= i < |txs| ==> !UpdatesAs(txs[i], h, BindingOf(s, h).signer)) ==>
              BindingOf(Run(c, s, txs), h) == BindingOf(s, h)
  {
    if txs != [] {
      var n := |txs| - 1;
      assert forall i :: 0 <= i < n ==> txs[..n][i] == txs[i] && txs[i].now <= txs[n].now;
      ActiveIsFrozen(c, s, txs[..n], h);
      RunKeepsSignedWhenActive(c, s, txs[..n]);
      ActiveStep(c, Run(c, s, txs[..n]), txs[n], h);
    }
  }

  /** An unbind that finds an expired entry, and so clears the slot. */
  predicate Unbinds(c: Chain, s: State, tx: Tx, h: Word) {
    tx.sender == c.owner && tx.call == OracleUnbind(h) && BindingOf(s, h).expiresAt < tx.now
  }

  /** No transaction of the run unbinds the name. */
  ghost predicate NeverUnbinds(c: Chain, s: State, txs: seq<Tx>, h: Word) {
    txs != [] ==>
      var n := |txs| - 1;
      NeverUnbinds(c, s, txs[..n], h) && !Unbinds(c, Run(c, s, txs[..n]), txs[n], h)
  }

  /** An accepted decision that goes through. */
  predicate Accepts(c: Chain, s: State, tx: Tx, h: Word, signer: Address) {
    tx.call == OracleDecideSigner(h, signer, true) && Exec(c, s, tx).Done?
  }

  lemma RecordedSignerStep(c: Chain, s: State, tx: Tx, h: Word)
    requires SignerOf(s, h) != ZERO_ADDRESS && !Unbinds(c, s, tx, h)
    ensures SignerOf(Next(c, s, tx), h) == SignerOf(s, h)
    ensures BindingOf(s, h).status != Active ==> BindingOf(Next(c, s, tx), h).status != Active
  {
  }

  /** The recorded signer changes only by an accepted decision or an unbind. */
  lemma SignerStep(c: Chain, s: State, tx: Tx, h: Word, signer: Address)
    requires signer != ZERO_ADDRESS
    ensures SignerOf(Next(c, s, tx), h) == signer <==>
            Accepts(c, s, tx, h, signer) || (SignerOf(s, h) == signer && !Unbinds(c, s, tx, h))
  {
  }

  /** A recorded signer that is not that of an active binding bars the name until an unbind clears it:
      no transaction by anyone makes the binding active again. */
  lemma {:induction false} SignerIsWriteOnce(c: Chain, s: State, txs: seq<Tx>, h: Word)
    requires SignerOf(s, h) != ZERO_ADDRESS
    requires NeverUnbinds(c, s, txs, h)
    ensures SignerOf(Run(c, s, txs), h) == SignerOf(s, h)
    ensures BindingOf(s, h).status != Active ==> BindingOf(Run(c, s, txs), h).status != Active
  {
    if txs != [] {
      var before := txs[..|txs| - 1];
      SignerIsWriteOnce(c, s, before, h);
      RecordedSignerStep(c, Run(c, s, before), txs[|txs| - 1], h);
    }
  }

  /** Rejecting and then unbinding restores a fresh slot from any state, and no other slot changes. */
  lemma RejectThenUnbindIsFresh(c: Chain, s: State, h: Word, signer: Address, t0: nat, t1: nat)
    requires 0 < t1
    ensures var s' := Run(c, s, [Tx(t0, c.owner, OracleDecideSigner(h, signer, false)),
                                 Tx(t1, c.owner, OracleUnbind(h))]);
            && BindingOf(s', h) == NO_BINDING && SignerOf(s', h) == ZERO_ADDRESS
            && forall g: Word :: g != h ==> BindingOf(s', g) == BindingOf(s, g) && SignerOf(s', g) == SignerOf(s, g)
  {
    var reject := Tx(t0, c.owner, OracleDecideSigner(h, signer, false));
    var unbind := Tx(t1, c.owner, OracleUnbind(h));
    assert [reject, unbind][..1] == [reject];
    assert [reject][..0] == [];
    assert Run(c, s, [reject]) == Next(c, Run(c, s, []), reject);
    var s1 := Next(c, s, reject);
    assert BindingOf(s1, h) == NO_BINDING;
    assert Run(c, s, [reject, unbind]) == Next(c, s1, unbind);
  }

  /** Transaction i accepted the signer and nothing after it unbound the name. */
  ghost predicate StandingDecision(c: Chain, txs: seq<Tx>, h: Word, signer: Address, i: nat) {
    && i < |txs|
    && Accepts(c, Run(c, EMPTY, txs[..i]), txs[i], h, signer)
    && forall j :: i < j < |txs| ==> !Unbinds(c, Run(c, EMPTY, txs[..j]), txs[j], h)
  }

  lemma StandingDecisionGrows(c: Chain, txs: seq<Tx>, tx: Tx, h: Word, signer: Address, i: nat)
    requires i < |txs|
    ensures StandingDecision(c, txs + [tx], h, signer, i) <==>
            StandingDecision(c, txs, h, signer, i) && !Unbinds(c, Run(c, EMPTY, txs), tx, h)
  {
    var all := txs + [tx];
    assert forall j :: 0 <= j <= |txs| ==> all[..j] == txs[..j];
    assert txs[..|txs|] == txs;
    assert all[|txs|] == tx;
  }

  /** The recorded signer is exactly the one of an accepted decision no unbind has cleared since. */
  lemma {:induction false} SignerIsStandingDecision(c: Chain, txs: seq<Tx>, h: Word, signer: Address)
    requires signer != ZERO_ADDRESS
    ensures SignerOf(Run(c, EMPTY, txs), h) == signer <==> exists i :: StandingDecision(c, txs, h, signer, i)
  {
    if txs != [] {
      var n := |txs| - 1;
      var before, tx := txs[..n], txs[n];
      assert txs == before + [tx];
      SignerIsStandingDecision(c, before, h, signer);
      SignerStep(c, Run(c, EMPTY, before), tx, h, signer);
      if i: nat :| StandingDecision(c, before, h, signer, i) {
        StandingDecisionGrows(c, before, tx, h, signer, i);
      }
      if i: nat :| StandingDecision(c, txs, h, signer, i) && i < n {
        StandingDecisionGrows(c, before, tx, h, signer, i);
      }
      assert StandingDecision(c, txs, h, signer, n) <==> Accepts(c, Run(c, EMPTY, before), tx, h, signer);
    }
  }

  /** A name resolves only while a decision about it stands. */
  lemma ResolveNeedsDecision(c: Chain, txs: seq<Tx>, h: Word, now: nat)
    requires Resolve(Run(c, EMPTY, txs), h, now) != ZERO_ADDRESS
    ensures exists i, signer :: StandingDecision(c, txs, h, signer, i)
  {
    SignerIsStandingDecision(c, txs, h, SignerOf(Run(c, EMPTY, txs), h));
  }

  // ----- what the events tell -----

  function EventsOf(c: Chain, s: State, tx: Tx): seq<Event> {
    match Exec(c, s, tx)
    case Reverted => []
    case Done(_, events) => events
  }

  /** Every event of a run, in order. */
  function Log(c: Chain, s: State, txs: seq<Tx>): seq<Event> {
    if txs == [] then []
    else
      var before := txs[..|txs| - 1];
      Log(c, s, before) + EventsOf(c, Run(c, s, before), txs[|txs| - 1])
  }

  /** The last NameBound event of a name: its resolver and expiry. */
  function LastBound(log: seq<Event>, h: Word): Option<(Address, Uint64)> {
    if log == [] then None
    else
      var last := log[|log| - 1];
      if last.NameBound? && last.namehash == h then Some((last.resolver, last.expiresAt))
      else LastBound(log[..|log| - 1], h)
  }

  lemma {:induction false} LastBoundAppend(log: seq<Event>, more: seq<Event>, h: Word)
    ensures LastBound(log + more, h) == if LastBound(more, h).Some? then LastBound(more, h) else LastBound(log, h)
  {
    if more == [] {
      assert log + more == log;
    } else {
      var n := |more| - 1;
      assert (log + more)[..|log + more| - 1] == log + more[..n];
      LastBoundAppend(log, more[..n], h);
    }
  }

  function BoundBy(e: Event, h: Word): Option<(Address, Uint64)> {
    if e.NameBound? && e.namehash == h then Some((e.resolver, e.expiresAt)) else None
  }

  lemma LastBoundOne(e: Event, h: Word)
    ensures LastBound([e], h) == BoundBy(e, h)
  {
    assert [e][..0] == [];
  }

  lemma LastBoundTwo(d: Event, e: Event, h: Word)
    ensures LastBound([d] + [e], h) == if BoundBy(e, h).Some? then BoundBy(e, h) else BoundBy(d, h)
  {
    LastBoundOne(d, h);
    LastBoundOne(e, h);
    LastBoundAppend([d], [e], h);
  }

  /** What the events of a call say of a name, and what becomes of its binding. */
  ghost predicate EventsFit(s: State, s': State, events: seq<Event>, h: Word) {
    var b := BindingOf(s', h);
    var bound := LastBound(events, h);
    && (bound.Some? ==> b.status == Active && bound.value == (b.resolver, b.expiresAt))
    && (bound.None? && b.status == Active ==> b == BindingOf(s, h))
  }

  lemma DecideEventsFit(c: Chain, s: State, tx: Tx, h: Word)
    requires tx.call.OracleDecideSigner?
    ensures EventsFit(s, Next(c, s, tx), EventsOf(c, s, tx), h)
  {
    var g, signer := tx.call.h, tx.call.signer;
    LastBoundOne(DeletedBinding(g, signer), h);
    var b := BindingOf(s, g);
    LastBoundTwo(SignerBound(g, signer), NameBound(g, b.resolver, b.expiresAt), h);
  }

  lemma BoundEventsOfCall(c: Chain, s: State, tx: Tx, h: Word)
    ensures EventsFit(s, Next(c, s, tx), EventsOf(c, s, tx), h)
  {
    match tx.call
    case SubmitBinding(g, _, expiresAt, _, _) =>
      if EventsOf(c, s, tx) != [] {
        LastBoundOne(EventsOf(c, s, tx)[0], h);
      }
    case UpdateResolver(g, resolver) => LastBoundOne(NameBound(g, resolver, BindingOf(s, g).expiresAt), h);
    case OracleUnbind(_) =>
    case OracleDecideSigner(_, _, _) => DecideEventsFit(c, s, tx, h);
  }

  /** Listeners that follow NameBound events miss nothing: in every run the last such event of a name
      with an active binding tells its resolver and expiry. */
  lemma {:induction false} EventsTellActiveBindings(c: Chain, txs: seq<Tx>, h: Word)
    ensures var b := BindingOf(Run(c, EMPTY, txs), h);
            b.status == Active ==> LastBound(Log(c, EMPTY, txs), h) == Some((b.resolver, b.expiresAt))
  {
    if txs != [] {
      var before, tx := txs[..|txs| - 1], txs[|txs| - 1];
      EventsTellActiveBindings(c, before, h);
      BoundEventsOfCall(c, Run(c, EMPTY, before), tx, h);
      LastBoundAppend(Log(c, EMPTY, before), EventsOf(c, Run(c, EMPTY, before), tx), h);
    }
  }

  /** The last event of a kind. */
  function LastOf(log: seq<Event>, kind: Event -> bool): Option<Event> {
    if log == [] then None
    else if kind(log[|log| - 1]) then Some(log[|log| - 1])
    else LastOf(log[..|log| - 1], kind)
  }

  lemma {:induction false} LastOfAppend(log: seq<Event>, more: seq<Event>, kind: Event -> bool)
    ensures LastOf(log + more, kind) ==
            if LastOf(more, kind).Some? then LastOf(more, kind) else LastOf(log, kind)
  {
    if more == [] {
      assert log + more == log;
    } else {
      var n := |more| - 1;
      assert (log + more)[..|log + more| - 1] == log + more[..n];
      LastOfAppend(log, more[..n], kind);
    }
  }

  lemma LastOfFew(log: seq<Event>, kind: Event -> bool)
    ensures log == [] ==> LastOf(log, kind) == None
    ensures |log| == 1 ==> LastOf(log, kind) == if kind(log[0]) then Some(log[0]) else None
    ensures |log| == 2 ==>
              LastOf(log, kind) ==
              if kind(log[1]) then Some(log[1]) else if kind(log[0]) then Some(log[0]) else None
  {
    if |log| == 2 {
      assert log[..1] == [log[0]];
      LastOfFew([log[0]], kind);
    }
  }

  function Submitting(h: Word): Event -> bool {
    (e: Event) => e.SubmittedBinding? && e.namehash == h
  }

  function Signing(h: Word): Event -> bool {
    (e: Event) => e.SignerBound? && e.namehash == h
  }

  /** The signer and expiry of a stored binding, and the recorded signer, as the last events tell them. */
  ghost predicate Told(s: State, submitted: Option<Event>, signed: Option<Event>, h: Word) {
    && (h in s.bindings ==>
          submitted == Some(SubmittedBinding(h, BindingOf(s, h).signer, BindingOf(s, h).expiresAt)))
    && (SignerOf(s, h) != ZERO_ADDRESS ==> signed == Some(SignerBound(h, SignerOf(s, h))))
  }

  lemma ToldByCall(c: Chain, s: State, tx: Tx, h: Word, submitted: Option<Event>, signed: Option<Event>)
    requires Told(s, submitted, signed, h)
    ensures var events := EventsOf(c, s, tx);
            var submitted', signed' := LastOf(events, Submitting(h)), LastOf(events, Signing(h));
            Told(Next(c, s, tx), if submitted'.Some? then submitted' else submitted,
                 if signed'.Some? then signed' else signed, h)
  {
    LastOfFew(EventsOf(c, s, tx), Submitting(h));
    LastOfFew(EventsOf(c, s, tx), Signing(h));
    if tx.call.OracleDecideSigner? {
      ToldByDecision(c, s, tx, h);
    }
  }

  /** A decision tells the signer it records, and leaves the others, the stored binding's and the expiry. */
  lemma ToldByDecision(c: Chain, s: State, tx: Tx, h: Word)
    requires tx.call.OracleDecideSigner?
    ensures var (s', events) := (Next(c, s, tx), EventsOf(c, s, tx));
            && |events| <= 2
            && (forall i :: 0 <= i < |events| ==> !events[i].SubmittedBinding?)
            && (h in s'.bindings ==> h in s.bindings && BindingOf(s', h).signer == BindingOf(s, h).signer
                                     && BindingOf(s', h).expiresAt == BindingOf(s, h).expiresAt)
            && (SignerOf(s', h) != SignerOf(s, h) ==>
                  SignerOf(s', h) == ZERO_ADDRESS
                  || (|events| == 2 && events[0] == SignerBound(h, SignerOf(s', h)) && !events[1].SignerBound?))
            && (SignerOf(s', h) == SignerOf(s, h) ==>
                  forall i :: 0 <= i < |events| && events[i].SignerBound? && events[i].namehash == h ==>
                    events[i] == SignerBound(h, SignerOf(s, h)))
  {
  }

  /** Whoever follows the events knows what the oracle has to decide and what it has decided: in every run
      the last SubmittedBinding of a stored binding tells its signer and expiry, and the last SignerBound of a
      name with a recorded signer tells that signer. */
  lemma {:induction false} EventsTellSigners(c: Chain, txs: seq<Tx>, h: Word)
    ensures var log := Log(c, EMPTY, txs);
            Told(Run(c, EMPTY, txs), LastOf(log, Submitting(h)), LastOf(log, Signing(h)), h)
  {
    if txs != [] {
      var before, tx := txs[..|txs| - 1], txs[|txs| - 1];
      var s, log := Run(c, EMPTY, before), Log(c, EMPTY, before);
      EventsTellSigners(c, before, h);
      ToldByCall(c, s, tx, h, LastOf(log, Submitting(h)), LastOf(log, Signing(h)));
      LastOfAppend(log, EventsOf(c, s, tx), Submitting(h));
      LastOfAppend(log, EventsOf(c, s, tx), Signing(h));
    }
  }

  function Storing(h: Word): Event -> bool {
    (e: Event) => (e.SubmittedBinding? || e.DeletedBinding?) && e.namehash == h
  }

  /** A name has a binding exactly if the last of these events is a submission. */
  ghost predicate ToldStored(s: State, last: Option<Event>, h: Word) {
    h in s.bindings <==> last.Some? && last.value.SubmittedBinding?
  }

  lemma ToldStoredByCall(c: Chain, s: State, tx: Tx, h: Word, last: Option<Event>)
    requires ToldStored(s, last, h) && !Unbinds(c, s, tx, h)
    ensures var last' := LastOf(EventsOf(c, s, tx), Storing(h));
            ToldStored(Next(c, s, tx), if last'.Some? then last' else last, h)
  {
    LastOfFew(EventsOf(c, s, tx), Storing(h));
  }

  /** And which names have one: without an unbind that clears the name, its binding is stored, in every run,
      exactly if the last SubmittedBinding or DeletedBinding of the name is a SubmittedBinding. */
  lemma {:induction false} EventsTellStored(c: Chain, txs: seq<Tx>, h: Word)
    requires NeverUnbinds(c, EMPTY, txs, h)
    ensures ToldStored(Run(c, EMPTY, txs), LastOf(Log(c, EMPTY, txs), Storing(h)), h)
  {
    if txs != [] {
      var before, tx := txs[..|txs| - 1], txs[|txs| - 1];
      var s, log := Run(c, EMPTY, before), Log(c, EMPTY, before);
      EventsTellStored(c, before, h);
      ToldStoredByCall(c, s, tx, h, LastOf(log, Storing(h)));
      LastOfAppend(log, EventsOf(c, s, tx), Storing(h));
    }
  }

  // ----- resolving -----

  /** The resolver of a binding in force: accepted, and not past its expiry. */
  function CurrentResolver(s: State, h: Word, now: nat): Address {
    var b := BindingOf(s, h);
    if b.status == Active && b.expiresAt > now then b.resolver else ZERO_ADDRESS
  }

  /** resolve joins its two tests with "or", so it answers with the resolver of a binding in force
      exactly when both tests agree, or there is nothing to answer. */
  lemma ResolveIsCurrentExactlyWhen(s: State, h: Word, now: nat)
    requires SignedWhenActive(s)
    ensures var b := BindingOf(s, h);
            Resolve(s, h, now) == CurrentResolver(s, h, now) <==>
            SignerOf(s, h) == ZERO_ADDRESS || b.resolver == ZERO_ADDRESS || (b.status == Active <==> b.expiresAt > now)
  {
  }

  /** The two do part in reachable states: an accepted binding is still resolved after its expiry. */
  lemma ExpiredBindingStillResolves(c: Chain, h: Word, resolver: Address, expiresAt: Uint64, t: nat, sig: Bytes,
                                    later: nat)
    requires t + MAX_TIME_DRIFT < Digest.TWO_64 && 0 < t < expiresAt <= later && resolver != ZERO_ADDRESS
    requires RecoveredSigner(c, SubmitBinding(h, resolver, expiresAt, t, sig)).Some?
    ensures var signer := RecoveredSigner(c, SubmitBinding(h, resolver, expiresAt, t, sig)).value;
            var s := Run(c, EMPTY, [Tx(t, signer, SubmitBinding(h, resolver, expiresAt, t, sig)),
                                    Tx(t, c.owner, OracleDecideSigner(h, signer, true))]);
            Resolve(s, h, later) == resolver && CurrentResolver(s, h, later) == ZERO_ADDRESS
  {
    var signer := RecoveredSigner(c, SubmitBinding(h, resolver, expiresAt, t, sig)).value;
    var submit := Tx(t, signer, SubmitBinding(h, resolver, expiresAt, t, sig));
    var accept := Tx(t, c.owner, OracleDecideSigner(h, signer, true));
    assert [submit, accept][..1] == [submit] && [submit][..0] == [];
    assert Run(c, EMPTY, [submit]) == Next(c, EMPTY, submit);
  }

  // ----- whose resolver it is -----

  /** A message for this contract on this chain. */
  function MessageOf(c: Chain, h: Word, resolver: Address, expiresAt: Uint64, timestamp: Uint64): Digest.Message {
    Digest.Message(h, resolver, expiresAt, timestamp, c.chainId, c.self)
  }

  /** The bytes are the signer's signature over the typed-data digest of the message. */
  predicate SignedBy(c: Chain, m: Digest.Message, sig: Bytes, signer: Address) {
    c.recover(Digest.TypedDigest(c.H, m), sig) == Some(signer)
  }

  /** The transaction asks for that resolver in the name of that signer: signed off chain, or sent. */
  predicate AsksFor(c: Chain, tx: Tx, h: Word, resolver: Address, signer: Address) {
    match tx.call
    case SubmitBinding(g, r, expiresAt, timestamp, sig) =>
      g == h && r == resolver && SignedBy(c, MessageOf(c, h, resolver, expiresAt, timestamp), sig, signer)
    case UpdateResolver(g, r) => g == h && r == resolver && tx.sender == signer
    case _ => false
  }

  ghost predicate AskedFor(c: Chain, txs: seq<Tx>, h: Word, resolver: Address, signer: Address) {
    exists i :: 0 <= i < |txs| && AsksFor(c, txs[i], h, resolver, signer)
  }

  lemma DecisionKeepsResolver(c: Chain, s: State, tx: Tx, h: Word)
    requires tx.call.OracleDecideSigner? || tx.call.OracleUnbind?
    ensures h in Next(c, s, tx).bindings ==>
              h in s.bindings
                  && BindingOf(Next(c, s, tx), h) == BindingOf(s, h).(status := BindingOf(Next(c, s, tx), h).status)
  {
  }

  lemma ResolverStep(c: Chain, s: State, tx: Tx, h: Word)
    requires SignedWhenActive(s) && h in Next(c, s, tx).bindings
    ensures var b := BindingOf(Next(c, s, tx), h);
            AsksFor(c, tx, h, b.resolver, b.signer)
            || (h in s.bindings && b.resolver == BindingOf(s, h).resolver && b.signer == BindingOf(s, h).signer)
  {
    if tx.call.OracleDecideSigner? || tx.call.OracleUnbind? {
      DecisionKeepsResolver(c, s, tx, h);
    }
  }

  /** In every run the stored resolver of a name is one that the binding's signer asked for. */
  lemma {:induction false} StoredResolverWasAskedFor(c: Chain, txs: seq<Tx>, h: Word)
    requires h in Run(c, EMPTY, txs).bindings
    ensures var b := BindingOf(Run(c, EMPTY, txs), h); AskedFor(c, txs, h, b.resolver, b.signer)
  {
    var n := |txs| - 1;
    var before := txs[..n];
    RunKeepsSignedWhenActive(c, EMPTY, before);
    ResolverStep(c, Run(c, EMPTY, before), txs[n], h);
    var b := BindingOf(Run(c, EMPTY, txs), h);
    if AsksFor(c, txs[n], h, b.resolver, b.signer) {
      assert AskedFor(c, txs, h, b.resolver, b.signer);
    } else {
      StoredResolverWasAskedFor(c, before, h);
      var i :| 0 <= i < n && AsksFor(c, before[i], h, b.resolver, b.signer);
      assert AsksFor(c, txs[i], h, b.resolver, b.signer);
    }
  }

  /** resolve answers with a resolver that a signer other than the recorded one asked for exactly when an
      unexpired pending binding of that other signer stands in the slot of a recorded name. */
  lemma ForeignAnswerExactlyWhen(c: Chain, txs: seq<Tx>, h: Word, now: nat)
    ensures var s := Run(c, EMPTY, txs);
            var b := BindingOf(s, h);
            && (Resolve(s, h, now) != ZERO_ADDRESS ==> AskedFor(c, txs, h, Resolve(s, h, now), b.signer))
            && (Resolve(s, h, now) != ZERO_ADDRESS && b.signer != SignerOf(s, h) <==>
                && b.status == Pending && b.expiresAt > now && b.signer != SignerOf(s, h)
                && SignerOf(s, h) != ZERO_ADDRESS && b.resolver != ZERO_ADDRESS)
  {
    RunKeepsSignedWhenActive(c, EMPTY, txs);
    if Resolve(Run(c, EMPTY, txs), h, now) != ZERO_ADDRESS {
      StoredResolverWasAskedFor(c, txs, h);
    }
  }

  // ----- what the signer signed -----

  /** The contract recovers the signer from the digest that the client signs: for arguments it can represent,
      the one that the program computes from the same arguments. */
  lemma ContractRecoversWhatIsSigned(c: Chain, h: Word, resolver: Address, expiresAt: Uint64, timestamp: Uint64,
                                     sig: Bytes)
    requires expiresAt < Digest.TWO_63 && timestamp < Digest.TWO_63 && c.chainId < Digest.TWO_63
    ensures RecoveredSigner(c, SubmitBinding(h, resolver, expiresAt, timestamp, sig)) ==
            c.recover(Digest.PayloadDigest(c.H, Digest.GoPayload(c.H, h, resolver, expiresAt, timestamp, c.chainId, c.self)),
                      sig)
  {
    Digest.RepresentablePayloads(c.H, h, resolver, expiresAt, timestamp, c.chainId, c.self);
    assert Digest.Copy32(h) == h;
  }

  /** All that the address ever signed are the digests of those messages: no other digest has a signature
      that is recovered as the address. */
  ghost predicate SignsOnly(c: Chain, signer: Address, messages: set<Digest.Message>) {
    forall digest: Word, sig: Bytes :: c.recover(digest, sig) == Some(signer) ==>
      exists m :: m in messages && Digest.TypedDigest(c.H, m) == digest
  }

  /** Transaction i submitted the binding of the name, of that expiry, for that resolver, from a message that
      the signer signed at most a quarter of an hour before. */
  ghost predicate SubmittedFrom(c: Chain, tx: Tx, h: Word, resolver: Address, b: Binding, m: Digest.Message) {
    && tx.call.SubmitBinding? && tx.call.h == h && tx.now <= m.timestamp + 900
    && m == MessageOf(c, h, resolver, b.expiresAt, tx.call.timestamp)
    && SignedBy(c, m, tx.call.sig, b.signer)
  }

  /** The stored resolver is the submitted one, or one that the signer has sent since. */
  ghost predicate KeptOrSent(txs: seq<Tx>, h: Word, resolver: Address, b: Binding, i: nat) {
    b.resolver == resolver
    || exists j :: i < j < |txs| && txs[j].call == UpdateResolver(h, b.resolver) && txs[j].sender == b.signer
                   && txs[j].now < b.expiresAt
  }

  ghost predicate StoredFrom(c: Chain, txs: seq<Tx>, h: Word, b: Binding, i: nat, resolver: Address, m: Digest.Message) {
    i < |txs| && SubmittedFrom(c, txs[i], h, resolver, b, m) && KeptOrSent(txs, h, resolver, b, i)
  }

  lemma StoredFromLater(c: Chain, before: seq<Tx>, tx: Tx, h: Word, b: Binding, b': Binding, i: nat, resolver: Address,
                        m: Digest.Message)
    requires StoredFrom(c, before, h, b, i, resolver, m)
    requires b'.signer == b.signer && b'.expiresAt == b.expiresAt
    requires b'.resolver == b.resolver
             || (tx.call == UpdateResolver(h, b'.resolver) && tx.sender == b.signer && tx.now < b.expiresAt)
    ensures StoredFrom(c, before + [tx], h, b', i, resolver, m)
  {
    var txs := before + [tx];
    assert forall j :: 0 <= j < |before| ==> txs[j] == before[j];
    assert txs[|before|] == tx;
    if b'.resolver == b.resolver && b.resolver != resolver {
      var j :| i < j < |before| && before[j].call == UpdateResolver(h, b.resolver) && before[j].sender == b.signer
               && before[j].now < b.expiresAt;
      assert txs[j] == before[j];
    }
  }

  /** What a transaction does to a stored binding: a submission replaces it, its signer changes its resolver
      before its expiry, or signer, expiry and resolver stay. */
  lemma StoredStep(c: Chain, s: State, tx: Tx, h: Word)
    requires SignedWhenActive(s) && h in Next(c, s, tx).bindings
    ensures var b, b' := BindingOf(s, h), BindingOf(Next(c, s, tx), h);
            || (exists m :: SubmittedFrom(c, tx, h, b'.resolver, b', m))
            || (h in s.bindings && b'.signer == b.signer && b'.expiresAt == b.expiresAt
                && (b'.resolver == b.resolver
                    || (tx.call == UpdateResolver(h, b'.resolver) && tx.sender == b.signer && tx.now < b.expiresAt)))
  {
    var b' := BindingOf(Next(c, s, tx), h);
    match tx.call
    case SubmitBinding(g, r, expiresAt, timestamp, sig) =>
      if Exec(c, s, tx).Done? && g == h {
        assert SubmittedFrom(c, tx, h, b'.resolver, b', MessageOf(c, h, r, expiresAt, timestamp));
      }
    case UpdateResolver(g, r) =>
    case OracleUnbind(g) => DecisionKeepsResolver(c, s, tx, h);
    case OracleDecideSigner(g, signer, accepted) => DecisionKeepsResolver(c, s, tx, h);
  }

  /** In every run, by whatever senders, a stored binding goes back to a submission of its name, signer and
      expiry, over a message that the signer had signed no longer than fifteen minutes before; and its resolver
      is that message's, or one that the signer sent later, before the expiry. */
  lemma {:induction false} StoredWasSigned(c: Chain, txs: seq<Tx>, h: Word)
    returns (i: nat, resolver: Address, m: Digest.Message)
    requires h in Run(c, EMPTY, txs).bindings
    ensures StoredFrom(c, txs, h, BindingOf(Run(c, EMPTY, txs), h), i, resolver, m)
  {
    var n := |txs| - 1;
    var before, tx := txs[..n], txs[n];
    assert txs == before + [tx];
    RunKeepsSignedWhenActive(c, EMPTY, before);
    var s := Run(c, EMPTY, before);
    StoredStep(c, s, tx, h);
    var b := BindingOf(Run(c, EMPTY, txs), h);
    if m' :| SubmittedFrom(c, tx, h, b.resolver, b, m') {
      i, resolver, m := n, b.resolver, m';
    } else {
      i, resolver, m := StoredWasSigned(c, before, h);
      StoredFromLater(c, before, tx, h, BindingOf(s, h), b, i, resolver, m);
    }
  }

  /** So nobody can put anything on chain in the name of an address but what it signed: if those messages are
      all it signed, every binding stored with that signer has the name, the expiry and the submitted resolver
      of one of them, for this chain and contract; or that message and the stored one break Keccak. */
  lemma StoredIsSignedMessage(c: Chain, txs: seq<Tx>, h: Word, messages: set<Digest.Message>)
    returns (i: nat, resolver: Address, m: Digest.Message, signed: Digest.Message)
    requires h in Run(c, EMPTY, txs).bindings
    requires SignsOnly(c, BindingOf(Run(c, EMPTY, txs), h).signer, messages)
    ensures var b := BindingOf(Run(c, EMPTY, txs), h);
            && StoredFrom(c, txs, h, b, i, resolver, m) && signed in messages
            && ((signed.namehash == h && signed.expiresAt == b.expiresAt && signed.resolver == resolver
                 && signed.chainId == c.chainId && signed.verifyingContract == c.self
                 && txs[i].now <= signed.timestamp + 900)
                || Refutes(c.H, Digest.Distinguish(c.H, Digest.TypedPayload(c.H, signed), Digest.TypedPayload(c.H, m))))
  {
    i, resolver, m := StoredWasSigned(c, txs, h);
    signed :| signed in messages && Digest.TypedDigest(c.H, signed) == Digest.TypedDigest(c.H, m);
    if signed != m {
      Digest.DigestInjectiveUnlessBroken(c.H, signed, m);
    }
  }

  // ----- bindings that are not active -----

  /** Pending or active, a binding keeps signer, expiry and, but for its signer's updates once active, its
      resolver, and an active one stays active; as long as the blocks are not past its expiry and the owner
      does not reject it: nobody can submit another in its place. */
  ghost predicate KeptBy(s: State, s': State, h: Word) {
    var b, b' := BindingOf(s, h), BindingOf(s', h);
    && h in s'.bindings && b'.signer == b.signer && b'.expiresAt == b.expiresAt
    && (b.status == Active ==> b'.status == Active)
    && (b'.status == Pending ==> b' == b)
  }

  lemma StandingStep(c: Chain, s: State, tx: Tx, h: Word)
    requires SignedWhenActive(s) && h in s.bindings && tx.now <= BindingOf(s, h).expiresAt && !Rejects(c, tx, h)
    ensures KeptBy(s, Next(c, s, tx), h)
    ensures !UpdatesAs(tx, h, BindingOf(s, h).signer) ==>
              BindingOf(Next(c, s, tx), h).resolver == BindingOf(s, h).resolver
  {
  }

  lemma {:induction false} StandsUntilExpiry(c: Chain, s: State, txs: seq<Tx>, h: Word)
    requires SignedWhenActive(s) && h in s.bindings
    requires forall i :: 0 <= i < |txs| ==> txs[i].now <= BindingOf(s, h).expiresAt && !Rejects(c, txs[i], h)
    ensures KeptBy(s, Run(c, s, txs), h)
    ensures (forall i :: 0 <= i < |txs| ==> !UpdatesAs(txs[i], h, BindingOf(s, h).signer)) ==>
              BindingOf(Run(c, s, txs), h).resolver == BindingOf(s, h).resolver
  {
    if txs != [] {
      var n := |txs| - 1;
      StandsUntilExpiry(c, s, txs[..n], h);
      RunKeepsSignedWhenActive(c, s, txs[..n]);
      StandingStep(c, Run(c, s, txs[..n]), txs[n], h);
    }
  }

  /** Something is said about the name that a binding past its expiry gives way to: another submission, an
      unbind, or a rejection by the owner. */
  predicate Replaces(c: Chain, tx: Tx, h: Word) {
    tx.call.h == h && (tx.call.SubmitBinding? || (tx.call.OracleUnbind? && tx.sender == c.owner) || Rejects(c, tx, h))
  }

  /** From its expiry on a binding is final: its signer cannot change its resolver, and the owner cannot make
      it active, in any run without a submission, an unbind or a rejection. */
  lemma {:induction false} ExpiredIsFinal(c: Chain, s: State, txs: seq<Tx>, h: Word)
    requires forall i :: 0 <= i < |txs| ==> BindingOf(s, h).expiresAt <= txs[i].now && !Replaces(c, txs[i], h)
    ensures BindingOf(Run(c, s, txs), h) == BindingOf(s, h)
  {
    if txs != [] {
      ExpiredIsFinal(c, s, txs[..|txs| - 1], h);
    }
  }

  /** A submission goes through exactly when its message is at most fifteen minutes old, the slot's binding,
      pending or active, has expired before this block, and the signature is anyone's; its time must leave
      room for the fifteen minutes in 64 bits. */
  lemma SubmitsExactlyWhen(c: Chain, s: State, now: nat, sender: Address, call: Call)
    requires call.SubmitBinding?
    ensures Exec(c, s, Tx(now, sender, call)).Done? <==>
            && now <= call.timestamp + 900 < 0x1_0000_0000_0000_0000
            && BindingOf(s, call.h).expiresAt < now
            && exists signer: Signer ::
                 SignedBy(c, MessageOf(c, call.h, call.resolver, call.expiresAt, call.timestamp), call.sig, signer)
  {
    var m := MessageOf(c, call.h, call.resolver, call.expiresAt, call.timestamp);
    var recovered := c.recover(Digest.TypedDigest(c.H, m), call.sig);
    if recovered.Some? {
      assert SignedBy(c, m, call.sig, recovered.value);
    }
  }
}
