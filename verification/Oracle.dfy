/** The contract together with the listener's rule for deciding submitted bindings
    (contracts/evm/listener.go, handleSubmittedBinding). */
module Oracle {
  import opened Bytes
  import opened Options
  import opened Registry

  /** The signer of the off-chain record of each name, fixed once the name is registered. */
  type Records = Word -> Option<Address>

  /** One step of the composed system: a transaction by anyone, or the listener handling a
      SubmittedBinding log, old or new; it may fail to find the record. */
  datatype Step = Sent(tx: Tx) | Handled(now: nat, h: Word, eventSigner: Address, found: bool)

  /** The owner's key decides signers only through the listener. */
  ghost predicate Allowed(c: Chain, step: Step) {
    step.Sent? && step.tx.sender == c.owner ==> !step.tx.call.OracleDecideSigner?
  }

  /** The transaction the listener sends for a log, if any: none without a record, none when the
      chain already has the record's signer. */
  function Decision(c: Chain, records: Records, s: State, step: Step): Option<Tx>
    requires step.Handled?
  {
    match (if step.found then records(step.h) else None)
    case None => None
    case Some(recordSigner) =>
      if SignerOf(s, step.h) == recordSigner then None
      else Some(Tx(step.now, c.owner, OracleDecideSigner(step.h, recordSigner, recordSigner == step.eventSigner)))
  }

  function NextStep(c: Chain, records: Records, s: State, step: Step): State {
    match step
    case Sent(tx) => Next(c, s, tx)
    case Handled(_, _, _, _) =>
      match Decision(c, records, s, step)
      case None => s
      case Some(tx) => Next(c, s, tx)
  }

  /** handleSubmittedBinding: up to four lookups, then at most one transaction. */
  method HandleSubmittedBinding(contract: AlticaRegistry, now: nat, h: Word, eventSigner: Address,
                                lookups: seq<Option<Address>>, records: Records)
    requires |lookups| == 4
    requires forall i :: 0 <= i < 4 && lookups[i].Some? ==> lookups[i] == records(h)
    modifies contract
    ensures var found := exists i :: 0 <= i < 4 && lookups[i].Some?;
            contract.Value() ==
            NextStep(contract.chain, records, old(contract.Value()), Handled(now, h, eventSigner, found))
  {
    var record: Option<Address> := None;
    var attempt := 1;
    while record.None? && attempt <= 4
      invariant 1 <= attempt <= 5
      invariant record.Some? ==> record == records(h) && exists i :: 0 <= i < 4 && lookups[i].Some?
      invariant record.None? ==> forall i :: 0 <= i < attempt - 1 ==> lookups[i].None?
    {
      record := lookups[attempt - 1];
      attempt := attempt + 1;
    }
    if record.None? {
      return;
    }
    var accepted := record.value == eventSigner;
    var onChainSigner := contract.StoredSigner(h);
    if onChainSigner != record.value {
      var _, _ := contract.OracleDecideSigner(now, contract.chain.owner, h, record.value, accepted);
    }
  }

  function RunSteps(c: Chain, records: Records, s: State, steps: seq<Step>): State {
    if steps == [] then s
    else NextStep(c, records, RunSteps(c, records, s, steps[..|steps| - 1]), steps[|steps| - 1])
  }

  function TimeOf(step: Step): nat {
    match step
    case Sent(tx) => tx.now
    case Handled(now, _, _, _) => now
  }

  /** The chain only ever records the signer of the off-chain record, and active means recorded. */
  ghost predicate Faithful(records: Records, s: State) {
    && SignedWhenActive(s)
    && forall h: Word :: SignerOf(s, h) != ZERO_ADDRESS ==> records(h) == Some(SignerOf(s, h))
  }

  lemma StepKeepsFaithful(c: Chain, records: Records, s: State, step: Step)
    requires Faithful(records, s) && Allowed(c, step)
    ensures Faithful(records, NextStep(c, records, s, step))
  {
    var s' := NextStep(c, records, s, step);
    var tx := if step.Sent? then Some(step.tx) else Decision(c, records, s, step);
    if tx.Some? {
      NextKeepsSignedWhenActive(c, s, tx.value);
      forall h: Word | SignerOf(s', h) != ZERO_ADDRESS
        ensures records(h) == Some(SignerOf(s', h))
      {
        SignerStep(c, s, tx.value, h, SignerOf(s', h));
      }
    }
  }

  /** In every state the composed system reaches, an active binding, the recorded signer and the
      off-chain record name one signer. */
  lemma {:induction false} RunKeepsFaithful(c: Chain, records: Records, s: State, steps: seq<Step>)
    requires Faithful(records, s)
    requires forall i :: 0 <= i < |steps| ==> Allowed(c, steps[i])
    ensures Faithful(records, RunSteps(c, records, s, steps))
  {
    if steps != [] {
      var before := steps[..|steps| - 1];
      RunKeepsFaithful(c, records, s, before);
      StepKeepsFaithful(c, records, RunSteps(c, records, s, before), steps[|steps| - 1]);
    }
  }

  predicate UpdatesResolver(step: Step, h: Word, signer: Address) {
    step.Sent? && UpdatesAs(step.tx, h, signer)
  }

  lemma ActiveSurvivesStep(c: Chain, records: Records, s: State, step: Step, h: Word)
    requires Faithful(records, s) && Allowed(c, step) && BindingOf(s, h).status == Active
    requires TimeOf(step) <= BindingOf(s, h).expiresAt
    ensures FrozenFrom(s, NextStep(c, records, s, step), h)
    ensures !UpdatesResolver(step, h, BindingOf(s, h).signer) ==>
              BindingOf(NextStep(c, records, s, step), h) == BindingOf(s, h)
  {
    var tx := if step.Sent? then Some(step.tx) else Decision(c, records, s, step);
    if tx.Some? {
      ActiveStep(c, s, tx.value, h);
    }
  }

  /** Composed safety: until a block later than its expiry an active binding is never deleted or
      replaced, whatever anyone sends and whichever logs the listener handles, again or out of order;
      only its resolver may change, and only by its signer. */
  lemma {:induction false} ActiveIsSafe(c: Chain, records: Records, s: State, steps: seq<Step>, h: Word)
    requires Faithful(records, s) && BindingOf(s, h).status == Active
    requires forall i :: 0 <= i < |steps| ==> Allowed(c, steps[i]) && TimeOf(steps[i]) <= BindingOf(s, h).expiresAt
    ensures FrozenFrom(s, RunSteps(c, records, s, steps), h)
    ensures records(h) == Some(BindingOf(s, h).signer)
    ensures (forall i :: 0 <= i < |steps| ==> !UpdatesResolver(steps[i], h, BindingOf(s, h).signer)) ==>
              BindingOf(RunSteps(c, records, s, steps), h) == BindingOf(s, h)
  {
    if steps != [] {
      var before := steps[..|steps| - 1];
      ActiveIsSafe(c, records, s, before, h);
      RunKeepsFaithful(c, records, s, before);
      ActiveSurvivesStep(c, records, RunSteps(c, records, s, before), steps[|steps| - 1], h);
    }
  }

  /** The same from the contract's creation: after any past, an active binding carries the recorded
      signer, which is the off-chain record's, and it is safe in any future until it expires. */
  lemma ComposedSafety(c: Chain, records: Records, past: seq<Step>, future: seq<Step>, h: Word)
    requires forall i :: 0 <= i < |past| ==> Allowed(c, past[i])
    requires var b := BindingOf(RunSteps(c, records, EMPTY, past), h);
             && b.status == Active
             && forall i :: 0 <= i < |future| ==> Allowed(c, future[i]) && TimeOf(future[i]) <= b.expiresAt
    ensures var s := RunSteps(c, records, EMPTY, past);
            && records(h) == Some(BindingOf(s, h).signer) && SignerOf(s, h) == BindingOf(s, h).signer
            && FrozenFrom(s, RunSteps(c, records, s, future), h)
  {
    RunKeepsFaithful(c, records, EMPTY, past);
    ActiveIsSafe(c, records, RunSteps(c, records, EMPTY, past), future, h);
  }

  /** Handling a log makes a binding active exactly when the slot has no recorded signer, the record is
      found, its signer is the log's and the pending binding's, and the binding has not expired. */
  lemma HandlingActivatesExactlyWhen(c: Chain, records: Records, s: State, step: Step)
    requires Faithful(records, s) && step.Handled? && BindingOf(s, step.h).status != Active
    ensures var b := BindingOf(s, step.h);
            BindingOf(NextStep(c, records, s, step), step.h).status == Active <==>
            && step.found && records(step.h) == Some(step.eventSigner)
            && step.eventSigner != ZERO_ADDRESS && b.signer == step.eventSigner
            && b.expiresAt > step.now && SignerOf(s, step.h) == ZERO_ADDRESS
  {
  }

  /** A log whose signer is not the record's clears the slot of whatever binding is pending there, as long
      as no signer is recorded; once one is, the listener finds it correct and does nothing. */
  lemma MismatchClearsSlot(c: Chain, records: Records, s: State, step: Step)
    requires Faithful(records, s) && step.Handled? && step.found
    requires records(step.h).Some? && records(step.h).value !in {ZERO_ADDRESS, step.eventSigner}
    ensures var s' := NextStep(c, records, s, step);
            if SignerOf(s, step.h) == ZERO_ADDRESS then
              && BindingOf(s', step.h) == NO_BINDING && SignerOf(s', step.h) == ZERO_ADDRESS
              && forall g: Word :: g != step.h ==>
                   BindingOf(s', g) == BindingOf(s, g) && SignerOf(s', g) == SignerOf(s, g)
            else s' == s
  {
  }

  /** The owner of a name binds it and the listener accepts; after the expiry a stranger submits a binding
      of its own. */
  function Takeover(first: Call, second: Call, signer: Address, stranger: Address, t: nat, later: nat): seq<Step>
    requires first.SubmitBinding?
  {
    [Sent(Tx(t, signer, first))] + [Handled(t, first.h, signer, true)] + [Sent(Tx(later, stranger, second))]
  }

  lemma RunSnoc(c: Chain, records: Records, s: State, steps: seq<Step>, step: Step)
    ensures RunSteps(c, records, s, steps + [step]) == NextStep(c, records, RunSteps(c, records, s, steps), step)
  {
    assert (steps + [step])[..|steps|] == steps;
  }

  lemma TakeoverStates(c: Chain, records: Records, first: Call, second: Call, signer: Signer, stranger: Signer,
                       t: nat, later: nat)
    requires first.SubmitBinding? && second.SubmitBinding? && second.h == first.h
    requires RecoveredSigner(c, first) == Some(signer) && RecoveredSigner(c, second) == Some(stranger)
    requires records(first.h) == Some(signer)
    requires !Stale(t, first.timestamp) && 0 < t < first.expiresAt < later && !Stale(later, second.timestamp)
    ensures var s := RunSteps(c, records, EMPTY, Takeover(first, second, signer, stranger, t, later));
            && BindingOf(s, first.h) == Binding(second.resolver, second.expiresAt, stranger, Pending)
            && SignerOf(s, first.h) == signer
  {
    var bind, accept := Sent(Tx(t, signer, first)), Handled(t, first.h, signer, true);
    var s1 := NextStep(c, records, EMPTY, bind);
    assert RunSteps(c, records, EMPTY, []) == EMPTY && [] + [bind] == [bind];
    RunSnoc(c, records, EMPTY, [], bind);
    assert BindingOf(s1, first.h) == Binding(first.resolver, first.expiresAt, signer, Pending);
    RunSnoc(c, records, EMPTY, [bind], accept);
    var s2 := NextStep(c, records, s1, accept);
    assert BindingOf(s2, first.h) == Binding(first.resolver, first.expiresAt, signer, Active);
    RunSnoc(c, records, EMPTY, [bind] + [accept], Sent(Tx(later, stranger, second)));
  }

  /** The stranger's binding is never accepted, and never cleared by the listener either: while it lasts,
      the contract resolves the name to the stranger's resolver, however often the logs are handled. */
  lemma StrangerIsResolved(c: Chain, records: Records, first: Call, second: Call, signer: Signer, stranger: Signer,
                           t: nat, later: nat, now: nat, found: bool)
    requires first.SubmitBinding? && second.SubmitBinding? && second.h == first.h && stranger != signer
    requires RecoveredSigner(c, first) == Some(signer) && RecoveredSigner(c, second) == Some(stranger)
    requires records(first.h) == Some(signer) && signer != c.owner && stranger != c.owner
    requires !Stale(t, first.timestamp) && 0 < t < first.expiresAt < later && !Stale(later, second.timestamp)
    requires later <= now < second.expiresAt
    ensures var steps := Takeover(first, second, signer, stranger, t, later);
            var s := RunSteps(c, records, EMPTY, steps);
            && (forall i :: 0 <= i < |steps| ==> Allowed(c, steps[i]))
            && NextStep(c, records, s, Handled(now, first.h, stranger, found)) == s
            && Resolve(s, first.h, now) == second.resolver && SignerOf(s, first.h) == signer
            && CurrentResolver(s, first.h, now) == ZERO_ADDRESS
  {
    TakeoverStates(c, records, first, second, signer, stranger, t, later);
  }

  lemma NoActivationStep(c: Chain, records: Records, s: State, step: Step, h: Word)
    requires SignerOf(s, h) != ZERO_ADDRESS && BindingOf(s, h).status != Active
    requires step.Sent? ==> !Unbinds(c, s, step.tx, h)
    ensures SignerOf(NextStep(c, records, s, step), h) == SignerOf(s, h)
    ensures BindingOf(NextStep(c, records, s, step), h).status != Active
  {
    var tx := if step.Sent? then Some(step.tx) else Decision(c, records, s, step);
    if tx.Some? {
      RecordedSignerStep(c, s, tx.value, h);
    }
  }

  ghost predicate NeverUnbound(c: Chain, records: Records, s: State, steps: seq<Step>, h: Word) {
    steps != [] ==>
      var n := |steps| - 1;
      && NeverUnbound(c, records, s, steps[..n], h)
      && (steps[n].Sent? ==> !Unbinds(c, RunSteps(c, records, s, steps[..n]), steps[n].tx, h))
  }

  /** A renewal waits for an unbind: once a recorded name has lost its active binding, no log the
      listener handles brings one back while the recorded signer stays. */
  lemma {:induction false} RenewalNeedsUnbind(c: Chain, records: Records, s: State, steps: seq<Step>, h: Word)
    requires SignerOf(s, h) != ZERO_ADDRESS && BindingOf(s, h).status != Active
    requires NeverUnbound(c, records, s, steps, h)
    ensures SignerOf(RunSteps(c, records, s, steps), h) == SignerOf(s, h)
    ensures BindingOf(RunSteps(c, records, s, steps), h).status != Active
  {
    if steps != [] {
      var before := steps[..|steps| - 1];
      RenewalNeedsUnbind(c, records, s, before, h);
      NoActivationStep(c, records, RunSteps(c, records, s, before), steps[|steps| - 1], h);
    }
  }
}
