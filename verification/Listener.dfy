/** contracts/evm/listener.go: delivery of the registry's logs across crashes and restarts. */
module Listener {
  import opened Options

  /** A registry log of one of the two topics, with the block it is in. */
  datatype Log = Log(block: nat, payload: int)

  /** What the process is doing: nothing, replaying history up to the block it started at, or serving
      the subscription that began at that block.  next is the log to be handled, saving the block
      number still to be written after the last one. */
  datatype Session =
    | Down
    | History(latest: nat, next: nat, end: nat, saving: Option<nat>)
    | Subscribed(latest: nat, next: nat, saving: Option<nat>)

  /** The chain's logs in block order and its head; which logs have been handed to the handler; the
      saved checkpoint; the running process. */
  datatype State = State(
    logs: seq<Log>, head: nat, handled: set<nat>, saved: Option<nat>, session: Session)

  datatype Step =
    | Mine(payloads: seq<int>)    // a block, with its logs
    | Start(queryOk: bool)        // the process comes up and asks for the logs since the checkpoint
    | Handle                      // it hands the next log to handleLogEvent
    | Save(ok: bool)              // it writes the block number of the log just handled
    | Subscribe                   // history is done
    | Resubscribe                 // the subscription broke and is renewed from its first block
    | Crash

  /** The number of leading logs in blocks before b. */
  function FirstFrom(logs: seq<Log>, b: nat): (i: nat)
    ensures i <= |logs|
    ensures forall j :: 0 <= j < i ==> logs[j].block < b
    ensures i < |logs| ==> logs[i].block >= b
  {
    if logs == [] || logs[0].block >= b then 0 else 1 + FirstFrom(logs[1..], b)
  }

  /** getLastSyncedBlock: the deployment block until something was saved. */
  function LastSynced(deployment: nat, s: State): nat {
    match s.saved
    case None => deployment
    case Some(b) => b
  }

  function Began(deployment: nat, s: State, queryOk: bool): Session {
    var last := LastSynced(deployment, s);
    if last < s.head && queryOk then History(s.head, FirstFrom(s.logs, last), |s.logs|, None)
    else Subscribed(s.head, FirstFrom(s.logs, s.head), None)
  }

  function Next(deployment: nat, s: State, step: Step): State {
    match step
    case Mine(ps) =>
      s.(head := s.head + 1, logs := s.logs + seq(|ps|, i requires 0 <= i < |ps| => Log(s.head + 1, ps[i])))
    case Start(queryOk) => if s.session.Down? then s.(session := Began(deployment, s, queryOk)) else s
    case Crash => s.(session := Down)
    case Save(ok) =>
      if s.session.Down? || s.session.saving.None? then s
      else s.(saved := if ok then s.session.saving else s.saved, session := s.session.(saving := None))
    case Handle =>
      (match s.session
       case History(latest, next, end, None) =>
         if next >= end || next >= |s.logs| then s
         else s.(handled := s.handled + {next}, session := History(latest, next + 1, end, Some(s.logs[next].block)))
       case Subscribed(latest, next, None) =>
         if next >= |s.logs| then s
         else s.(handled := s.handled + {next}, session := Subscribed(latest, next + 1, Some(s.logs[next].block)))
       case _ => s)
    case Subscribe =>
      if s.session.History? && s.session.next >= s.session.end && s.session.saving.None?
      then s.(session := Subscribed(s.session.latest, FirstFrom(s.logs, s.session.latest), None))
      else s
    case Resubscribe =>
      if s.session.Subscribed? && s.session.saving.None?
      then s.(session := s.session.(next := FirstFrom(s.logs, s.session.latest)))
      else s
  }

  function Run(deployment: nat, s: State, steps: seq<Step>): State {
    if steps == [] then s else Next(deployment, Run(deployment, s, steps[..|steps| - 1]), steps[|steps| - 1])
  }

  /** The registry was deployed in the given block, and the head is not before it. */
  ghost predicate Initial(deployment: nat, s: State) {
    && ChainOrdered(s) && deployment <= s.head
    && s.handled == {} && s.saved == None && s.session == Down
  }

  ghost predicate ChainOrdered(s: State) {
    && (forall i, j :: 0 <= i < j < |s.logs| ==> s.logs[i].block <= s.logs[j].block)
    && (forall i :: 0 <= i < |s.logs| ==> s.logs[i].block <= s.head)
  }

  /** Every log in a block from the deployment on and before b has been handled. */
  ghost predicate HandledBelow(deployment: nat, s: State, b: nat) {
    forall i :: 0 <= i < |s.logs| && deployment <= s.logs[i].block < b ==> i in s.handled
  }

  /** Every log before the n-th has been handled, unless it is older than the deployment. */
  ghost predicate HandledFirst(deployment: nat, s: State, n: nat) {
    forall i :: 0 <= i < |s.logs| && i < n && deployment <= s.logs[i].block ==> i in s.handled
  }

  ghost predicate SessionInv(deployment: nat, s: State) {
    match s.session
    case Down => true
    case History(latest, next, end, saving) =>
      && next <= end <= |s.logs| && HandledFirst(deployment, s, next)
      && (forall i :: end <= i < |s.logs| ==> s.logs[i].block > latest)
      && (saving.Some? ==> HandledBelow(deployment, s, saving.value))
    case Subscribed(latest, next, saving) =>
      && next <= |s.logs| && HandledFirst(deployment, s, next) && HandledBelow(deployment, s, latest)
      && latest <= s.head
      && (saving.Some? ==> HandledBelow(deployment, s, saving.value))
  }

  /** Nothing from the deployment on is missing below the saved block, which the chain has reached; and the
      running process has handled what is behind its next log. */
  ghost predicate Inv(deployment: nat, s: State) {
    && ChainOrdered(s)
    && HandledBelow(deployment, s, LastSynced(deployment, s))
    && (s.session.History? ==> s.session.latest <= s.head)
    && LastSynced(deployment, s) <= s.head
    && (!s.session.Down? && s.session.saving.Some? ==> s.session.saving.value <= s.head)
    && SessionInv(deployment, s)
  }

  lemma MineKeepsInv(deployment: nat, s: State, payloads: seq<int>)
    requires Inv(deployment, s)
    ensures Inv(deployment, Next(deployment, s, Mine(payloads)))
  {
    var s' := Next(deployment, s, Mine(payloads));
    assert forall i :: 0 <= i < |s.logs| ==> s'.logs[i] == s.logs[i];
    assert forall i :: |s.logs| <= i < |s'.logs| ==> s'.logs[i].block == s.head + 1;
  }

  lemma SuccessfulStartKeepsInv(deployment: nat, s: State)
    requires Inv(deployment, s) && s.session.Down?
    ensures Inv(deployment, Next(deployment, s, Start(true)))
  {
    var last := LastSynced(deployment, s);
    var s' := Next(deployment, s, Start(true));
    assert FirstFrom(s.logs, last) <= |s.logs| && FirstFrom(s.logs, s.head) <= |s.logs|;
    if last >= s.head {
      assert HandledBelow(deployment, s', s.head);
    }
    assert HandledFirst(deployment, s', FirstFrom(s.logs, last));
  }

  lemma FailedStartKeepsInv(deployment: nat, s: State)
    requires Inv(deployment, s) && s.session.Down?
    ensures Inv(deployment, Next(deployment, s, Start(false))) <==> HandledBelow(deployment, s, s.head)
  {
    var s' := Next(deployment, s, Start(false));
    var n := FirstFrom(s.logs, s.head);
    assert s' == s.(session := Subscribed(s.head, n, None)) && n <= |s.logs|;
    assert HandledBelow(deployment, s', s.head) <==> HandledBelow(deployment, s, s.head);
    if HandledBelow(deployment, s, s.head) {
      assert HandledFirst(deployment, s', n);
      assert HandledBelow(deployment, s', LastSynced(deployment, s'));
    }
  }

  /** Coming up keeps the invariant exactly when the history query succeeds or would have found nothing
      that is still unhandled: its error is logged and the subscription starts all the same. */
  lemma StartKeepsInvExactlyWhen(deployment: nat, s: State, queryOk: bool)
    requires Inv(deployment, s) && s.session.Down?
    ensures Inv(deployment, Next(deployment, s, Start(queryOk))) <==> queryOk || HandledBelow(deployment, s, s.head)
  {
    if queryOk {
      SuccessfulStartKeepsInv(deployment, s);
    } else {
      FailedStartKeepsInv(deployment, s);
    }
  }

  lemma HandledGrows(deployment: nat, s: State, n: nat)
    requires ChainOrdered(s) && n < |s.logs| && HandledFirst(deployment, s, n)
    ensures var s' := s.(handled := s.handled + {n});
            && HandledFirst(deployment, s', n + 1) && HandledBelow(deployment, s', s.logs[n].block)
            && forall b :: HandledBelow(deployment, s, b) ==> HandledBelow(deployment, s', b)
  {
    assert forall i :: 0 <= i < |s.logs| && s.logs[i].block < s.logs[n].block ==> i < n;
  }

  lemma HandleKeepsInv(deployment: nat, s: State)
    requires Inv(deployment, s)
    ensures Inv(deployment, Next(deployment, s, Handle))
  {
    if Next(deployment, s, Handle) != s {
      HandledGrows(deployment, s, s.session.next);
    }
  }

  lemma SubscribeKeepsInv(deployment: nat, s: State)
    requires Inv(deployment, s)
    ensures Inv(deployment, Next(deployment, s, Subscribe))
  {
    var s' := Next(deployment, s, Subscribe);
    if s' != s {
      var latest, n := s.session.latest, FirstFrom(s.logs, s.session.latest);
      assert forall i :: 0 <= i < |s.logs| && s.logs[i].block <= latest ==> i < s.session.end;
      assert HandledBelow(deployment, s', latest);
      assert HandledFirst(deployment, s', n);
    }
  }

  lemma ResubscribeKeepsInv(deployment: nat, s: State)
    requires Inv(deployment, s)
    ensures Inv(deployment, Next(deployment, s, Resubscribe))
  {
    var s' := Next(deployment, s, Resubscribe);
    if s' != s {
      assert HandledFirst(deployment, s', FirstFrom(s.logs, s.session.latest));
    }
  }

  lemma SaveKeepsInv(deployment: nat, s: State, ok: bool)
    requires Inv(deployment, s)
    ensures Inv(deployment, Next(deployment, s, Save(ok)))
  {
  }

  lemma NextKeepsInv(deployment: nat, s: State, step: Step)
    requires Inv(deployment, s) && (step.Start? ==> step.queryOk)
    ensures Inv(deployment, Next(deployment, s, step))
  {
    match step
    case Mine(ps) => MineKeepsInv(deployment, s, ps);
    case Start(queryOk) =>
      if s.session.Down? {
        StartKeepsInvExactlyWhen(deployment, s, queryOk);
      }
    case Handle => HandleKeepsInv(deployment, s);
    case Save(ok) => SaveKeepsInv(deployment, s, ok);
    case Subscribe => SubscribeKeepsInv(deployment, s);
    case Resubscribe => ResubscribeKeepsInv(deployment, s);
    case Crash =>
  }

  lemma {:induction false} RunKeepsInv(deployment: nat, s: State, steps: seq<Step>)
    requires Inv(deployment, s)
    requires forall i :: 0 <= i < |steps| && steps[i].Start? ==> steps[i].queryOk
    ensures Inv(deployment, Run(deployment, s, steps))
  {
    if steps != [] {
      var before := steps[..|steps| - 1];
      RunKeepsInv(deployment, s, before);
      NextKeepsInv(deployment, Run(deployment, s, before), steps[|steps| - 1]);
    }
  }

  /** In every run from the deployment whose history queries succeed, with crashes at any point, every
      log from the deployment on in a block below the saved checkpoint has been handed to the handler;
      and once the subscription has drained, every log of the chain has. */
  lemma AtLeastOnce(deployment: nat, s: State, steps: seq<Step>)
    requires Initial(deployment, s)
    requires forall i :: 0 <= i < |steps| && steps[i].Start? ==> steps[i].queryOk
    ensures var s' := Run(deployment, s, steps);
            && HandledBelow(deployment, s', LastSynced(deployment, s'))
            && (s'.session.Subscribed? && s'.session.next == |s'.logs| ==> HandledBelow(deployment, s', s'.head + 1))
  {
    RunKeepsInv(deployment, s, steps);
  }

  // ----- the order in which logs are handed over -----

  /** The log that a step hands to the handler. */
  function Handing(s: State, step: Step): Option<nat> {
    if !step.Handle? then None
    else
      match s.session
      case History(_, next, end, None) => if next >= end || next >= |s.logs| then None else Some(next)
      case Subscribed(_, next, None) => if next >= |s.logs| then None else Some(next)
      case _ => None
  }

  // ----- where a start goes on from -----

  /** What a session begun at a checkpoint and a head still hands over: logs of blocks from the checkpoint on,
      up to that head while it replays history, and from that head on once it serves the subscription. */
  ghost predicate GoesOnFrom(s: State, checkpoint: nat, head: nat) {
    checkpoint <= head <= s.head
    && match s.session
       case Down => true
       case History(latest, next, end, _) =>
         && latest == head && end <= |s.logs|
         && (forall i :: next <= i < end && i < |s.logs| ==> checkpoint <= s.logs[i].block <= head)
       case Subscribed(latest, next, _) =>
         && latest == head && forall i :: next <= i < |s.logs| ==> head <= s.logs[i].block
  }

  /** Coming up, a process goes on from the saved checkpoint, whether its query succeeds or not. */
  lemma StartGoesOn(deployment: nat, s: State, queryOk: bool)
    requires Inv(deployment, s) && s.session.Down?
    ensures var s' := Next(deployment, s, Start(queryOk));
            && GoesOnFrom(s', LastSynced(deployment, s), s.head) && !s'.session.Down?
            && (forall i :: s'.session.next <= i < |s'.logs| ==> LastSynced(deployment, s) <= s'.logs[i].block)
            && (queryOk ==>
                  forall i :: 0 <= i < |s'.logs| && LastSynced(deployment, s) <= s'.logs[i].block ==> s'.session.next <= i)
  {
    var last := LastSynced(deployment, s);
    var from := FirstFrom(s.logs, last);
    var top := FirstFrom(s.logs, s.head);
    assert from < |s.logs| ==> last <= s.logs[from].block;
    assert top < |s.logs| ==> s.head <= s.logs[top].block;
  }

  lemma MineGoesOn(deployment: nat, s: State, payloads: seq<int>, checkpoint: nat, head: nat)
    requires ChainOrdered(s) && GoesOnFrom(s, checkpoint, head)
    ensures var s' := Next(deployment, s, Mine(payloads)); ChainOrdered(s') && GoesOnFrom(s', checkpoint, head)
  {
    var s' := Next(deployment, s, Mine(payloads));
    assert forall i :: 0 <= i < |s.logs| ==> s'.logs[i] == s.logs[i];
    assert forall i :: |s.logs| <= i < |s'.logs| ==> s'.logs[i].block == s.head + 1;
  }

  /** A subscription that begins, or begins again, at the head. */
  lemma SubscriptionGoesOn(s: State, s': State, checkpoint: nat, head: nat)
    requires ChainOrdered(s) && checkpoint <= head <= s.head && s' == s.(session := s'.session)
    requires s'.session.Subscribed? && s'.session.latest == head && s'.session.next == FirstFrom(s.logs, head)
    ensures GoesOnFrom(s', checkpoint, head)
  {
    var n := FirstFrom(s.logs, head);
    assert n < |s.logs| ==> head <= s.logs[n].block;
  }

  lemma GoesOnStep(deployment: nat, s: State, step: Step, checkpoint: nat, head: nat)
    requires ChainOrdered(s) && GoesOnFrom(s, checkpoint, head) && !step.Start?
    ensures ChainOrdered(Next(deployment, s, step)) && GoesOnFrom(Next(deployment, s, step), checkpoint, head)
    ensures Handing(s, step).Some? ==>
              var block := s.logs[Handing(s, step).value].block;
              checkpoint <= block && (if s.session.History? then block <= head else head <= block)
  {
    var s' := Next(deployment, s, step);
    match step
    case Mine(ps) => MineGoesOn(deployment, s, ps, checkpoint, head);
    case Subscribe =>
      if s' != s {
        SubscriptionGoesOn(s, s', checkpoint, head);
      }
    case Resubscribe =>
      if s' != s && s'.session.saving.None? {
        SubscriptionGoesOn(s, s', checkpoint, head);
      }
    case _ =>
  }

  lemma {:induction false} GoesOn(deployment: nat, s: State, steps: seq<Step>, checkpoint: nat, head: nat)
    requires ChainOrdered(s) && GoesOnFrom(s, checkpoint, head)
    requires forall i :: 0 <= i < |steps| ==> !steps[i].Start?
    ensures ChainOrdered(Run(deployment, s, steps)) && GoesOnFrom(Run(deployment, s, steps), checkpoint, head)
  {
    if steps != [] {
      var before := steps[..|steps| - 1];
      GoesOn(deployment, s, before, checkpoint, head);
      GoesOnStep(deployment, Run(deployment, s, before), steps[|steps| - 1], checkpoint, head);
    }
  }

  /** Nothing older is handed over again: whatever happens between one start and the next, every log handed
      over is in a block from the checkpoint of that start on; in one from the head of that start on once the
      subscription is served, and none beyond that head before. */
  lemma HandsFromCheckpoint(deployment: nat, s: State, queryOk: bool, steps: seq<Step>, step: Step)
    requires Inv(deployment, s) && s.session.Down?
    requires !step.Start? && forall i :: 0 <= i < |steps| ==> !steps[i].Start?
    ensures var s' := Run(deployment, Next(deployment, s, Start(queryOk)), steps);
            Handing(s', step).Some? ==>
              var block := s'.logs[Handing(s', step).value].block;
              && LastSynced(deployment, s) <= block
              && (if s'.session.History? then block <= s.head else s.head <= block)
  {
    StartGoesOn(deployment, s, queryOk);
    var begun := Next(deployment, s, Start(queryOk));
    GoesOn(deployment, begun, steps, LastSynced(deployment, s), s.head);
    GoesOnStep(deployment, Run(deployment, begun, steps), step, LastSynced(deployment, s), s.head);
  }

  /** Nothing is replayed that was saved as done: the checkpoint becomes the block of the log just handed over
      when that is saved, stays as it was when saving fails or the process dies before, and no other step
      moves it. */
  lemma CheckpointFollows(deployment: nat, s: State, step: Step)
    ensures Handing(s, Handle).Some? ==>
              var s' := Next(deployment, s, Handle);
              && LastSynced(deployment, Next(deployment, s', Save(true))) == s.logs[Handing(s, Handle).value].block
              && LastSynced(deployment, Next(deployment, s', Save(false))) == LastSynced(deployment, s)
              && LastSynced(deployment, Next(deployment, s', Crash)) == LastSynced(deployment, s)
    ensures !step.Save? ==> LastSynced(deployment, Next(deployment, s, step)) == LastSynced(deployment, s)
  {
  }

  // ----- all logs in order -----

  /** The logs from the deployment on are those from the given one on. */
  ghost predicate Begins(deployment: nat, logs: seq<Log>, base: nat) {
    && base <= |logs|
    && (forall i :: 0 <= i < base ==> logs[i].block < deployment)
    && forall i :: base <= i < |logs| ==> deployment <= logs[i].block
  }

  /** What has been handled is a stretch of the logs, and the next one to be handled is in it or just after. */
  ghost predicate Contiguous(deployment: nat, s: State, base: nat, frontier: nat) {
    && Begins(deployment, s.logs, base) && base <= frontier <= |s.logs| && deployment <= s.head
    && (forall i: nat :: i in s.handled <==> base <= i < frontier)
    && deployment <= LastSynced(deployment, s)
    && (!s.session.Down? ==>
          && base <= s.session.next <= frontier && deployment <= s.session.latest
          && (s.session.saving.Some? ==> deployment <= s.session.saving.value))
  }

  lemma FirstFromIsLater(deployment: nat, logs: seq<Log>, base: nat, b: nat)
    requires Begins(deployment, logs, base) && deployment <= b
    ensures base <= FirstFrom(logs, b)
  {
    var n := FirstFrom(logs, b);
    assert n < |logs| ==> deployment <= logs[n].block;
  }

  lemma NextIsWithin(deployment: nat, s: State, base: nat, frontier: nat)
    requires Inv(deployment, s) && !s.session.Down? && s.session.next <= |s.logs|
    requires Begins(deployment, s.logs, base) && base <= frontier <= |s.logs|
    requires forall i: nat :: i in s.handled <==> base <= i < frontier
    ensures s.session.next <= frontier
  {
    assert HandledFirst(deployment, s, s.session.next);
    assert frontier < |s.logs| ==> deployment <= s.logs[frontier].block;
  }

  /** A session begun at a block at or after the deployment. */
  lemma SessionBegins(deployment: nat, s: State, s': State, base: nat, frontier: nat, b: nat)
    requires Contiguous(deployment, s, base, frontier) && Inv(deployment, s') && deployment <= b
    requires s' == s.(session := s'.session) && !s'.session.Down? && s'.session.saving.None?
    requires s'.session.next == FirstFrom(s.logs, b) && deployment <= s'.session.latest
    ensures Contiguous(deployment, s', base, frontier)
  {
    FirstFromIsLater(deployment, s.logs, base, b);
    NextIsWithin(deployment, s', base, frontier);
  }

  lemma MineKeepsContiguous(deployment: nat, s: State, payloads: seq<int>, base: nat, frontier: nat)
    requires Contiguous(deployment, s, base, frontier)
    ensures Contiguous(deployment, Next(deployment, s, Mine(payloads)), base, frontier)
  {
    var s' := Next(deployment, s, Mine(payloads));
    assert forall i :: 0 <= i < |s.logs| ==> s'.logs[i] == s.logs[i];
    assert forall i :: |s.logs| <= i < |s'.logs| ==> s'.logs[i].block == s.head + 1;
  }

  lemma HandleExtends(deployment: nat, s: State, base: nat, frontier: nat)
    requires Contiguous(deployment, s, base, frontier)
    ensures var handed := Handing(s, Handle);
            && (handed.Some? ==> base <= handed.value <= frontier)
            && Contiguous(deployment, Next(deployment, s, Handle), base,
                          if handed == Some(frontier) then frontier + 1 else frontier)
  {
  }

  lemma SessionKeepsContiguous(deployment: nat, s: State, step: Step, base: nat, frontier: nat)
    requires Inv(deployment, s) && Contiguous(deployment, s, base, frontier) && (step.Start? ==> step.queryOk)
    requires step.Start? || step.Subscribe? || step.Resubscribe?
    ensures Contiguous(deployment, Next(deployment, s, step), base, frontier)
  {
    var s' := Next(deployment, s, step);
    NextKeepsInv(deployment, s, step);
    if s' != s {
      var synced := LastSynced(deployment, s);
      var b := if s.session.Down? then (if synced < s.head then synced else s.head)
               else s.session.latest;
      SessionBegins(deployment, s, s', base, frontier, b);
    }
  }

  /** A step hands over a log that was handed over before or the one just after them. */
  lemma StepHandsInOrder(deployment: nat, s: State, step: Step, base: nat, frontier: nat)
    requires Inv(deployment, s) && Contiguous(deployment, s, base, frontier) && (step.Start? ==> step.queryOk)
    ensures var handed := Handing(s, step);
            && (handed.Some? ==> base <= handed.value <= frontier)
            && Contiguous(deployment, Next(deployment, s, step), base,
                          if handed == Some(frontier) then frontier + 1 else frontier)
  {
    match step
    case Mine(ps) => MineKeepsContiguous(deployment, s, ps, base, frontier);
    case Handle => HandleExtends(deployment, s, base, frontier);
    case Start(_) => SessionKeepsContiguous(deployment, s, step, base, frontier);
    case Subscribe => SessionKeepsContiguous(deployment, s, step, base, frontier);
    case Resubscribe => SessionKeepsContiguous(deployment, s, step, base, frontier);
    case _ =>
  }

  /** A log from the deployment on lies below the checkpoint and has not been handled: no later start asks
      for it. */
  ghost predicate Loses(deployment: nat, s: State) {
    !HandledBelow(deployment, s, LastSynced(deployment, s))
  }

  /** The process, having come up without its history, loses a log before it is started again. */
  ghost predicate LosesBy(deployment: nat, s: State, steps: seq<Step>) {
    && (forall i :: 0 <= i < |steps| ==> !steps[i].Start?)
    && Loses(deployment, Run(deployment, Next(deployment, s, Start(false)), steps))
  }

  /** A log that the query should have found. */
  predicate Outstanding(deployment: nat, s: State, i: nat) {
    i < |s.logs| && i !in s.handled && deployment <= s.logs[i].block
        && LastSynced(deployment, s) <= s.logs[i].block < s.head
  }

  lemma RunThenLog(deployment: nat, s: State, steps: seq<Step>, saveOk: bool)
    ensures Run(deployment, s, steps + [Handle] + [Save(saveOk)]) ==
            Next(deployment, Next(deployment, Run(deployment, s, steps), Handle), Save(saveOk))
  {
    RunSnoc(deployment, s, steps, Handle);
    RunSnoc(deployment, s, steps + [Handle], Save(saveOk));
  }

  lemma RunOfThree(deployment: nat, s: State, x: Step, y: Step, z: Step)
    ensures Run(deployment, s, [x] + [y] + [z]) == Next(deployment, Next(deployment, Next(deployment, s, x), y), z)
  {
    assert [] + [x] == [x] && Run(deployment, s, []) == s;
    RunSnoc(deployment, s, [], x);
    RunSnoc(deployment, s, [x], y);
    RunSnoc(deployment, s, [x] + [y], z);
  }

  lemma SubscriptionPassesOver(deployment: nat, s: State, i: nat)
    requires Inv(deployment, s) && s.session.Down? && Outstanding(deployment, s, i)
    ensures Loses(deployment, Next(deployment, Next(deployment, Next(deployment,
              Next(deployment, s, Start(false)), Mine([0])), Handle), Save(true)))
  {
    var n := FirstFrom(s.logs, s.head);
    var mined := Next(deployment, Next(deployment, s, Start(false)), Mine([0]));
    assert mined.logs[i] == s.logs[i];
    assert n < |mined.logs| && mined.logs[n].block >= s.head && mined.session == Subscribed(s.head, n, None);
    var saved := Next(deployment, Next(deployment, mined, Handle), Save(true));
    assert saved.logs == mined.logs && i !in saved.handled && LastSynced(deployment, saved) == mined.logs[n].block;
  }

  /** The next log that the subscription delivers is at or after the head, and its block is saved. */
  lemma OutstandingIsLost(deployment: nat, s: State, i: nat) returns (steps: seq<Step>)
    requires Inv(deployment, s) && s.session.Down? && Outstanding(deployment, s, i)
    ensures LosesBy(deployment, s, steps)
  {
    steps := [Mine([0])] + [Handle] + [Save(true)];
    SubscriptionPassesOver(deployment, s, i);
    RunOfThree(deployment, Next(deployment, s, Start(false)), Mine([0]), Handle, Save(true));
  }

  /** A failed history query can lose a log for good exactly when there is one that it should have found:
      not handled, and in a block from the checkpoint on and before the head. */
  lemma FailedQueryLosesExactlyWhen(deployment: nat, s: State)
    requires Inv(deployment, s) && s.session.Down?
    ensures (exists steps :: LosesBy(deployment, s, steps)) <==> exists i :: Outstanding(deployment, s, i)
  {
    if i: nat :| Outstanding(deployment, s, i) {
      var steps := OutstandingIsLost(deployment, s, i);
    } else {
      forall i | 0 <= i < |s.logs| && deployment <= s.logs[i].block < s.head
        ensures i in s.handled
      {
        assert !Outstanding(deployment, s, i);
      }
      StartKeepsInvExactlyWhen(deployment, s, false);
      forall steps: seq<Step> | forall i :: 0 <= i < |steps| ==> !steps[i].Start?
        ensures !LosesBy(deployment, s, steps)
      {
        RunKeepsInv(deployment, Next(deployment, s, Start(false)), steps);
      }
    }
  }

  /** So whatever block the registry was deployed in, a log in that very block can be passed over. */
  lemma FailedQueryLosesLog(deployment: nat, payload: int) returns (s: State, steps: seq<Step>)
    ensures Initial(deployment, s) && s.logs == [Log(deployment, payload)] && LosesBy(deployment, s, steps)
  {
    s := State([Log(deployment, payload)], deployment + 1, {}, None, Down);
    steps := OutstandingIsLost(deployment, s, 0);
  }

  // ----- the process -----

  class EventListener {
    const fromBlock: nat
    var saved: Option<nat>
    var session: Session
    ghost var handled: set<nat>

    ghost function Value(logs: seq<Log>, head: nat): State
      reads this
    {
      State(logs, head, handled, saved, session)
    }

    constructor (fromBlock: nat, saved: Option<nat>)
      ensures this.fromBlock == fromBlock && this.saved == saved && session == Down && handled == {}
    {
      this.fromBlock, this.saved, session, handled := fromBlock, saved, Down, {};
    }

    /** handleLogEvent, then setLastSyncedBlock, whose own failure is ignored. */
    method HandleLogEvent(logs: seq<Log>, head: nat, saveOk: bool)
      requires match session
               case History(_, next, end, None) => next < end <= |logs|
               case Subscribed(_, next, None) => next < |logs|
               case _ => false
      modifies this
      ensures Value(logs, head) ==
              Next(fromBlock, Next(fromBlock, old(Value(logs, head)), Handle), Save(saveOk))
    {
      var log := logs[session.next];
      handled := handled + {session.next};
      session := session.(next := session.next + 1);
      if saveOk {
        saved := Some(log.block);
      }
    }

    /** Start: replay the history in order, then subscribe; crashAfter is how many logs the process
        lives to handle.  The steps it takes are those of the model. */
    method Start(logs: seq<Log>, head: nat, queryOk: bool, crashAfter: Option<nat>) returns (ghost steps: seq<Step>)
      requires session == Down
      modifies this
      ensures Value(logs, head) == Run(fromBlock, old(Value(logs, head)), steps)
      ensures steps != [] && steps[0] == Step.Start(queryOk)
      ensures forall i :: 1 <= i < |steps| ==> !steps[i].Start? && !steps[i].Mine?
      ensures if crashAfter.None? then session.Subscribed? && session.latest == head
              else session.Down? || session.Subscribed?
    {
      var lastSynced := match saved case None => fromBlock case Some(b) => b;
      steps := [Step.Start(queryOk)];
      assert steps[..0] == [];
      if lastSynced < head && queryOk {
        session := History(head, FirstFrom(logs, lastSynced), |logs|, None);
        var count := 0;
        while session.next < |logs|
          invariant session.History? && session.latest == head && session.end == |logs| && session.saving == None
          invariant session.next <= |logs|
          invariant steps != [] && steps[0] == Step.Start(queryOk)
          invariant forall i :: 1 <= i < |steps| ==> !steps[i].Start? && !steps[i].Mine?
          invariant Value(logs, head) == Run(fromBlock, old(Value(logs, head)), steps)
          decreases |logs| - session.next
        {
          if crashAfter == Some(count) {
            session := Down;
            RunSnoc(fromBlock, old(Value(logs, head)), steps, Crash);
            steps := steps + [Crash];
            return;
          }
          var saveOk: bool := *;
          HandleLogEvent(logs, head, saveOk);
          RunThenLog(fromBlock, old(Value(logs, head)), steps, saveOk);
          steps := steps + [Handle] + [Save(saveOk)];
          count := count + 1;
        }
        RunSnoc(fromBlock, old(Value(logs, head)), steps, Subscribe);
        steps := steps + [Subscribe];
        session := Subscribed(head, FirstFrom(logs, head), None);
      } else {
        session := Subscribed(head, FirstFrom(logs, head), None);
      }
    }
  }

  lemma RunSnoc(deployment: nat, s: State, steps: seq<Step>, step: Step)
    ensures Run(deployment, s, steps + [step]) == Next(deployment, Run(deployment, s, steps), step)
  {
    assert (steps + [step])[..|steps|] == steps;
  }
}
