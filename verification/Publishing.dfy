/** The way of a NameBound event from the contract to a node's record: contracts/evm/listener.go names it,
    core/gossip.go drops repeats, core/store.go sets the record's address. */
module Publishing {
  import opened Bytes
  import opened Options
  import opened Gossip
  import Digest
  import Keys
  import Lifecycle
  import Parameters
  import Registry
  import Store

  // ----- the id of an event -----

  const COLON: Byte := ':'

  function Digit(n: nat): (c: Byte)
    requires n < 10
    ensures c != COLON
  {
    ('0' as int + n) as char
  }

  /** %d of a number that is not negative. */
  function Decimal(n: nat): (text: Bytes)
    ensures text != "" && COLON !in text
  {
    if n < 10 then [Digit(n)] else Decimal(n / 10) + [Digit(n % 10)]
  }

  lemma {:induction false} DecimalInjective(m: nat, n: nat)
    requires Decimal(m) == Decimal(n)
    ensures m == n
  {
    var s, t := Decimal(m), Decimal(n);
    assert s[|s| - 1] == Digit(m % 10) && t[|t| - 1] == Digit(n % 10);
    if m < 10 || n < 10 {
      assert |s| == 1;
    } else {
      assert s[..|s| - 1] == Decimal(m / 10) && t[..|t| - 1] == Decimal(n / 10);
      DecimalInjective(m / 10, n / 10);
    }
  }

  /** The number that decimal digits spell, the first one counting most. */
  function ReadDecimal(text: Bytes): int {
    if text == "" then 0
    else 10 * ReadDecimal(text[..|text| - 1]) + text[|text| - 1] as int - '0' as int
  }

  lemma {:induction false} DecimalReadsBack(n: nat)
    ensures ReadDecimal(Decimal(n)) == n
  {
    if n < 10 {
      assert Decimal(n)[..0] == "";
    } else {
      DecimalReadsBack(n / 10);
      assert Decimal(n)[..|Decimal(n)| - 1] == Decimal(n / 10);
    }
  }

  lemma {:induction false} HexHasNoColon(data: Bytes)
    ensures COLON !in Keys.Hex(data)
  {
    if data != [] {
      HexHasNoColon(data[1..]);
    }
  }

  /** chainID:namehash:blockNumber. */
  function EventIdOf(chainID: nat, h: Word, block: nat): Bytes {
    Decimal(chainID) + ([COLON] + (Keys.Hex(h) + ([COLON] + Decimal(block))))
  }

  lemma ColonSplits(a: Bytes, b: Bytes, x: Bytes, y: Bytes)
    requires a + ([COLON] + x) == b + ([COLON] + y) && COLON !in a && COLON !in b
    ensures a == b && x == y
  {
    var s := a + ([COLON] + x);
    assert s[|a|] == COLON && (b + ([COLON] + y))[|b|] == COLON;
    assert forall i :: 0 <= i < |a| ==> s[i] == a[i];
    assert forall i :: 0 <= i < |b| ==> (b + ([COLON] + y))[i] == b[i];
    assert |a| == |b|;
    assert s[..|a|] == a && (b + ([COLON] + y))[..|b|] == b;
    assert s[|a| + 1..] == x && (b + ([COLON] + y))[|b| + 1..] == y;
  }

  /** The id of an event tells its chain, its name and its block, and nothing else. */
  lemma EventIdsAgreeExactlyWhen(chainID: nat, h: Word, block: nat, chainID': nat, h': Word, block': nat)
    ensures EventIdOf(chainID, h, block) == EventIdOf(chainID', h', block') <==>
            chainID == chainID' && h == h' && block == block'
  {
    if EventIdOf(chainID, h, block) == EventIdOf(chainID', h', block') {
      ColonSplits(Decimal(chainID), Decimal(chainID'), Keys.Hex(h) + ([COLON] + Decimal(block)),
                  Keys.Hex(h') + ([COLON] + Decimal(block')));
      HexHasNoColon(h);
      HexHasNoColon(h');
      ColonSplits(Keys.Hex(h), Keys.Hex(h'), Decimal(block), Decimal(block'));
      DecimalInjective(chainID, chainID');
      Keys.HexInjective(h, h');
      DecimalInjective(block, block');
    }
  }

  /** Split at its first two colons, an id reads as the chain's number, the name's hash in hexadecimal, and
      the block's number. */
  lemma EventIdReads(chainID: nat, h: Word, block: nat, a: Bytes, b: Bytes, c: Bytes)
    requires EventIdOf(chainID, h, block) == a + ([COLON] + (b + ([COLON] + c))) && COLON !in a && COLON !in b
    ensures ReadDecimal(a) == chainID && Parameters.DecodeHex(b) == Some(h) && ReadDecimal(c) == block
  {
    HexHasNoColon(h);
    ColonSplits(Decimal(chainID), a, Keys.Hex(h) + ([COLON] + Decimal(block)), b + ([COLON] + c));
    ColonSplits(Keys.Hex(h), b, Decimal(block), c);
    DecimalReadsBack(chainID);
    DecimalReadsBack(block);
    Parameters.HexIsLower(h);
    Parameters.DecodesExactlyHex(b, h);
  }

  // ----- logs and events -----

  /** A NameBound log, with the chain and block it is on. */
  datatype BoundLog = BoundLog(chainID: nat, block: nat, namehash: Word, resolver: Address, expiresAt: nat)

  /** handleNameBound: the event gossiped for a log. */
  function Published(log: BoundLog): NameBoundEvent {
    NameBoundEvent(log.namehash, log.resolver, log.expiresAt, log.chainID,
                   EventIdOf(log.chainID, log.namehash, log.block))
  }

  function Events(logs: seq<BoundLog>): seq<NameBoundEvent> {
    seq(|logs|, i requires 0 <= i < |logs| => Published(logs[i]))
  }

  predicate SameId(l: BoundLog, m: BoundLog) {
    l.chainID == m.chainID && l.namehash == m.namehash && l.block == m.block
  }

  /** No two different bindings of one name are logged on one chain in one block. */
  ghost predicate OnePerBlock(logs: seq<BoundLog>) {
    forall i, j :: 0 <= i < |logs| && 0 <= j < |logs| && SameId(logs[i], logs[j]) ==> logs[i] == logs[j]
  }

  lemma IdsOfLogs(l: BoundLog, m: BoundLog)
    ensures EventId(Published(l)) == EventId(Published(m)) <==> SameId(l, m)
    ensures Published(l) == Published(m) <==> l == m
  {
    EventIdsAgreeExactlyWhen(l.chainID, l.namehash, l.block, m.chainID, m.namehash, m.block);
  }

  lemma OnePerBlockTellsApart(logs: seq<BoundLog>)
    ensures OnePerBlock(logs) <==> TellsApart(EventId, Events(logs))
  {
    var events := Events(logs);
    forall i, j | 0 <= i < |logs| && 0 <= j < |logs|
      ensures EventId(events[i]) == EventId(events[j]) <==> SameId(logs[i], logs[j])
      ensures events[i] == events[j] <==> logs[i] == logs[j]
    {
      IdsOfLogs(logs[i], logs[j]);
    }
  }

  /** Every published event is handled exactly when no two different bindings of one name are logged on
      one chain in one block. */
  lemma NothingIsLostExactlyWhen(logs: seq<BoundLog>)
    ensures (forall e :: e in Events(logs) ==> e in Fresh(EventId, false, {}, Events(logs))) <==> OnePerBlock(logs)
  {
    AllHandledExactlyWhen(EventId, Events(logs));
    OnePerBlockTellsApart(logs);
  }

  // ----- what a node makes of the events -----

  /** Address.Hex of the program: some letters are capitals, and without them it is the hexadecimal. */
  type Texts = Address -> Bytes

  ghost predicate WritesHex(text: Texts) {
    forall a: Address :: Keys.ToLower(text(a)) == "0x" + Keys.Hex(a)
  }

  lemma TextsDiffer(text: Texts, a: Address, b: Address)
    requires WritesHex(text) && text(a) == text(b)
    ensures a == b
  {
    assert ("0x" + Keys.Hex(a))[2..] == Keys.Hex(a) && ("0x" + Keys.Hex(b))[2..] == Keys.Hex(b);
    Keys.HexInjective(a, b);
  }

  /** A node that has handled those events. */
  function BindAll(N: Store.Naming, text: Texts, v: Store.View, events: seq<NameBoundEvent>): Store.View {
    if events == [] then v
    else
      var e := events[|events| - 1];
      var before := BindAll(N, text, v, events[..|events| - 1]);
      Store.BindAddressResolver(N, before, e.namehash, e.chainID, text(e.resolver)).0
  }

  /** The address a node answers with for a name on a chain. */
  function Answer(N: Store.Naming, v: Store.View, h: Word, chainID: nat): Option<Bytes> {
    var r := Store.GetByNamehash(N, v, h).1;
    if r.Some? && chainID in r.value.bindings.addresses then Some(r.value.bindings.addresses[chainID]) else None
  }

  /** The node or the DHT has an entry for the name. */
  predicate Known(v: Store.View, h: Word) {
    h in v.node.namehashes || h in v.dht.namehashes
  }

  function EntryOf(v: Store.View, h: Word): Bytes
    requires Known(v, h)
  {
    if h in v.node.namehashes then v.node.namehashes[h] else v.dht.namehashes[h]
  }

  /** Under the invariant a known name is answered with the node's own copy or the DHT's record. */
  lemma KnownIsFound(N: Store.Naming, v: Store.View, h: Word)
    requires Lifecycle.Inv(N, v) && Known(v, h)
    ensures var d := EntryOf(v, h);
            && N(d) == h && d in v.dht.records
            && Store.GetByNamehash(N, v, h).1 ==
               Some(if d in v.node.records then v.node.records[d] else v.dht.records[d])
            && Store.GetByNamehash(N, v, h).1.value.domain == d
            && Store.GetByNamehash(N, v, h).1.value.status == Store.Confirmed
  {
    var d := EntryOf(v, h);
    assert d in v.dht.records;
    Lifecycle.FreeIsNotPending(v.dht.locks, v.dht.pending, v.dht.records.Keys, d);
    assert v.dht.records[d].domain == d && v.dht.records[d].status == Store.Confirmed;
    if d in v.node.records {
      assert Lifecycle.CoreOf(v.node.records[d]) == Lifecycle.CoreOf(v.dht.records[d]);
    }
  }

  function AddressIn(r: Store.Record, chainID: nat): Option<Bytes> {
    if chainID in r.bindings.addresses then Some(r.bindings.addresses[chainID]) else None
  }

  /** What a node has of a known name. */
  function Found(v: Store.View, h: Word): Option<Store.Record>
    requires Known(v, h)
  {
    var d := EntryOf(v, h);
    if d in v.node.records then Some(v.node.records[d]) else if d in v.dht.records then Some(v.dht.records[d]) else None
  }

  lemma KnownAnswer(N: Store.Naming, v: Store.View, h: Word, chainID: nat)
    requires Lifecycle.Inv(N, v) && Known(v, h)
    ensures Found(v, h).Some? && Answer(N, v, h, chainID) == AddressIn(Found(v, h).value, chainID)
  {
    KnownIsFound(N, v, h);
  }

  /** Looking a known name up at most caches the DHT's record. */
  lemma LookupEffect(N: Store.Naming, v: Store.View, g: Word)
    requires Lifecycle.Inv(N, v) && Known(v, g)
    ensures var d := EntryOf(v, g);
            && N(d) == g && d in v.dht.records && v.dht.records[d].domain == d
            && Store.GetByNamehash(N, v, g) ==
               if d in v.node.records then (v, Some(v.node.records[d]))
               else (Store.SaveRecord(N, v, v.dht.records[d]), Some(v.dht.records[d]))
  {
    KnownIsFound(N, v, g);
    var d := EntryOf(v, g);
    Lifecycle.FreeIsNotPending(v.dht.locks, v.dht.pending, v.dht.records.Keys, d);
    assert v.dht.records[d].domain == d;
  }

  lemma SaveTwice(N: Store.Naming, v: Store.View, r: Store.Record, r': Store.Record)
    requires r.domain == r'.domain
    ensures Store.SaveRecord(N, Store.SaveRecord(N, v, r), r') == Store.SaveRecord(N, v, r')
  {
  }

  /** An event for a known name rewrites its record in the node and in the DHT, and nothing else. */
  lemma BindEffect(N: Store.Naming, v: Store.View, g: Word, chain: nat, resolver: Bytes)
    requires Lifecycle.Inv(N, v) && Known(v, g)
    ensures Found(v, g).Some?
    ensures var d := EntryOf(v, g);
            var r := Store.WithAddress(Found(v, g).value, chain, resolver);
            var v' := Store.BindAddressResolver(N, v, g, chain, resolver).0;
            && N(d) == g
            && v'.node.records == v.node.records[d := r] && v'.dht.records == v.dht.records[d := r]
            && v'.node.namehashes == v.node.namehashes[g := d] && v'.dht.namehashes == v.dht.namehashes[g := d]
  {
    LookupEffect(N, v, g);
    var d := EntryOf(v, g);
    if d in v.node.records {
      KnownIsFound(N, v, g);
    } else {
      SaveTwice(N, v, v.dht.records[d], Store.WithAddress(v.dht.records[d], chain, resolver));
    }
  }

  lemma UnknownIsIgnored(N: Store.Naming, v: Store.View, g: Word, chain: nat, resolver: Bytes)
    requires !Known(v, g)
    ensures Store.BindAddressResolver(N, v, g, chain, resolver).0 == v
  {
  }

  lemma FoundAfterBind(N: Store.Naming, v: Store.View, g: Word, chain: nat, resolver: Bytes, h: Word)
    requires Lifecycle.Inv(N, v) && Known(v, h) && Known(v, g)
    ensures var v' := Store.BindAddressResolver(N, v, g, chain, resolver).0;
            && Found(v, g).Some? && Known(v', h)
            && Found(v', h) ==
               if g == h then Some(Store.WithAddress(Found(v, g).value, chain, resolver)) else Found(v, h)
  {
    BindEffect(N, v, g, chain, resolver);
    KnownIsFound(N, v, h);
  }

  /** An event sets the answer for its own name and chain, and leaves every other. */
  lemma BindAnswers(N: Store.Naming, v: Store.View, g: Word, chain: nat, resolver: Bytes, h: Word, chainID: nat)
    requires Lifecycle.Inv(N, v) && Known(v, h)
    ensures var v' := Store.BindAddressResolver(N, v, g, chain, resolver).0;
            && Lifecycle.Inv(N, v') && Known(v', h)
            && Answer(N, v', h, chainID) ==
               if g == h && chain == chainID then Some(resolver) else Answer(N, v, h, chainID)
  {
    if Known(v, g) {
      Lifecycle.BindMoves(N, v, g, chain, resolver);
      FoundAfterBind(N, v, g, chain, resolver, h);
      KnownAnswer(N, v, h, chainID);
      KnownAnswer(N, Store.BindAddressResolver(N, v, g, chain, resolver).0, h, chainID);
    } else {
      UnknownIsIgnored(N, v, g, chain, resolver);
    }
  }

  /** The last event for a name on a chain. */
  function LastEvent(events: seq<NameBoundEvent>, h: Word, chainID: nat): Option<Address> {
    if events == [] then None
    else
      var e := events[|events| - 1];
      if e.namehash == h && e.chainID == chainID then Some(e.resolver)
      else LastEvent(events[..|events| - 1], h, chainID)
  }

  /** The node answers with the last event it handled. */
  lemma {:induction false} BindAllAnswers(N: Store.Naming, text: Texts, v: Store.View, events: seq<NameBoundEvent>,
                                          h: Word, chainID: nat)
    requires Lifecycle.Inv(N, v) && Known(v, h)
    ensures var v' := BindAll(N, text, v, events);
            var last := LastEvent(events, h, chainID);
            && Lifecycle.Inv(N, v') && Known(v', h)
            && Answer(N, v', h, chainID) == if last.Some? then Some(text(last.value)) else Answer(N, v, h, chainID)
  {
    if events != [] {
      var before, e := events[..|events| - 1], events[|events| - 1];
      BindAllAnswers(N, text, v, before, h, chainID);
      BindAnswers(N, BindAll(N, text, v, before), e.namehash, e.chainID, text(e.resolver), h, chainID);
    }
  }

  // ----- logs in the order of their blocks -----

  /** Logs of one chain, in the order of their blocks. */
  ghost predicate InBlockOrder(logs: seq<BoundLog>, chainID: nat) {
    && (forall i :: 0 <= i < |logs| ==> logs[i].chainID == chainID)
    && forall i, j :: 0 <= i < j < |logs| ==> logs[i].block <= logs[j].block
  }

  /** Log k is the last one about the name, and log i the first one about it in that block. */
  ghost predicate LastBlock(logs: seq<BoundLog>, h: Word, i: nat, k: nat) {
    && i <= k < |logs| && logs[i].namehash == h && logs[k].namehash == h && logs[i].block == logs[k].block
    && (forall j :: k < j < |logs| ==> logs[j].namehash != h)
    && forall j :: 0 <= j < i ==> !(logs[j].namehash == h && logs[j].block == logs[k].block)
  }

  lemma {:induction false} LastIndex(logs: seq<BoundLog>, h: Word, i: nat) returns (k: nat)
    requires i < |logs| && logs[i].namehash == h
    ensures i <= k < |logs| && logs[k].namehash == h && forall j :: k < j < |logs| ==> logs[j].namehash != h
  {
    var n := |logs| - 1;
    if logs[n].namehash == h {
      k := n;
    } else {
      k := LastIndex(logs[..n], h, i);
    }
  }

  lemma RepeatsOfLog(logs: seq<BoundLog>, k: nat)
    requires k < |logs|
    ensures Repeats(EventId, Events(logs), k) <==> exists j :: 0 <= j < k && SameId(logs[j], logs[k])
  {
    forall j | 0 <= j < k
      ensures EventId(Events(logs)[j]) == EventId(Events(logs)[k]) <==> SameId(logs[j], logs[k])
    {
      IdsOfLogs(logs[j], logs[k]);
    }
  }

  /** One more log is handled unless one with its id was there before. */
  lemma FirstsSnoc(logs: seq<BoundLog>)
    requires logs != []
    ensures var n := |logs| - 1;
            FirstOccurrences(EventId, false, Events(logs)) ==
            FirstOccurrences(EventId, false, Events(logs[..n])) +
            if exists j :: 0 <= j < n && SameId(logs[j], logs[n]) then [] else [Published(logs[n])]
  {
    var n := |logs| - 1;
    assert Events(logs)[..n] == Events(logs[..n]);
    RepeatsOfLog(logs, n);
  }

  lemma LastEventSnoc(events: seq<NameBoundEvent>, e: NameBoundEvent, h: Word, chainID: nat)
    ensures LastEvent(events + [e], h, chainID) ==
            if e.namehash == h && e.chainID == chainID then Some(e.resolver) else LastEvent(events, h, chainID)
  {
    assert (events + [e])[..|events|] == events;
  }

  predicate Kept(logs: seq<BoundLog>)
    requires logs != []
  {
    var n := |logs| - 1;
    !exists j :: 0 <= j < n && SameId(logs[j], logs[n])
  }

  /** The last log of a name that is no repeat. */
  function Shown(logs: seq<BoundLog>, h: Word, chainID: nat): Option<Address> {
    if logs == [] then None
    else
      var l := logs[|logs| - 1];
      if Kept(logs) && l.namehash == h && l.chainID == chainID then Some(l.resolver)
      else Shown(logs[..|logs| - 1], h, chainID)
  }

  lemma FirstsOneMore(logs: seq<BoundLog>, h: Word, chainID: nat)
    requires logs != []
    ensures var l := logs[|logs| - 1];
            LastEvent(FirstOccurrences(EventId, false, Events(logs)), h, chainID) ==
            if Kept(logs) && l.namehash == h && l.chainID == chainID then Some(l.resolver)
            else LastEvent(FirstOccurrences(EventId, false, Events(logs[..|logs| - 1])), h, chainID)
  {
    var n := |logs| - 1;
    FirstsSnoc(logs);
    var firsts := FirstOccurrences(EventId, false, Events(logs[..n]));
    if Kept(logs) {
      LastEventSnoc(firsts, Published(logs[n]), h, chainID);
    } else {
      assert firsts + [] == firsts;
    }
  }

  lemma {:induction false} FirstsShow(logs: seq<BoundLog>, h: Word, chainID: nat)
    ensures LastEvent(FirstOccurrences(EventId, false, Events(logs)), h, chainID) == Shown(logs, h, chainID)
  {
    if logs != [] {
      FirstsShow(logs[..|logs| - 1], h, chainID);
      FirstsOneMore(logs, h, chainID);
    }
  }

  /** Without its last log, if that repeats an id, the name's last block begins with the same log. */
  lemma LastBlockBefore(logs: seq<BoundLog>, chainID: nat, h: Word, i: nat, k: nat) returns (k': nat)
    requires InBlockOrder(logs, chainID) && LastBlock(logs, h, i, k) && i < |logs| - 1
    ensures LastBlock(logs[..|logs| - 1], h, i, k')
  {
    if k < |logs| - 1 {
      k' := k;
    } else {
      k' := LastIndex(logs[..|logs| - 1], h, i);
    }
    assert logs[i].block <= logs[k'].block <= logs[k].block;
  }

  lemma {:induction false} FirstOfBlockIsShown(logs: seq<BoundLog>, chainID: nat, h: Word, i: nat, k: nat)
    requires InBlockOrder(logs, chainID) && LastBlock(logs, h, i, k)
    ensures Shown(logs, h, chainID) == Some(logs[i].resolver)
    decreases |logs|
  {
    var n := |logs| - 1;
    if i < n {
      var k' := LastBlockBefore(logs, chainID, h, i, k);
      FirstOfBlockIsShown(logs[..n], chainID, h, i, k');
      assert k == n ==> SameId(logs[i], logs[n]);
    }
  }

  /** What is left of the logs when repeated ids are dropped: for each name, the last one is the first of
      the last block. */
  lemma FirstOfBlockIsLast(logs: seq<BoundLog>, chainID: nat, h: Word, i: nat, k: nat)
    requires InBlockOrder(logs, chainID) && LastBlock(logs, h, i, k)
    ensures LastEvent(FirstOccurrences(EventId, false, Events(logs)), h, chainID) == Some(logs[i].resolver)
  {
    FirstOfBlockIsShown(logs, chainID, h, i, k);
    FirstsShow(logs, h, chainID);
  }

  lemma {:induction false} FirstsAreEvents(events: seq<NameBoundEvent>, h: Word, chainID: nat)
    requires LastEvent(FirstOccurrences(EventId, false, events), h, chainID).Some?
    ensures LastEvent(events, h, chainID).Some?
  {
    var before, e := events[..|events| - 1], events[|events| - 1];
    LastEventSnoc(FirstOccurrences(EventId, false, before), e, h, chainID);
    assert FirstOccurrences(EventId, false, before) + [] == FirstOccurrences(EventId, false, before);
    if !(e.namehash == h && e.chainID == chainID) {
      FirstsAreEvents(before, h, chainID);
    }
  }

  // ----- from the contract to the node -----

  /** A transaction and the block it is in. */
  datatype Mined = Mined(block: nat, tx: Registry.Tx)

  function Txs(mined: seq<Mined>): seq<Registry.Tx> {
    seq(|mined|, i requires 0 <= i < |mined| => mined[i].tx)
  }

  /** The NameBound logs among the events of a transaction. */
  function LogsIn(chainID: nat, block: nat, events: seq<Registry.Event>): seq<BoundLog> {
    if events == [] then []
    else
      var e := events[|events| - 1];
      LogsIn(chainID, block, events[..|events| - 1]) +
      if e.NameBound? then [BoundLog(chainID, block, e.namehash, e.resolver, e.expiresAt)] else []
  }

  /** The NameBound logs of a run from the contract's creation, in order. */
  function LogsOf(c: Registry.Chain, chainID: nat, mined: seq<Mined>): seq<BoundLog> {
    if mined == [] then []
    else
      var before, last := mined[..|mined| - 1], mined[|mined| - 1];
      LogsOf(c, chainID, before) +
      LogsIn(chainID, last.block, Registry.EventsOf(c, Registry.Run(c, Registry.EMPTY, Txs(before)), last.tx))
  }

  /** Blocks follow one another. */
  ghost predicate BlocksInOrder(mined: seq<Mined>) {
    forall i, j :: 0 <= i < j < |mined| ==> mined[i].block <= mined[j].block
  }

  lemma {:induction false} LogsInBlock(chainID: nat, block: nat, events: seq<Registry.Event>)
    ensures forall l :: l in LogsIn(chainID, block, events) ==> l.chainID == chainID && l.block == block
  {
    if events != [] {
      LogsInBlock(chainID, block, events[..|events| - 1]);
    }
  }

  lemma {:induction false} LogsInOrder(c: Registry.Chain, chainID: nat, mined: seq<Mined>)
    requires BlocksInOrder(mined)
    ensures InBlockOrder(LogsOf(c, chainID, mined), chainID)
    ensures forall l :: l in LogsOf(c, chainID, mined) ==> mined != [] && l.block <= mined[|mined| - 1].block
  {
    if mined != [] {
      var before, last := mined[..|mined| - 1], mined[|mined| - 1];
      LogsInOrder(c, chainID, before);
      LogsInBlock(chainID, last.block, Registry.EventsOf(c, Registry.Run(c, Registry.EMPTY, Txs(before)), last.tx));
    }
  }

  /** The last log of a name. */
  function LastLog(logs: seq<BoundLog>, h: Word): Option<(Address, nat)> {
    if logs == [] then None
    else
      var l := logs[|logs| - 1];
      if l.namehash == h then Some((l.resolver, l.expiresAt)) else LastLog(logs[..|logs| - 1], h)
  }

  lemma {:induction false} LastLogAppend(logs: seq<BoundLog>, more: seq<BoundLog>, h: Word)
    ensures LastLog(logs + more, h) == if LastLog(more, h).Some? then LastLog(more, h) else LastLog(logs, h)
  {
    if more == [] {
      assert logs + more == logs;
    } else {
      var n := |more| - 1;
      assert (logs + more)[..|logs + more| - 1] == logs + more[..n];
      LastLogAppend(logs, more[..n], h);
    }
  }

  /** The expiry in 64 bits, as a number. */
  function Told(bound: Option<(Address, Digest.Uint64)>): Option<(Address, nat)> {
    match bound
    case None => None
    case Some((resolver, expiresAt)) => Some((resolver, expiresAt))
  }

  lemma {:induction false} LastLogIn(chainID: nat, block: nat, events: seq<Registry.Event>, h: Word)
    ensures LastLog(LogsIn(chainID, block, events), h) == Told(Registry.LastBound(events, h))
  {
    if events != [] {
      var before, e := events[..|events| - 1], events[|events| - 1];
      LastLogIn(chainID, block, before, h);
      if e.NameBound? {
        var logs := LogsIn(chainID, block, events);
        assert logs[..|logs| - 1] == LogsIn(chainID, block, before);
      } else {
        assert LogsIn(chainID, block, events) == LogsIn(chainID, block, before);
      }
    }
  }

  lemma {:induction false} LastLogOf(c: Registry.Chain, chainID: nat, mined: seq<Mined>, h: Word)
    ensures LastLog(LogsOf(c, chainID, mined), h) ==
              Told(Registry.LastBound(Registry.Log(c, Registry.EMPTY, Txs(mined)), h))
  {
    if mined != [] {
      var before, last := mined[..|mined| - 1], mined[|mined| - 1];
      var txs := Txs(mined);
      assert txs[..|txs| - 1] == Txs(before);
      var s := Registry.Run(c, Registry.EMPTY, Txs(before));
      var events := Registry.EventsOf(c, s, last.tx);
      LastLogOf(c, chainID, before, h);
      LastLogIn(chainID, last.block, events, h);
      LastLogAppend(LogsOf(c, chainID, before), LogsIn(chainID, last.block, events), h);
      Registry.LastBoundAppend(Registry.Log(c, Registry.EMPTY, Txs(before)), events, h);
    }
  }

  lemma {:induction false} LastLogIs(logs: seq<BoundLog>, h: Word, k: nat)
    requires k < |logs| && logs[k].namehash == h && forall j :: k < j < |logs| ==> logs[j].namehash != h
    ensures LastLog(logs, h) == Some((logs[k].resolver, logs[k].expiresAt))
  {
    if k < |logs| - 1 {
      LastLogIs(logs[..|logs| - 1], h, k);
    }
  }

  /** De-duplication leaves of the stream what it leaves of the logs. */
  ghost predicate Delivers(stream: seq<BoundLog>, logs: seq<BoundLog>) {
    FirstOccurrences(EventId, false, Events(stream)) == FirstOccurrences(EventId, false, Events(logs))
  }

  /** A node that has handled the logs of a run answers for a name with the first binding logged in the
      name's last block, and with an active binding's resolver exactly when that is the one. */
  lemma DeliveredIsShown(c: Registry.Chain, N: Store.Naming, text: Texts, v: Store.View, chainID: nat,
                              mined: seq<Mined>, stream: seq<BoundLog>, h: Word, i: nat, k: nat)
    requires BlocksInOrder(mined) && Delivers(stream, LogsOf(c, chainID, mined)) && WritesHex(text)
    requires Lifecycle.Inv(N, v) && Known(v, h) && LastBlock(LogsOf(c, chainID, mined), h, i, k)
    ensures var logs := LogsOf(c, chainID, mined);
            var b := Registry.BindingOf(Registry.Run(c, Registry.EMPTY, Txs(mined)), h);
            var answer := Answer(N, BindAll(N, text, v, Fresh(EventId, false, {}, Events(stream))), h, chainID);
            && answer == Some(text(logs[i].resolver))
            && (b.status == Registry.Active ==>
                  (answer == Some(text(b.resolver)) <==> logs[i].resolver == logs[k].resolver))
  {
    var logs := LogsOf(c, chainID, mined);
    LogsInOrder(c, chainID, mined);
    FreshIsFirstOccurrences(EventId, false, Events(stream));
    FirstOfBlockIsLast(logs, chainID, h, i, k);
    BindAllAnswers(N, text, v, Fresh(EventId, false, {}, Events(stream)), h, chainID);
    Registry.EventsTellActiveBindings(c, Txs(mined), h);
    LastLogOf(c, chainID, mined, h);
    LastLogIs(logs, h, k);
    if text(logs[i].resolver) == text(logs[k].resolver) {
      TextsDiffer(text, logs[i].resolver, logs[k].resolver);
    }
  }

  /** What the de-duplication is for: without it a node answers with whatever was delivered last, so the
      two agree exactly when the last delivery for the name tells the resolver of its last block's first
      log.  A log delivered again after a newer one makes them differ. */
  lemma WithAndWithoutRepeats(N: Store.Naming, text: Texts, v: Store.View, chainID: nat, logs: seq<BoundLog>,
                            stream: seq<BoundLog>, h: Word, i: nat, k: nat)
    requires InBlockOrder(logs, chainID) && Delivers(stream, logs) && LastBlock(logs, h, i, k) && WritesHex(text)
    requires Lifecycle.Inv(N, v) && Known(v, h)
    ensures var once := Answer(N, BindAll(N, text, v, Fresh(EventId, false, {}, Events(stream))), h, chainID);
            var each := Answer(N, BindAll(N, text, v, Events(stream)), h, chainID);
            && once == Some(text(logs[i].resolver))
            && (once == each <==> LastEvent(Events(stream), h, chainID) == Some(logs[i].resolver))
  {
    FreshIsFirstOccurrences(EventId, false, Events(stream));
    FirstOfBlockIsLast(logs, chainID, h, i, k);
    FirstsAreEvents(Events(stream), h, chainID);
    BindAllAnswers(N, text, v, Fresh(EventId, false, {}, Events(stream)), h, chainID);
    BindAllAnswers(N, text, v, Events(stream), h, chainID);
    var last := LastEvent(Events(stream), h, chainID).value;
    if text(last) == text(logs[i].resolver) {
      TextsDiffer(text, last, logs[i].resolver);
    }
  }

  // ----- a binding that is lost -----

  /** A transaction that goes through adds its events' logs. */
  lemma LogsSnoc(c: Registry.Chain, chainID: nat, mined: seq<Mined>, m: Mined, s: Registry.State, s': Registry.State,
                 events: seq<Registry.Event>)
    requires Registry.Run(c, Registry.EMPTY, Txs(mined)) == s && Registry.Exec(c, s, m.tx) == Registry.Done(s', events)
    ensures Registry.Run(c, Registry.EMPTY, Txs(mined + [m])) == s'
    ensures LogsOf(c, chainID, mined + [m]) == LogsOf(c, chainID, mined) + LogsIn(chainID, m.block, events)
  {
    assert (mined + [m])[..|mined|] == mined;
    var txs := Txs(mined + [m]);
    assert txs == Txs(mined) + [m.tx] && txs[..|txs| - 1] == Txs(mined);
  }

  lemma LogsOfOne(c: Registry.Chain, chainID: nat, m: Mined, s: Registry.State, events: seq<Registry.Event>)
    requires Registry.Exec(c, Registry.EMPTY, m.tx) == Registry.Done(s, events)
    ensures Registry.Run(c, Registry.EMPTY, Txs([m])) == s
    ensures LogsOf(c, chainID, [m]) == LogsIn(chainID, m.block, events)
  {
    assert Txs([]) == [] && [] + [m] == [m];
    LogsSnoc(c, chainID, [], m, Registry.EMPTY, s, events);
  }

  lemma LogsOfThree(c: Registry.Chain, chainID: nat, m1: Mined, m2: Mined, m3: Mined,
                    s1: Registry.State, s2: Registry.State, s3: Registry.State,
                    e1: seq<Registry.Event>, e2: seq<Registry.Event>, e3: seq<Registry.Event>)
    requires Registry.Exec(c, Registry.EMPTY, m1.tx) == Registry.Done(s1, e1)
    requires Registry.Exec(c, s1, m2.tx) == Registry.Done(s2, e2)
             && Registry.Exec(c, s2, m3.tx) == Registry.Done(s3, e3)
    ensures Registry.Run(c, Registry.EMPTY, Txs([m1] + [m2] + [m3])) == s3
    ensures LogsOf(c, chainID, [m1] + [m2] + [m3]) ==
            LogsIn(chainID, m1.block, e1) + LogsIn(chainID, m2.block, e2) + LogsIn(chainID, m3.block, e3)
  {
    LogsOfOne(c, chainID, m1, s1, e1);
    LogsSnoc(c, chainID, [m1], m2, s1, s2, e2);
    LogsSnoc(c, chainID, [m1] + [m2], m3, s2, s3, e3);
  }

  lemma LogsOfTwo(chainID: nat, block: nat, d: Registry.Event, e: Registry.Event)
    ensures LogsIn(chainID, block, []) == []
    ensures LogsIn(chainID, block, [e]) ==
            if e.NameBound? then [BoundLog(chainID, block, e.namehash, e.resolver, e.expiresAt)] else []
    ensures LogsIn(chainID, block, [d] + [e]) == LogsIn(chainID, block, [d]) + LogsIn(chainID, block, [e])
  {
    assert [e][..0] == [] && ([d] + [e])[..1] == [d];
  }

  /** A submission, its acceptance in a later block, and in the same block the signer's new resolver. */
  function Rebinding(c: Registry.Chain, submit: Registry.Call, signer: Address, newer: Address, t: nat, u: nat,
                     block: nat)
    : seq<Mined>
    requires submit.SubmitBinding?
  {
    [Mined(block, Registry.Tx(t, signer, submit))]
    + [Mined(block + 1, Registry.Tx(u, c.owner, Registry.OracleDecideSigner(submit.h, signer, true)))]
    + [Mined(block + 1, Registry.Tx(u, signer, Registry.UpdateResolver(submit.h, newer)))]
  }

  /** The three states in turn. */
  function Rebound(submit: Registry.Call, signer: Address, newer: Address): seq<Registry.State>
    requires submit.SubmitBinding?
  {
    var b := Registry.Binding(submit.resolver, submit.expiresAt, signer, Registry.Pending);
    var active := b.(status := Registry.Active);
    [Registry.State(map[submit.h := b], map[]),
     Registry.State(map[submit.h := active], map[submit.h := signer]),
     Registry.State(map[submit.h := active.(resolver := newer)], map[submit.h := signer])]
  }

  lemma RebindingExecs(c: Registry.Chain, submit: Registry.Call, newer: Address, t: nat, u: nat)
    requires submit.SubmitBinding? && submit.timestamp == t && t + Registry.MAX_TIME_DRIFT < Digest.TWO_64
    requires 0 < t <= u < submit.expiresAt && Registry.RecoveredSigner(c, submit).Some?
    ensures var h, signer := submit.h, Registry.RecoveredSigner(c, submit).value;
            var states := Rebound(submit, signer, newer);
            && Registry.Exec(c, Registry.EMPTY, Registry.Tx(t, signer, submit)) ==
               Registry.Done(states[0], [Registry.SubmittedBinding(h, signer, submit.expiresAt)])
            && Registry.Exec(c, states[0], Registry.Tx(u, c.owner, Registry.OracleDecideSigner(h, signer, true))) ==
               Registry.Done(states[1], [Registry.SignerBound(h, signer)]
                                        + [Registry.NameBound(h, submit.resolver, submit.expiresAt)])
            && Registry.Exec(c, states[1], Registry.Tx(u, signer, Registry.UpdateResolver(h, newer))) ==
               Registry.Done(states[2], [Registry.NameBound(h, newer, submit.expiresAt)])
  {
    var signer := Registry.RecoveredSigner(c, submit).value;
    assert map[submit.h := Registry.Binding(submit.resolver, submit.expiresAt, signer, Registry.Pending)]
             [submit.h := Registry.Binding(submit.resolver, submit.expiresAt, signer, Registry.Active)]
        == map[submit.h := Registry.Binding(submit.resolver, submit.expiresAt, signer, Registry.Active)];
  }

  lemma RebindingLogs(c: Registry.Chain, submit: Registry.Call, newer: Address, t: nat, u: nat, block: nat,
                      chainID: nat)
    requires submit.SubmitBinding? && submit.timestamp == t && t + Registry.MAX_TIME_DRIFT < Digest.TWO_64
    requires 0 < t <= u < submit.expiresAt && Registry.RecoveredSigner(c, submit).Some?
    ensures var signer := Registry.RecoveredSigner(c, submit).value;
            var mined := Rebinding(c, submit, signer, newer, t, u, block);
            && LogsOf(c, chainID, mined) == [BoundLog(chainID, block + 1, submit.h, submit.resolver, submit.expiresAt)]
                                            + [BoundLog(chainID, block + 1, submit.h, newer, submit.expiresAt)]
            && Registry.Run(c, Registry.EMPTY, Txs(mined)) == Rebound(submit, signer, newer)[2]
  {
    var h, signer := submit.h, Registry.RecoveredSigner(c, submit).value;
    var m1 := Mined(block, Registry.Tx(t, signer, submit));
    var m2 := Mined(block + 1, Registry.Tx(u, c.owner, Registry.OracleDecideSigner(h, signer, true)));
    var m3 := Mined(block + 1, Registry.Tx(u, signer, Registry.UpdateResolver(h, newer)));
    var states := Rebound(submit, signer, newer);
    RebindingExecs(c, submit, newer, t, u);
    var submitted, decided := Registry.SubmittedBinding(h, signer, submit.expiresAt), Registry.SignerBound(h, signer);
    var bound := Registry.NameBound(h, submit.resolver, submit.expiresAt);
    var rebound := Registry.NameBound(h, newer, submit.expiresAt);
    LogsOfThree(c, chainID, m1, m2, m3, states[0], states[1], states[2], [submitted], [decided] + [bound], [rebound]);
    LogsOfTwo(chainID, block, decided, submitted);
    LogsOfTwo(chainID, block + 1, decided, bound);
    LogsOfTwo(chainID, block + 1, bound, decided);
    LogsOfTwo(chainID, block + 1, bound, rebound);
  }

  lemma RebindingInOrder(c: Registry.Chain, submit: Registry.Call, signer: Address, newer: Address, t: nat, u: nat,
                         block: nat)
    requires submit.SubmitBinding?
    ensures BlocksInOrder(Rebinding(c, submit, signer, newer, t, u, block))
  {
  }

  lemma RebindingBlocks(c: Registry.Chain, submit: Registry.Call, newer: Address, t: nat, u: nat, block: nat,
                        chainID: nat)
    requires submit.SubmitBinding?
    ensures var logs := [BoundLog(chainID, block + 1, submit.h, submit.resolver, submit.expiresAt)]
                        + [BoundLog(chainID, block + 1, submit.h, newer, submit.expiresAt)];
            && LastBlock(logs, submit.h, 0, 1)
            && |Events(logs)| == 2 && EventId(Events(logs)[0]) == EventId(Events(logs)[1])
            && (Events(logs)[0] == Events(logs)[1] <==> newer == submit.resolver)
  {
    var older := BoundLog(chainID, block + 1, submit.h, submit.resolver, submit.expiresAt);
    IdsOfLogs(older, older.(resolver := newer));
  }

  /** The run, its logs and its last state. */
  lemma RebindingRun(c: Registry.Chain, submit: Registry.Call, newer: Address, t: nat, u: nat, block: nat, chainID: nat)
    returns (mined: seq<Mined>)
    requires submit.SubmitBinding? && submit.timestamp == t && t + Registry.MAX_TIME_DRIFT < Digest.TWO_64
    requires 0 < t <= u < submit.expiresAt && Registry.RecoveredSigner(c, submit).Some?
    ensures BlocksInOrder(mined)
    ensures var logs := LogsOf(c, chainID, mined);
            && LastBlock(logs, submit.h, 0, 1) && |Events(logs)| == 2
            && logs[0].resolver == submit.resolver && logs[1].resolver == newer
            && EventId(Events(logs)[0]) == EventId(Events(logs)[1])
            && (Events(logs)[0] == Events(logs)[1] <==> newer == submit.resolver)
    ensures Registry.Resolve(Registry.Run(c, Registry.EMPTY, Txs(mined)), submit.h, u) == newer
  {
    mined := Rebinding(c, submit, Registry.RecoveredSigner(c, submit).value, newer, t, u, block);
    RebindingLogs(c, submit, newer, t, u, block, chainID);
    RebindingInOrder(c, submit, Registry.RecoveredSigner(c, submit).value, newer, t, u, block);
    RebindingBlocks(c, submit, newer, t, u, block, chainID);
  }

  /** Two bindings of a name in one block share their id, and the contract does make them: a binding is
      accepted and its signer changes the resolver in the same block.  The second event is dropped, and
      a node answers with the old resolver while the contract resolves the name to the new one. */
  lemma SameBlockUpdateIsLost(c: Registry.Chain, N: Store.Naming, text: Texts, v: Store.View, chainID: nat,
                              submit: Registry.Call, newer: Address, t: nat, u: nat, block: nat)
    returns (mined: seq<Mined>)
    requires submit.SubmitBinding? && submit.timestamp == t && t + Registry.MAX_TIME_DRIFT < Digest.TWO_64
    requires 0 < t <= u < submit.expiresAt && Registry.RecoveredSigner(c, submit).Some?
    requires newer != submit.resolver && WritesHex(text) && Lifecycle.Inv(N, v) && Known(v, submit.h)
    ensures var events := Events(LogsOf(c, chainID, mined));
            var answer := Answer(N, BindAll(N, text, v, Fresh(EventId, false, {}, events)), submit.h, chainID);
            && BlocksInOrder(mined)
            && |events| == 2 && events[0] != events[1] && EventId(events[0]) == EventId(events[1])
            && Registry.Resolve(Registry.Run(c, Registry.EMPTY, Txs(mined)), submit.h, u) == newer
            && answer == Some(text(submit.resolver)) && answer != Some(text(newer))
  {
    mined := RebindingRun(c, submit, newer, t, u, block, chainID);
    DeliveredIsShown(c, N, text, v, chainID, mined, LogsOf(c, chainID, mined), submit.h, 0, 1);
    if text(submit.resolver) == text(newer) {
      TextsDiffer(text, submit.resolver, newer);
    }
  }
}
