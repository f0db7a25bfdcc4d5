/** core/gossip.go: the receiving loops that drop messages they have seen. */
module Gossip {
  import opened Bytes
  import opened Options
  datatype NameBoundEvent = NameBoundEvent(
    namehash: Word, resolver: Address, expiresAt: nat, chainID: nat, eventID: Bytes)

  datatype RecordMessage = RecordMessage(kind: Bytes, domains: seq<Bytes>, messageID: Bytes)

  /** The items handled from a stream when ids already seen are dropped; without an id an item is dropped
      or kept according to keepAnonymous. */
  function Fresh<T>(id: T -> Bytes, keepAnonymous: bool, seen: set<Bytes>, items: seq<T>): seq<T>
    decreases |items|
  {
    if items == [] then []
    else
      var i := id(items[0]);
      if keepAnonymous && i == "" then [items[0]] + Fresh(id, keepAnonymous, seen, items[1..])
      else if i in seen then Fresh(id, keepAnonymous, seen, items[1..])
      else [items[0]] + Fresh(id, keepAnonymous, seen + {i}, items[1..])
  }

  /** What can be decoded of a stream of messages. */
  function Decoded<T>(stream: seq<Option<T>>): seq<T> {
    if stream == [] then []
    else (if stream[0].Some? then [stream[0].value] else []) + Decoded(stream[1..])
  }

  lemma DecodedStep<T>(stream: seq<Option<T>>, k: nat)
    requires k < |stream|
    ensures Decoded(stream[k..]) ==
            if stream[k].Some? then [stream[k].value] + Decoded(stream[k + 1..]) else Decoded(stream[k + 1..])
  {
    assert stream[k..][1..] == stream[k + 1..];
  }

  lemma FreshStep<T>(id: T -> Bytes, keepAnonymous: bool, seen: set<Bytes>, x: T, rest: seq<T>)
    ensures Fresh(id, keepAnonymous, seen, [x] + rest) ==
            if keepAnonymous && id(x) == "" then [x] + Fresh(id, keepAnonymous, seen, rest)
            else if id(x) in seen then Fresh(id, keepAnonymous, seen, rest)
            else [x] + Fresh(id, keepAnonymous, seen + {id(x)}, rest)
  {
    assert ([x] + rest)[1..] == rest;
  }

  function EventId(e: NameBoundEvent): Bytes {
    e.eventID
  }

  function MessageId(m: RecordMessage): Bytes {
    m.messageID
  }

  class GossipManager {
    var eventSeen: set<Bytes>
    var messageSeen: set<Bytes>

    constructor ()
      ensures eventSeen == {} && messageSeen == {}
    {
      eventSeen, messageSeen := {}, {};
    }

    method ListenNameBound(stream: seq<Option<NameBoundEvent>>) returns (handled: seq<NameBoundEvent>)
      modifies `eventSeen
      ensures handled == Fresh(EventId, false, old(eventSeen), Decoded(stream))
      ensures forall i :: i in eventSeen <==> i in old(eventSeen) || exists e :: e in Decoded(stream) && e.eventID == i
    {
      handled := [];
      for k := 0 to |stream|
        invariant handled + Fresh(EventId, false, eventSeen, Decoded(stream[k..]))
               == Fresh(EventId, false, old(eventSeen), Decoded(stream))
        invariant forall i :: i in eventSeen || (exists e :: e in Decoded(stream[k..]) && e.eventID == i)
                         <==> i in old(eventSeen) || exists e :: e in Decoded(stream) && e.eventID == i
      {
        DecodedStep(stream, k);
        match stream[k]
        case None =>
        case Some(evt) =>
          FreshStep(EventId, false, eventSeen, evt, Decoded(stream[k + 1..]));
          if evt.eventID !in eventSeen {
            eventSeen := eventSeen + {evt.eventID};
            assert forall more :: handled + ([evt] + more) == handled + [evt] + more;
            handled := handled + [evt];
          }
      }
    }

    method ListenRecordMessages(stream: seq<Option<RecordMessage>>) returns (handled: seq<RecordMessage>)
      modifies `messageSeen
      ensures handled == Fresh(MessageId, true, old(messageSeen), Decoded(stream))
      ensures forall i :: i in messageSeen <==>
                i in old(messageSeen) || (i != "" && exists m :: m in Decoded(stream) && m.messageID == i)
    {
      handled := [];
      for k := 0 to |stream|
        invariant handled + Fresh(MessageId, true, messageSeen, Decoded(stream[k..]))
               == Fresh(MessageId, true, old(messageSeen), Decoded(stream))
        invariant forall i :: i in messageSeen || (i != "" && exists m :: m in Decoded(stream[k..]) && m.messageID == i)
                         <==> i in old(messageSeen) || (i != "" && exists m :: m in Decoded(stream) && m.messageID == i)
      {
        DecodedStep(stream, k);
        match stream[k]
        case None =>
        case Some(msg) =>
          FreshStep(MessageId, true, messageSeen, msg, Decoded(stream[k + 1..]));
          if msg.messageID != "" {
            if msg.messageID in messageSeen {
              continue;
            }
            messageSeen := messageSeen + {msg.messageID};
          }
          assert forall more :: handled + ([msg] + more) == handled + [msg] + more;
          handled := handled + [msg];
      }
    }
  }

  // ----- first occurrences -----

  /** An earlier item has the same id. */
  ghost predicate Repeats<T>(id: T -> Bytes, items: seq<T>, k: nat)
    requires k < |items|
  {
    exists j :: 0 <= j < k && id(items[j]) == id(items[k])
  }

  /** The items without those that repeat an id, in order; anonymous ones are all kept if so asked. */
  ghost function FirstOccurrences<T>(id: T -> Bytes, keepAnonymous: bool, items: seq<T>): seq<T> {
    if items == [] then []
    else
      var n := |items| - 1;
      var kept := (keepAnonymous && id(items[n]) == "") || !Repeats(id, items, n);
      FirstOccurrences(id, keepAnonymous, items[..n]) + (if kept then [items[n]] else [])
  }

  ghost predicate Covered<T>(id: T -> Bytes, seen: set<Bytes>, items: seq<T>, i: Bytes) {
    i in seen || exists j :: 0 <= j < |items| && id(items[j]) == i
  }

  lemma {:induction false} FreshSnoc<T>(id: T -> Bytes, keepAnonymous: bool, seen: set<Bytes>, items: seq<T>, x: T)
    ensures Fresh(id, keepAnonymous, seen, items + [x]) == Fresh(id, keepAnonymous, seen, items) +
            if keepAnonymous && id(x) == "" then [x] else if Covered(id, seen, items, id(x)) then [] else [x]
    decreases |items|
  {
    if items == [] {
      assert [x][1..] == [];
    } else {
      assert (items + [x])[1..] == items[1..] + [x];
      var i := id(items[0]);
      var seen' := if keepAnonymous && i == "" then seen else seen + {i};
      FreshSnoc(id, keepAnonymous, seen', items[1..], x);
      CoveredStep(id, seen, items, id(x));
      if i in seen {
        assert seen + {i} == seen;
      }
      if keepAnonymous && i == "" && id(x) != "" {
        CoveredIgnores(id, seen, i, items[1..], id(x));
      }
    }
  }

  lemma CoveredStep<T>(id: T -> Bytes, seen: set<Bytes>, items: seq<T>, i: Bytes)
    requires items != []
    ensures Covered(id, seen, items, i) <==> Covered(id, seen + {id(items[0])}, items[1..], i)
  {
    if Covered(id, seen, items, i) && i !in seen && id(items[0]) != i {
      var j :| 0 <= j < |items| && id(items[j]) == i;
      assert items[1..][j - 1] == items[j];
    }
  }

  lemma CoveredIgnores<T>(id: T -> Bytes, seen: set<Bytes>, other: Bytes, items: seq<T>, i: Bytes)
    requires i != other
    ensures Covered(id, seen + {other}, items, i) <==> Covered(id, seen, items, i)
  {
  }

  /** What the loop handles are exactly the first occurrences, in order. */
  lemma {:induction false} FreshIsFirstOccurrences<T>(id: T -> Bytes, keepAnonymous: bool, items: seq<T>)
    ensures Fresh(id, keepAnonymous, {}, items) == FirstOccurrences(id, keepAnonymous, items)
  {
    if items != [] {
      var n := |items| - 1;
      assert items == items[..n] + [items[n]];
      FreshIsFirstOccurrences(id, keepAnonymous, items[..n]);
      FreshSnoc(id, keepAnonymous, {}, items[..n], items[n]);
      assert forall j :: 0 <= j < n ==> items[..n][j] == items[j];
      assert Covered(id, {}, items[..n], id(items[n])) <==> Repeats(id, items, n);
    }
  }

  lemma {:induction false} FreshIds<T>(id: T -> Bytes, seen: set<Bytes>, items: seq<T>)
    ensures var handled := Fresh(id, false, seen, items);
            && (forall k :: 0 <= k < |handled| ==> id(handled[k]) !in seen)
            && Fresh(id, false, seen, handled) == handled
    decreases |items|
  {
    if items != [] {
      var i := id(items[0]);
      if i in seen {
        FreshIds(id, seen, items[1..]);
      } else {
        FreshIds(id, seen + {i}, items[1..]);
        var rest := Fresh(id, false, seen + {i}, items[1..]);
        assert ([items[0]] + rest)[1..] == rest;
      }
    }
  }

  /** Going through what was handled once more handles all of it. */
  lemma HandledOnce<T>(id: T -> Bytes, items: seq<T>)
    ensures Fresh(id, false, {}, FirstOccurrences(id, false, items)) == FirstOccurrences(id, false, items)
  {
    FreshIsFirstOccurrences(id, false, items);
    FreshIds(id, {}, items);
  }

  lemma {:induction false} HandledAreFirst<T>(id: T -> Bytes, items: seq<T>, x: T)
    ensures x in FirstOccurrences(id, false, items) <==>
            exists k :: 0 <= k < |items| && items[k] == x && !Repeats(id, items, k)
  {
    if items != [] {
      var n := |items| - 1;
      HandledAreFirst(id, items[..n], x);
      forall k | 0 <= k < n
        ensures Repeats(id, items[..n], k) <==> Repeats(id, items, k)
      {
        assert forall j :: 0 <= j < n ==> items[..n][j] == items[j];
      }
      assert forall k :: 0 <= k < n ==> items[..n][k] == items[k];
    }
  }

  /** Items with one id are one item. */
  ghost predicate TellsApart<T>(id: T -> Bytes, items: seq<T>) {
    forall i, j :: 0 <= i < |items| && 0 <= j < |items| && id(items[i]) == id(items[j]) ==> items[i] == items[j]
  }

  lemma LostWithoutDistinctIds<T>(id: T -> Bytes, items: seq<T>)
    requires !TellsApart(id, items)
    ensures exists x :: x in items && x !in FirstOccurrences(id, false, items)
  {
    var i, j :| 0 <= i < |items| && 0 <= j < |items| && id(items[i]) == id(items[j]) && items[i] != items[j];
    HandledAreFirst(id, items, items[i]);
    HandledAreFirst(id, items, items[j]);
    assert items[i] in items && items[j] in items;
  }

  /** Every item of a stream is handled exactly when items with one id are one item. */
  lemma AllHandledExactlyWhen<T>(id: T -> Bytes, items: seq<T>)
    ensures (forall x :: x in items ==> x in Fresh(id, false, {}, items)) <==> TellsApart(id, items)
  {
    FreshIsFirstOccurrences(id, false, items);
    if TellsApart(id, items) {
      forall x | x in items
        ensures x in FirstOccurrences(id, false, items)
      {
        var k :| 0 <= k < |items| && items[k] == x;
        FirstWithId(id, items, k);
        HandledAreFirst(id, items, x);
      }
    } else {
      LostWithoutDistinctIds(id, items);
    }
  }

  lemma {:induction false} FirstWithId<T>(id: T -> Bytes, items: seq<T>, k: nat)
    requires k < |items|
    ensures exists first :: 0 <= first <= k && id(items[first]) == id(items[k]) && !Repeats(id, items, first)
  {
    if Repeats(id, items, k) {
      var j :| 0 <= j < k && id(items[j]) == id(items[k]);
      FirstWithId(id, items, j);
    }
  }

  ghost predicate HasId<T>(id: T -> Bytes, items: seq<T>, i: Bytes) {
    exists k :: 0 <= k < |items| && id(items[k]) == i
  }

  /** De-duplication keeps every id. */
  lemma FirstsHaveIds<T>(id: T -> Bytes, items: seq<T>, i: Bytes)
    ensures HasId(id, FirstOccurrences(id, false, items), i) <==> HasId(id, items, i)
  {
    var firsts := FirstOccurrences(id, false, items);
    if HasId(id, firsts, i) {
      var k :| 0 <= k < |firsts| && id(firsts[k]) == i;
      HandledAreFirst(id, items, firsts[k]);
    }
    if HasId(id, items, i) {
      var k :| 0 <= k < |items| && id(items[k]) == i;
      FirstWithId(id, items, k);
      var first :| 0 <= first <= k && id(items[first]) == id(items[k]) && !Repeats(id, items, first);
      HandledAreFirst(id, items, items[first]);
      var j :| 0 <= j < |firsts| && firsts[j] == items[first];
    }
  }

  lemma FirstsSnoc<T>(id: T -> Bytes, items: seq<T>, x: T)
    ensures FirstOccurrences(id, false, items + [x]) ==
            FirstOccurrences(id, false, items) + if HasId(id, items, id(x)) then [] else [x]
  {
    var all := items + [x];
    assert all[..|items|] == items && all[|items|] == x;
    assert Repeats(id, all, |items|) <==> HasId(id, items, id(x)) by {
      assert forall j :: 0 <= j < |items| ==> all[j] == items[j];
    }
  }

  lemma {:induction false} DecodedSnoc<T>(stream: seq<Option<T>>, x: Option<T>)
    ensures Decoded(stream + [x]) == Decoded(stream) + if x.Some? then [x.value] else []
  {
    if stream == [] {
      assert [x][1..] == [];
    } else {
      assert (stream + [x])[1..] == stream[1..] + [x];
      DecodedSnoc(stream[1..], x);
      var first, last := if stream[0].Some? then [stream[0].value] else [], if x.Some? then [x.value] else [];
      assert first + (Decoded(stream[1..]) + last) == first + Decoded(stream[1..]) + last;
    }
  }

  /** Registration intents are published without an id, and such messages are never dropped. */
  lemma {:induction false} AnonymousAllHandled(messages: seq<RecordMessage>, seen: set<Bytes>)
    requires forall m :: m in messages ==> m.messageID == ""
    ensures Fresh(MessageId, true, seen, messages) == messages
  {
    if messages != [] {
      AnonymousAllHandled(messages[1..], seen);
    }
  }
}
