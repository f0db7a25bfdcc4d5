/** core/store.go: the domain locks that hosts keep in the shared DHT, and their local copies. */
module Locks {
  import opened Bytes
  import opened Options

  /** fmt.Sprintf("%s-%d", hostID, now): who took the lock and when. */
  datatype LockId = LockId(host: Host, nanos: nat)

  /** Lock values by name.  A name that was never written and one whose value was overwritten with
      the empty value both read as free, so neither is in the table. */
  type Table = map<Bytes, LockId>

  /** What a call on one host sees: the DHT's table and the host's own pendingLocks. */
  datatype Side = Side(shared: Table, mine: Table)

  function Acquire(l: Side, host: Host, name: Bytes, nanos: nat): (Side, Option<LockId>) {
    if name in l.shared then (l, None)
    else
      var id := LockId(host, nanos);
      (Side(l.shared[name := id], l.mine[name := id]), Some(id))
  }

  function Release(l: Side, name: Bytes, id: LockId): (Side, bool) {
    if name !in l.shared || l.shared[name] != id then (l, false)
    else if name in l.mine && l.mine[name] == id then (Side(l.shared - {name}, l.mine - {name}), true)
    else (l.(shared := l.shared - {name}), false)
  }

  // ----- runs of any number of hosts -----

  datatype World = World(shared: Table, local: map<Host, Table>)

  datatype Action =
    | DoAcquire(host: Host, name: Bytes, nanos: nat)
    | DoRelease(host: Host, name: Bytes, id: LockId)

  function LocalOf(w: World, host: Host): Table {
    if host in w.local then w.local[host] else map[]
  }

  function SideOf(w: World, host: Host): Side {
    Side(w.shared, LocalOf(w, host))
  }

  function With(w: World, host: Host, l: Side): World {
    World(l.shared, w.local[host := l.mine])
  }

  predicate Succeeds(w: World, a: Action) {
    match a
    case DoAcquire(host, name, nanos) => Acquire(SideOf(w, host), host, name, nanos).1.Some?
    case DoRelease(host, name, id) => Release(SideOf(w, host), name, id).1
  }

  function Act(w: World, a: Action): World {
    match a
    case DoAcquire(host, name, nanos) => With(w, host, Acquire(SideOf(w, host), host, name, nanos).0)
    case DoRelease(host, name, id) => With(w, host, Release(SideOf(w, host), name, id).0)
  }

  function Run(w: World, actions: seq<Action>): World {
    if actions == [] then w else Act(Run(w, actions[..|actions| - 1]), actions[|actions| - 1])
  }

  /** No acquire of the name in the run succeeds. */
  ghost predicate NeverAcquires(w: World, actions: seq<Action>, name: Bytes) {
    actions != [] ==>
      var n := |actions| - 1;
      && NeverAcquires(w, actions[..n], name)
      && (actions[n].DoAcquire? && actions[n].name == name ==> !Succeeds(Run(w, actions[..n]), actions[n]))
  }

  /** Mutual exclusion: from a successful acquire with an id until a release with that id, the DHT
      entry stands, whatever acquires and releases with other ids any hosts try, and no acquire of the
      name succeeds. */
  lemma {:induction false} HeldUntilReleased(w: World, actions: seq<Action>, name: Bytes, id: LockId)
    requires name in w.shared && w.shared[name] == id
    requires forall i :: 0 <= i < |actions| && actions[i].DoRelease? && actions[i].name == name ==> actions[i].id != id
    ensures var s := Run(w, actions).shared; name in s && s[name] == id
    ensures NeverAcquires(w, actions, name)
  {
    if actions != [] {
      HeldUntilReleased(w, actions[..|actions| - 1], name, id);
    }
  }

  /** Ids carry their host; a lock held in the DHT is in the pendingLocks of the host that took it. */
  ghost predicate Mirrored(w: World) {
    && (forall host, name :: name in LocalOf(w, host) ==> LocalOf(w, host)[name].host == host)
    && (forall name :: name in w.shared ==>
          var taker := LocalOf(w, w.shared[name].host);
          name in taker && taker[name] == w.shared[name])
  }

  lemma AcquireKeepsMirrored(w: World, host: Host, name: Bytes, nanos: nat)
    requires Mirrored(w)
    ensures Mirrored(Act(w, DoAcquire(host, name, nanos)))
  {
    var w' := Act(w, DoAcquire(host, name, nanos));
    assert forall other :: other != host ==> LocalOf(w', other) == LocalOf(w, other);
  }

  lemma ReleaseKeepsMirrored(w: World, host: Host, name: Bytes, id: LockId)
    requires Mirrored(w)
    ensures Mirrored(Act(w, DoRelease(host, name, id)))
  {
    var w' := Act(w, DoRelease(host, name, id));
    assert forall other :: other != host ==> LocalOf(w', other) == LocalOf(w, other);
  }

  lemma ActKeepsMirrored(w: World, a: Action)
    requires Mirrored(w)
    ensures Mirrored(Act(w, a))
  {
    match a
    case DoAcquire(host, name, nanos) => AcquireKeepsMirrored(w, host, name, nanos);
    case DoRelease(host, name, id) => ReleaseKeepsMirrored(w, host, name, id);
  }

  /** In every state that any run of hosts reaches, locks are mirrored, and a release succeeds exactly
      when the DHT holds that id and the caller is the host that took it. */
  lemma {:induction false} ReleaseSucceedsExactlyForHolder(actions: seq<Action>, host: Host, name: Bytes, id: LockId)
    ensures var w := Run(World(map[], map[]), actions);
            && Mirrored(w)
            && (Succeeds(w, DoRelease(host, name, id)) <==> name in w.shared && w.shared[name] == id && id.host == host)
  {
    if actions != [] {
      var before := actions[..|actions| - 1];
      ReleaseSucceedsExactlyForHolder(before, host, name, id);
      ActKeepsMirrored(Run(World(map[], map[]), before), actions[|actions| - 1]);
    }
  }

  /** A release by another host frees the DHT entry all the same, but reports failure and leaves the
      taker's local copy behind. */
  lemma ForeignReleaseFreesTheLock(w: World, host: Host, name: Bytes)
    requires Mirrored(w) && name in w.shared && w.shared[name].host != host
    ensures var id := w.shared[name];
            var w' := Act(w, DoRelease(host, name, id));
            && !Succeeds(w, DoRelease(host, name, id)) && name !in w'.shared
            && name in LocalOf(w', id.host) && LocalOf(w', id.host)[name] == id
  {
  }
}
