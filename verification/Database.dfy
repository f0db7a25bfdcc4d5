/** A node's database (core/store.go): its keys are cleaned like paths, which the DHT's are not.  Which key
    a record gets there, and what List and the state root make of it. */
module Database {
  import opened Bytes
  import opened Keys

  // ----- cleaning a path -----

  /** The pieces of a text between its slashes. */
  function Segments(text: Bytes): (segments: seq<Bytes>)
    ensures segments != [] && forall s :: s in segments ==> SLASH !in s
  {
    if text == "" then [""]
    else
      var rest := Segments(text[1..]);
      if text[0] == SLASH then [""] + rest else [[text[0]] + rest[0]] + rest[1..]
  }

  /** One piece further along a path: up, or down, or nowhere. */
  function Follow(path: seq<Bytes>, segment: Bytes): seq<Bytes> {
    if segment == "" || segment == "." then path
    else if segment == ".." then (if path == [] then [] else path[..|path| - 1])
    else path + [segment]
  }

  function FollowAll(path: seq<Bytes>, segments: seq<Bytes>): seq<Bytes> {
    if segments == [] then path else Follow(FollowAll(path, segments[..|segments| - 1]), segments[|segments| - 1])
  }

  function Text(path: seq<Bytes>): Bytes {
    if |path| == 0 then [SLASH] else if |path| == 1 then [SLASH] + path[0] else [SLASH] + path[0] + Text(path[1..])
  }

  function Cleaned(text: Bytes): seq<Bytes> {
    FollowAll([], Segments(text))
  }

  /** datastore.NewKey. */
  function DatastoreKey(text: Bytes): Bytes {
    Text(Cleaned(text))
  }

  lemma {:induction false} FollowAllAppends(path: seq<Bytes>, a: seq<Bytes>, b: seq<Bytes>)
    ensures FollowAll(path, a + b) == FollowAll(FollowAll(path, a), b)
  {
    if b == [] {
      assert a + b == a;
    } else {
      var n := |b| - 1;
      assert (a + b)[..|a + b| - 1] == a + b[..n];
      FollowAllAppends(path, a, b[..n]);
    }
  }

  lemma FollowOne(path: seq<Bytes>, s: Bytes)
    ensures FollowAll(path, [s]) == Follow(path, s)
  {
    assert [s][..0] == [];
  }

  lemma FollowTwo(path: seq<Bytes>, s: Bytes, t: Bytes)
    ensures FollowAll(path, [s] + [t]) == Follow(Follow(path, s), t)
  {
    FollowAllAppends(path, [s], [t]);
    FollowOne(path, s);
    FollowOne(Follow(path, s), t);
  }

  lemma {:induction false} SegmentsAppend(a: Bytes, b: Bytes)
    ensures Segments(a + [SLASH] + b) == Segments(a) + Segments(b)
  {
    if a == "" {
      assert (a + [SLASH] + b)[1..] == b;
    } else {
      assert (a + [SLASH] + b)[1..] == a[1..] + [SLASH] + b;
      SegmentsAppend(a[1..], b);
    }
  }

  lemma {:induction false} SegmentsOfOne(a: Bytes)
    requires SLASH !in a
    ensures Segments(a) == [a]
  {
    if a != "" {
      SegmentsOfOne(a[1..]);
      assert [a[0]] + a[1..] == a;
    }
  }

  predicate SlashFreePath(path: seq<Bytes>) {
    forall s :: s in path ==> SLASH !in s
  }

  lemma {:induction false} FollowAllSlashFree(path: seq<Bytes>, segments: seq<Bytes>)
    requires SlashFreePath(path) && SlashFreePath(segments)
    ensures SlashFreePath(FollowAll(path, segments))
  {
    if segments != [] {
      FollowAllSlashFree(path, segments[..|segments| - 1]);
    }
  }

  // ----- the keys of a node's database -----

  const BASE: seq<Bytes> := ["altica", "records"]

  function RecordKey(d: Bytes): Bytes {
    DatastoreKey(Render(Record(d)))
  }

  function NamehashKey(h: Word): Bytes {
    DatastoreKey(Render(NamehashEntry(h)))
  }

  const VERSION_KEY: Bytes := "/store/version"
  const SYNC_KEY: Bytes := "/sync/last_sync_time"

  /** Where the path of a domain leads from the directory of the records. */
  function PathOf(d: Bytes): seq<Bytes> {
    FollowAll(BASE, Segments(d))
  }

  predicate Plain(s: Bytes) {
    SLASH !in s && s != "" && s != "." && s != ".."
  }

  /** The path of a text that begins at the root with two directories. */
  lemma CleanedBelow(root: Bytes, b: Bytes, c: Bytes, rest: Bytes)
    requires root == "" && Plain(b) && Plain(c)
    ensures Cleaned(root + [SLASH] + b + [SLASH] + c + [SLASH] + rest) == FollowAll([b] + [c], Segments(rest))
  {
    SegmentsOfOne(root);
    SegmentsOfOne(b);
    SegmentsOfOne(c);
    SegmentsAppend(root, b);
    SegmentsAppend(root + [SLASH] + b, c);
    SegmentsAppend(root + [SLASH] + b + [SLASH] + c, rest);
    FollowTwo([], root, b);
    FollowAllAppends([], [root] + [b], [c]);
    FollowOne([b], c);
    assert [] + [b] == [b];
    FollowAllAppends([], [root] + [b] + [c], Segments(rest));
  }

  lemma BaseSegments(rest: Bytes)
    ensures Cleaned("/altica/records" + "/" + rest) == PathOf(rest)
  {
    CleanedBelow("", "altica", "records", rest);
    assert "" + [SLASH] + "altica" + [SLASH] + "records" == "/altica/records";
    assert ["altica"] + ["records"] == BASE;
  }

  lemma RecordKeyIs(d: Bytes)
    ensures RecordKey(d) == Text(PathOf(d)) && SlashFreePath(PathOf(d))
  {
    BaseSegments(d);
    assert SlashFreePath(BASE);
    FollowAllSlashFree(BASE, Segments(d));
  }

  lemma {:induction false} HexHasNoSlash(data: Bytes)
    ensures SLASH !in Hex(data)
  {
    if data != [] {
      HexHasNoSlash(data[1..]);
    }
  }

  lemma PathOfTwo(dir: Bytes, x: Bytes)
    requires Plain(dir) && Plain(x)
    ensures PathOf(dir + [SLASH] + x) == BASE + [dir] + [x]
  {
    SegmentsOfOne(dir);
    SegmentsOfOne(x);
    SegmentsAppend(dir, x);
    FollowTwo(BASE, dir, x);
  }

  function NamehashPath(h: Word): seq<Bytes> {
    BASE + ["namehash"] + [Hex(h)]
  }

  lemma RenderedNamehash(h: Word)
    ensures Render(NamehashEntry(h)) == "/altica/records" + "/" + ("namehash" + [SLASH] + Hex(h))
  {
    assert "/namehash/" + Hex(h) == "/" + ("namehash" + [SLASH] + Hex(h));
  }

  lemma NamehashKeyIs(h: Word)
    ensures NamehashKey(h) == Text(NamehashPath(h)) && SlashFreePath(NamehashPath(h))
  {
    HexHasNoSlash(h);
    assert |Hex(h)| == 64;
    PathOfTwo("namehash", Hex(h));
    BaseSegments("namehash" + [SLASH] + Hex(h));
    RenderedNamehash(h);
  }

  // ----- which names share a key -----

  /** How far a text goes before its first slash. */
  function HeadLength(text: Bytes): nat {
    if text == "" || text[0] == SLASH then 0 else 1 + HeadLength(text[1..])
  }

  lemma {:induction false} HeadLengthOf(head: Bytes, tail: Bytes)
    requires SLASH !in head && (tail == [] || tail[0] == SLASH)
    ensures HeadLength(head + tail) == |head|
  {
    if head == [] {
      assert head + tail == tail;
    } else {
      assert (head + tail)[1..] == head[1..] + tail;
      HeadLengthOf(head[1..], tail);
    }
  }

  lemma SlashEnds(a: Bytes, b: Bytes, x: Bytes, y: Bytes)
    requires a + x == b + y && SLASH !in a && SLASH !in b
    requires (x == [] || x[0] == SLASH) && (y == [] || y[0] == SLASH)
    ensures a == b && x == y
  {
    HeadLengthOf(a, x);
    HeadLengthOf(b, y);
    var s := a + x;
    assert s[..|a|] == a && s[..|b|] == b && s[|a|..] == x && s[|b|..] == y;
  }

  function Tail(path: seq<Bytes>): (tail: Bytes)
    requires path != []
    ensures tail == [] || tail[0] == SLASH
    ensures tail == [] <==> |path| == 1
  {
    if |path| == 1 then [] else Text(path[1..])
  }

  lemma TextIs(path: seq<Bytes>)
    requires path != []
    ensures Text(path) == [SLASH] + (path[0] + Tail(path)) && Text(path)[1..] == path[0] + Tail(path)
  {
    assert Text(path) == [SLASH] + (path[0] + Tail(path));
  }

  lemma {:induction false} TextInjective(p: seq<Bytes>, q: seq<Bytes>)
    requires SlashFreePath(p) && SlashFreePath(q) && p != [] && q != [] && Text(p) == Text(q)
    ensures p == q
  {
    TextIs(p);
    TextIs(q);
    SlashEnds(p[0], q[0], Tail(p), Tail(q));
    if |p| > 1 {
      TextInjective(p[1..], q[1..]);
    }
    assert p == [p[0]] + p[1..] && q == [q[0]] + q[1..];
  }

  lemma PathOfSlashFree(d: Bytes)
    requires SLASH !in d
    ensures PathOf(d) == Follow(BASE, d)
  {
    SegmentsOfOne(d);
    FollowOne(BASE, d);
  }

  lemma NoNamehashKey(d: Bytes, h: Word)
    requires SLASH !in d
    ensures RecordKey(d) != NamehashKey(h)
  {
    RecordKeyIs(d);
    NamehashKeyIs(h);
    PathOfSlashFree(d);
    if RecordKey(d) == NamehashKey(h) {
      TextInjective(PathOf(d), NamehashPath(h));
      assert false;
    }
  }

  /** Slash-free names share a key in the database exactly when they are one, or are "" and "."; and none
      shares one with a namehash entry. */
  lemma RecordKeysAgreeExactlyWhen(d: Bytes, e: Bytes, h: Word)
    requires SLASH !in d && SLASH !in e
    ensures RecordKey(d) == RecordKey(e) <==> d == e || (d in {"", "."} && e in {"", "."})
    ensures RecordKey(d) != NamehashKey(h)
  {
    NoNamehashKey(d, h);
    RecordKeyIs(d);
    RecordKeyIs(e);
    PathOfSlashFree(d);
    PathOfSlashFree(e);
    if RecordKey(d) == RecordKey(e) {
      TextInjective(PathOf(d), PathOf(e));
      FollowsAlike(BASE, d, e);
    }
  }

  lemma FollowsAlike(path: seq<Bytes>, d: Bytes, e: Bytes)
    requires path != [] && Follow(path, d) == Follow(path, e)
    ensures d == e || (d in {"", "."} && e in {"", "."})
  {
    var p, q := Follow(path, d), Follow(path, e);
    if |p| == |path| + 1 {
      assert p[|path|] == d && q[|path|] == e;
    }
  }

  // ----- listing -----

  const LIST_PREFIX: Bytes := "/record/"

  predicate UnderRecord(path: seq<Bytes>) {
    |path| >= 2 && path[0] == "record"
  }

  /** A text lies under the prefix exactly when its path begins with that directory and goes on. */
  lemma PrefixExactlyWhen(path: seq<Bytes>)
    requires SlashFreePath(path)
    ensures LIST_PREFIX <= Text(path) <==> UnderRecord(path)
  {
    if path != [] {
      var text, tail, dir: Bytes := Text(path), Tail(path), "record";
      TextIs(path);
      if LIST_PREFIX <= text {
        var more := text[8..];
        assert text == LIST_PREFIX + more;
        assert text[1..] == dir + ([SLASH] + more);
        SlashEnds(path[0], dir, tail, [SLASH] + more);
      }
      if UnderRecord(path) {
        assert text == LIST_PREFIX + tail[1..];
      }
    }
  }

  lemma {:induction false} FollowDown(path: seq<Bytes>, segments: seq<Bytes>)
    requires ".." !in segments
    ensures path <= FollowAll(path, segments)
  {
    if segments != [] {
      FollowDown(path, segments[..|segments| - 1]);
    }
  }

  /** Following a path keeps its first directory unless it comes to the root on the way. */
  lemma {:induction false} FirstStays(path: seq<Bytes>, segments: seq<Bytes>)
    requires path != [] && forall i :: 0 <= i <= |segments| ==> FollowAll(path, segments[..i]) != []
    ensures FollowAll(path, segments) != [] && FollowAll(path, segments)[0] == path[0]
  {
    if segments != [] {
      var n := |segments| - 1;
      forall i | 0 <= i <= n
        ensures FollowAll(path, segments[..n][..i]) != []
      {
        assert segments[..n][..i] == segments[..i];
      }
      FirstStays(path, segments[..n]);
      assert segments[..n + 1] == segments;
    }
  }

  /** The domain's own path climbs to the root and then goes down under the listed directory. */
  ghost predicate Escapes(d: Bytes, i: nat) {
    var segments := Segments(d);
    i <= |segments| && FollowAll(BASE, segments[..i]) == [] && UnderRecord(FollowAll([], segments[i..]))
  }

  lemma PathSplits(d: Bytes, i: nat)
    requires i <= |Segments(d)|
    ensures PathOf(d) == FollowAll(FollowAll(BASE, Segments(d)[..i]), Segments(d)[i..])
  {
    FollowAllAppends(BASE, Segments(d)[..i], Segments(d)[i..]);
    assert Segments(d)[..i] + Segments(d)[i..] == Segments(d);
  }

  lemma NeverAtRoot(d: Bytes)
    requires forall i :: 0 <= i <= |Segments(d)| ==> FollowAll(BASE, Segments(d)[..i]) != []
    ensures !UnderRecord(PathOf(d))
  {
    FirstStays(BASE, Segments(d));
    assert PathOf(d)[0] == "altica" != "record";
  }

  /** A path that goes under another directory has come to the root on the way. */
  lemma ComesToRoot(d: Bytes) returns (i: nat)
    requires UnderRecord(PathOf(d))
    ensures i <= |Segments(d)| && FollowAll(BASE, Segments(d)[..i]) == []
  {
    if forall j :: 0 <= j <= |Segments(d)| ==> FollowAll(BASE, Segments(d)[..j]) != [] {
      NeverAtRoot(d);
    }
    i :| i <= |Segments(d)| && FollowAll(BASE, Segments(d)[..i]) == [];
  }

  lemma UnderRecordExactlyWhen(d: Bytes)
    ensures UnderRecord(PathOf(d)) <==> exists i :: Escapes(d, i)
  {
    if UnderRecord(PathOf(d)) {
      var i := ComesToRoot(d);
      PathSplits(d, i);
      assert Escapes(d, i);
    }
    if i: nat :| Escapes(d, i) {
      PathSplits(d, i);
    }
  }

  lemma StaysBelow(d: Bytes)
    requires ".." !in Segments(d)
    ensures !UnderRecord(PathOf(d))
  {
    FollowDown(BASE, Segments(d));
    assert PathOf(d)[0] == "altica" != "record";
  }

  /** The record of a domain is listed exactly when its path escapes; without ".." it never does. */
  lemma ListedExactlyWhen(d: Bytes)
    ensures LIST_PREFIX <= RecordKey(d) <==> exists i :: Escapes(d, i)
    ensures ".." !in Segments(d) ==> !(LIST_PREFIX <= RecordKey(d))
  {
    RecordKeyIs(d);
    PrefixExactlyWhen(PathOf(d));
    UnderRecordExactlyWhen(d);
    if ".." !in Segments(d) {
      StaysBelow(d);
    }
  }

  /** A node's database, saving those domains: their records, namehash entries and two fixed keys. */
  ghost predicate Holds<V>(db: map<Bytes, V>, domains: set<Bytes>) {
    && (forall d :: d in domains ==> RecordKey(d) in db)
    && forall text :: text in db ==>
         || text == VERSION_KEY || text == SYNC_KEY
         || (exists h :: text == NamehashKey(h)) || (exists d :: d in domains && text == RecordKey(d))
  }

  /** List: the entries under its fixed prefix. */
  function Listed<V>(db: map<Bytes, V>): map<Bytes, V> {
    map text | text in db && LIST_PREFIX <= text :: db[text]
  }

  lemma NamehashNotListed(h: Word)
    ensures !(LIST_PREFIX <= NamehashKey(h))
  {
    NamehashKeyIs(h);
    PrefixExactlyWhen(NamehashPath(h));
  }

  lemma FixedNotListed()
    ensures !(LIST_PREFIX <= VERSION_KEY) && !(LIST_PREFIX <= SYNC_KEY)
  {
    assert VERSION_KEY[1] == 's' && SYNC_KEY[1] == 's' && LIST_PREFIX[1] == 'r';
  }

  /** List finds exactly the records of escaping domains: nothing at all exactly when there is none. */
  lemma ListFindsNothingExactlyWhen<V>(db: map<Bytes, V>, domains: set<Bytes>)
    requires Holds(db, domains)
    ensures Listed(db).Keys == set d | d in domains && LIST_PREFIX <= RecordKey(d) :: RecordKey(d)
    ensures Listed(db) == map[] <==> forall d :: d in domains ==> !exists i :: Escapes(d, i)
  {
    FixedNotListed();
    forall h: Word
      ensures !(LIST_PREFIX <= NamehashKey(h))
    {
      NamehashNotListed(h);
    }
    forall d | d in domains
      ensures LIST_PREFIX <= RecordKey(d) <==> exists i :: Escapes(d, i)
    {
      ListedExactlyWhen(d);
    }
    if d :| d in domains && LIST_PREFIX <= RecordKey(d) {
      assert RecordKey(d) in Listed(db);
    }
  }

  function Serialized<V>(serialize: V -> Bytes, records: seq<V>): Bytes {
    if records == [] then [] else Serialized(serialize, records[..|records| - 1]) + serialize(records[|records| - 1])
  }

  /** The texts follow one another in the order of the records. */
  lemma {:induction false} SerializedInOrder<V>(serialize: V -> Bytes, records: seq<V>, more: seq<V>)
    ensures Serialized(serialize, records + more) == Serialized(serialize, records) + Serialized(serialize, more)
    ensures |records| == 1 ==> Serialized(serialize, records) == serialize(records[0])
  {
    if more == [] {
      assert records + more == records;
      assert |records| == 1 ==> records[..0] == [];
    } else {
      var n := |more| - 1;
      assert (records + more)[..|records + more| - 1] == records + more[..n];
      SerializedInOrder(serialize, records, more[..n]);
    }
  }

  /** computeStateRoot: the digest of the listed records' texts, whichever order they were sorted in. */
  method ComputeStateRoot<V>(sha256: Bytes -> Bytes, serialize: V -> Bytes, sorted: seq<V>) returns (root: Bytes)
    ensures root == sha256(Serialized(serialize, sorted))
  {
    var data: Bytes := [];
    for i := 0 to |sorted|
      invariant data == Serialized(serialize, sorted[..i])
    {
      assert sorted[..i + 1][..i] == sorted[..i];
      data := data + serialize(sorted[i]);
    }
    assert sorted[..|sorted|] == sorted;
    root := sha256(data);
  }

  /** So every node whose domains stay where they belong, slash-free ones for instance, has one state root,
      that of an empty store. */
  lemma StateRootIsConstant<V>(sha256: Bytes -> Bytes, serialize: V -> Bytes, db: map<Bytes, V>, domains: set<Bytes>,
                               sorted: seq<V>)
    requires Holds(db, domains) && forall d :: d in domains ==> ".." !in Segments(d)
    requires forall r :: r in sorted ==> r in Listed(db).Values
    ensures sha256(Serialized(serialize, sorted)) == sha256([])
  {
    forall d | d in domains
      ensures !exists i :: Escapes(d, i)
    {
      ListedExactlyWhen(d);
    }
    ListFindsNothingExactlyWhen(db, domains);
    assert forall i :: 0 <= i < |sorted| ==> sorted[i] in sorted;
  }

  lemma UpUpAndDown(up: Bytes, dir: Bytes, x: Bytes)
    requires up == ".." && dir == "record" && Plain(x)
    ensures Escapes(up + [SLASH] + up + [SLASH] + dir + [SLASH] + x, 2)
  {
    SegmentsOfOne(up);
    SegmentsOfOne(dir);
    SegmentsOfOne(x);
    SegmentsAppend(up, up);
    SegmentsAppend(up + [SLASH] + up, dir);
    SegmentsAppend(up + [SLASH] + up + [SLASH] + dir, x);
    var segments := Segments(up + [SLASH] + up + [SLASH] + dir + [SLASH] + x);
    assert segments[..2] == [up] + [up] && segments[2..] == [dir] + [x];
    FollowTwo(BASE, up, up);
    FollowTwo([], dir, x);
  }

  /** But a name may escape: these names' records are listed, and change the state root. */
  lemma SomeNamesAreListed(x: Bytes)
    requires Plain(x)
    ensures LIST_PREFIX <= RecordKey("../../record" + "/" + x)
  {
    UpUpAndDown("..", "record", x);
    assert ".." + [SLASH] + ".." + [SLASH] + "record" + [SLASH] + x == "../../record" + "/" + x;
    ListedExactlyWhen("../../record" + "/" + x);
  }
}
