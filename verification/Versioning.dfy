/** core/store.go, UpdateRecord: the per-peer version history of a record and the copy of it that is
    stored separately. */
module Versioning {
  import opened Bytes
  import opened Options

  datatype RecordVersion = RecordVersion(version: int, timestamp: int, peer: Host, hash: Bytes)

  /** The versioning fields of a record. */
  datatype Versioned = Versioned(version: int, versions: map<Host, RecordVersion>, latest: RecordVersion)

  datatype Metadata = Metadata(latest: RecordVersion, versions: map<Host, RecordVersion>)

  /** What the DHT holds under a domain's record key and its metadata key. */
  datatype Slot = Slot(record: Option<Versioned>, metadata: Option<Metadata>)

  /** One call: the host, the digest of the content, the time. */
  datatype Update = Update(host: Host, hash: Bytes, now: int)

  const NO_VERSION := RecordVersion(0, 0, "", "")
  const NEW_RECORD := Versioned(0, map[], NO_VERSION)

  function Base(s: Slot): int {
    if s.record.Some? then s.record.value.version else 0
  }

  function Apply(s: Slot, u: Update): Slot {
    var r := if s.record.Some? then s.record.value else NEW_RECORD;
    var entry := RecordVersion(r.version + 1, u.now, u.host, u.hash);
    var versions := r.versions[u.host := entry];
    Slot(Some(Versioned(entry.version, versions, entry)), Some(Metadata(entry, versions)))
  }

  function Run(s: Slot, updates: seq<Update>): Slot {
    if updates == [] then s else Apply(Run(s, updates[..|updates| - 1]), updates[|updates| - 1])
  }

  /** The object that holds the slots, and its methods. */
  class VersionedStore {
    var records: map<Bytes, Versioned>
    var metadata: map<Bytes, Metadata>

    ghost function SlotOf(domain: Bytes): Slot
      reads this
    {
      Slot(if domain in records then Some(records[domain]) else None,
           if domain in metadata then Some(metadata[domain]) else None)
    }

    /** Every record's separate metadata says what the record says, and there is no other: so it is as long
        as UpdateRecord alone writes records, since saving a record otherwise writes no metadata. */
    ghost predicate Consistent()
      reads this
    {
      && metadata.Keys == records.Keys
      && forall d :: d in records ==> metadata[d] == Metadata(records[d].latest, records[d].versions)
    }

    constructor ()
      ensures records == map[] && metadata == map[] && Consistent()
    {
      records, metadata := map[], map[];
    }

    method UpdateRecord(hostID: Host, domain: Bytes, hash: Bytes, now: int)
      modifies this
      ensures SlotOf(domain) == Apply(old(SlotOf(domain)), Update(hostID, hash, now))
      ensures forall other :: other != domain ==> SlotOf(other) == old(SlotOf(other))
      ensures old(Consistent()) ==> Consistent()
    {
      var record := NEW_RECORD;
      if domain in records {
        record := records[domain];
      }
      var version := RecordVersion(record.version + 1, now, hostID, hash);
      record := record.(versions := record.versions[hostID := version]);
      record := record.(latest := version);
      record := record.(version := version.version);
      records := records[domain := record];
      metadata := metadata[domain := Metadata(version, record.versions)];
    }

    /** The quick check reads the metadata only; while the two agree, its answer is the record's latest. */
    method GetLatestVersion(domain: Bytes) returns (latest: Option<RecordVersion>)
      ensures latest == (if SlotOf(domain).metadata.Some? then Some(SlotOf(domain).metadata.value.latest) else None)
      ensures Consistent() ==>
                latest == if SlotOf(domain).record.Some? then Some(SlotOf(domain).record.value.latest) else None
    {
      if domain !in metadata {
        return None;
      }
      latest := Some(metadata[domain].latest);
    }
  }

  /** No version has been recorded yet. */
  ghost predicate Unversioned(s: Slot) {
    s.record.Some? ==> s.record.value.versions == map[]
  }

  /** The peer's last update is the i-th. */
  ghost predicate LastBy(updates: seq<Update>, peer: Host, i: nat) {
    && i < |updates| && updates[i].host == peer
    && forall j :: i < j < |updates| ==> updates[j].host != peer
  }

  lemma LastBySnoc(before: seq<Update>, u: Update, peer: Host, i: nat)
    ensures LastBy(before + [u], peer, i) <==> if u.host == peer then i == |before| else LastBy(before, peer, i)
  {
    var all := before + [u];
    assert all[|before|] == u;
    assert forall j :: 0 <= j < |before| ==> all[j] == before[j];
  }

  /** After any updates by any hosts, the record's version is the base plus their number and is that of
      its latest entry; exactly the updating peers have an entry, each with the number, time and hash of the
      peer's last update; and the separate metadata says the same as the record. */
  lemma {:induction false} HistoryOfUpdates(s: Slot, updates: seq<Update>, peer: Host, i: nat)
    requires Unversioned(s) && updates != []
    ensures var s' := Run(s, updates);
            && s'.record.Some? && s'.metadata.Some?
            && var r := s'.record.value;
               && r.version == Base(s) + |updates| && r.latest.version == r.version
               && r.latest == RecordVersion(r.version, updates[|updates| - 1].now, updates[|updates| - 1].host,
                                            updates[|updates| - 1].hash)
               && r.latest.peer in r.versions && r.versions[r.latest.peer] == r.latest
               && s'.metadata.value == Metadata(r.latest, r.versions)
               && (peer in r.versions ==> r.versions[peer].peer == peer)
               && (peer in r.versions && r.versions[peer].version == Base(s) + i + 1 <==> LastBy(updates, peer, i))
               && (LastBy(updates, peer, i) ==>
                     r.versions[peer] == RecordVersion(Base(s) + i + 1, updates[i].now, peer, updates[i].hash))
  {
    var n := |updates| - 1;
    var before, u := updates[..n], updates[n];
    assert updates == before + [u];
    LastBySnoc(before, u, peer, i);
    if n > 0 {
      HistoryOfUpdates(s, before, peer, i);
    }
  }

  lemma {:induction false} UpdaterHasLast(updates: seq<Update>, peer: Host, k: nat) returns (i: nat)
    requires k < |updates| && updates[k].host == peer
    ensures LastBy(updates, peer, i)
  {
    var n := |updates| - 1;
    var before := updates[..n];
    assert updates == before + [updates[n]];
    if updates[n].host == peer {
      i := n;
    } else {
      i := UpdaterHasLast(before, peer, k);
      LastBySnoc(before, updates[n], peer, i);
    }
  }

  lemma {:induction false} EntriesAreUpdaters(s: Slot, updates: seq<Update>, peer: Host)
    requires Unversioned(s) && updates != [] && peer in Run(s, updates).record.value.versions
    ensures exists k :: 0 <= k < |updates| && updates[k].host == peer
  {
    var n := |updates| - 1;
    if updates[n].host != peer {
      if n > 0 {
        EntriesAreUpdaters(s, updates[..n], peer);
        var k :| 0 <= k < n && updates[..n][k].host == peer;
        assert updates[k].host == peer;
      }
    }
  }

  /** The versions of different peers differ, and none is beyond the latest. */
  lemma VersionsAreDistinct(s: Slot, updates: seq<Update>, p: Host, q: Host)
    requires Unversioned(s) && updates != []
    requires var vs := Run(s, updates).record.value.versions; p in vs && q in vs && p != q
    ensures var r := Run(s, updates).record.value;
            r.versions[p].version != r.versions[q].version && Base(s) < r.versions[p].version <= r.latest.version
  {
    EntriesAreUpdaters(s, updates, p);
    EntriesAreUpdaters(s, updates, q);
    var kp :| 0 <= kp < |updates| && updates[kp].host == p;
    var kq :| 0 <= kq < |updates| && updates[kq].host == q;
    var i := UpdaterHasLast(updates, p, kp);
    var j := UpdaterHasLast(updates, q, kq);
    HistoryOfUpdates(s, updates, p, i);
    HistoryOfUpdates(s, updates, q, j);
  }
}
