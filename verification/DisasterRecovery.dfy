/** Backups of the application's storage: an index of manifests cut to the newest,
    replicas in other regions, verification, restore and failover. */
module DisasterRecovery {
  import opened Djb2
  import opened Sequences

  const BACKUP_VERSION := 2
  const RTO_SECONDS := 300
  const RPO_SECONDS := 3600
  const CURRENT_REGION := "us-east-1"
  const REPLICA_REGIONS := ["eu-west-1", "ap-southeast-1"]

  type Storage = map<string, string>

  /** What a backup holds of each key: its value, or that it had none. */
  type Data = map<string, Option<string>>

  datatype Manifest = Manifest(id: string, createdAt: int, keys: seq<string>, checksum: bv32, version: int,
                               region: string, marker: string)

  /** A stored backup; the proof beside it repeats the manifest's marker. */
  datatype Entry = Entry(manifest: Manifest, data: Data, contractSnapshot: Storage, proofMarker: string)

  datatype Warning = Stale | SnapshotGap(key: string) | MarkerMismatch

  datatype VerifyError = NotFound | ChecksumMismatch | VersionMismatch | NoKeys

  /** The present values among `data`, and the keys it holds as absent. */
  function Values(data: Data): Storage {
    map k | k in data && data[k].Some? :: data[k].value
  }

  function Absent(data: Data): set<string> {
    set k | k in data && data[k].None?
  }

  function MultiSet(app: Storage, pairs: Storage): Storage {
    app + pairs
  }

  function MultiRemove(app: Storage, keys: set<string>): Storage {
    app - keys
  }

  /** The storage after a restore: values set, absent keys removed, and the contract
      snapshot set over both. */
  function Restored(app: Storage, e: Entry): Storage {
    MultiSet(MultiRemove(MultiSet(app, Values(e.data)), Absent(e.data)), e.contractSnapshot)
  }

  /** A restore brings every backed-up key back to what the backup says of it exactly
      when the contract snapshot, which no checksum covers, agrees with the data; keys
      in neither are left alone. */
  lemma RestoredExactly(app: Storage, e: Entry)
    ensures (forall k :: k in e.data ==> Lookup(Restored(app, e), k) == e.data[k])
            <==> forall k :: k in e.contractSnapshot && k in e.data ==> e.data[k] == Some(e.contractSnapshot[k])
    ensures forall k :: k !in e.data && k !in e.contractSnapshot ==> Lookup(Restored(app, e), k) == Lookup(app, k)
  {
    if k :| k in e.contractSnapshot && k in e.data && e.data[k] != Some(e.contractSnapshot[k]) {
      assert Lookup(Restored(app, e), k) == Some(e.contractSnapshot[k]);
    }
  }

  lemma NothingToDo(app: Storage, pairs: Storage, keys: set<string>)
    ensures |pairs| == 0 ==> MultiSet(app, pairs) == app
    ensures |keys| == 0 ==> MultiRemove(app, keys) == app
  {
  }

  /** A present value that the contract snapshot lacks. */
  predicate Gap(e: Entry, key: string) {
    key in e.data && e.data[key].Some? && key !in e.contractSnapshot
  }

  function Sound(e: Entry, serialise: Data -> seq<Unit>): bool {
    Checksum(serialise(e.data)) == e.manifest.checksum && e.manifest.version == BACKUP_VERSION && e.manifest.keys != []
  }

  /** Newest first. */
  predicate NotOlder(a: Manifest, b: Manifest) {
    a.createdAt >= b.createdAt
  }

  function ById(id: string): Manifest -> bool {
    (m: Manifest) => m.id != id
  }

  function Cut(s: seq<Manifest>, max: nat): seq<Manifest> {
    if |s| > max then s[..max] else s
  }

  /** Each id is in the index once. */
  ghost predicate UniqueIds(ms: multiset<Manifest>) {
    && (forall m :: ms[m] <= 1)
    && (forall a, b :: a in ms && b in ms && a.id == b.id ==> a == b)
  }

  predicate InRegion(region: string, m: Manifest) {
    region == "" || m.region == region
  }

  /** A stored entry that is still as it was made, of what the keys then held. */
  ghost predicate Intact(e: Entry, m: Manifest, origin: Data, serialise: Data -> seq<Unit>) {
    && e.manifest == m && e.data == origin
    && m.checksum == Checksum(serialise(origin)) && m.version == BACKUP_VERSION
    && (m.keys == [] <==> origin == map[])
    && forall k :: k in e.contractSnapshot ==> k in origin && origin[k] == Some(e.contractSnapshot[k])
  }

  ghost predicate HasId(ms: multiset<Manifest>, id: string) {
    exists m :: m in ms && m.id == id
  }

  ghost predicate AllIntact(ms: multiset<Manifest>, entries: map<string, Entry>, origin: map<string, Data>,
                            serialise: Data -> seq<Unit>) {
    forall m :: m in ms ==> m.id in entries && m.id in origin && Intact(entries[m.id], m, origin[m.id], serialise)
  }

  /** Every manifest of the index has its entry stored, intact, and nothing else is
      stored. */
  ghost predicate Kept(ms: multiset<Manifest>, entries: map<string, Entry>, origin: map<string, Data>,
                       serialise: Data -> seq<Unit>) {
    && UniqueIds(ms)
    && (forall id :: id in entries ==> HasId(ms, id))
    && AllIntact(ms, entries, origin, serialise)
  }

  /** What the service holds, of which each operation leaves another. */
  datatype Vault = Vault(app: Storage, entries: map<string, Entry>, index: seq<Manifest>, origin: map<string, Data>)

  ghost predicate Whole(v: Vault, max: nat, serialise: Data -> seq<Unit>) {
    Kept(multiset(v.index), v.entries, v.origin, serialise) && |v.index| <= max
  }

  /** A step that keeps the invariant and leaves what stays stored as it is; what it
      stores anew was taken of `taken`. */
  ghost predicate Keeps(v: Vault, w: Vault, taken: Data, max: nat, serialise: Data -> seq<Unit>) {
    && Whole(w, max, serialise)
    && (forall id :: id in v.entries && id in w.entries ==>
        w.entries[id] == v.entries[id] && SameOrigin(v.origin, w.origin, id))
    && (forall id :: id in w.entries && id !in v.entries ==> id in w.origin && w.origin[id] == taken)
  }

  ghost predicate SameOrigin(before: map<string, Data>, after: map<string, Data>, id: string) {
    id in before && id in after && after[id] == before[id]
  }

  lemma {:induction false} SortedStays(s: seq<Manifest>)
    requires Sorted(s, NotOlder)
    ensures SortBy(s, NotOlder) == s
  {
    if s != [] {
      SortedTail(s, NotOlder);
      SortedStays(s[1..]);
    }
  }

  lemma NoneTwice(s: seq<Manifest>, i: nat, j: nat)
    requires i < j < |s| && UniqueIds(multiset(s))
    ensures s[i].id != s[j].id
  {
    SpliceContents(s, j);
    assert (s[..j] + s[j + 1..])[i] == s[i];
    assert s[i] in multiset(s) && s[j] in multiset(s);
  }

  /** Dropping an id drops the one manifest that has it. */
  lemma {:induction false} DropId(s: seq<Manifest>, p: nat)
    requires p < |s| && UniqueIds(multiset(s))
    ensures Filter(s, ById(s[p].id)) == s[..p] + s[p + 1..]
  {
    forall i | 0 <= i < |s| ensures ById(s[p].id)(s[i]) <==> i != p {
      if i < p { NoneTwice(s, i, p); } else if i > p { NoneTwice(s, p, i); }
    }
    hide UniqueIds;
    FilterAllBut(s, p, ById(s[p].id));
  }

  lemma {:induction false} FilterAllBut(s: seq<Manifest>, p: nat, keep: Manifest -> bool)
    requires p < |s| && forall i :: 0 <= i < |s| ==> (keep(s[i]) <==> i != p)
    ensures Filter(s, keep) == s[..p] + s[p + 1..]
  {
    var last := |s| - 1;
    if p == last {
      FilterRun(s[..last], 0, last, keep);
      assert s[..last][0..last] == s[..p] + s[p + 1..];
    } else {
      FilterAllBut(s[..last], p, keep);
      assert s[..p] + s[p + 1..] == s[..last][..p] + s[..last][p + 1..] + [s[last]];
    }
  }

  class DisasterRecoveryService {
    const appKeys: seq<string>
    const contractKeys: seq<string>
    const maxBackups: nat
    const serialise: Data -> seq<Unit>

    /** The application's own storage, and what the service keeps beside it. */
    var app: Storage
    var entries: map<string, Entry>
    var index: seq<Manifest>
    /** What each backup was taken of. */
    ghost var origin: map<string, Data>

    ghost predicate Indexed()
      reads `entries, `index, `origin
    {
      Kept(multiset(index), entries, origin, serialise)
    }

    /** Whatever the application stores, at the end of every operation each listed
        backup is there, intact, and there are not too many. */
    ghost predicate Valid()
      reads `entries, `index, `origin
    {
      Indexed() && |index| <= maxBackups
    }

    ghost function State(): Vault
      reads this
    {
      Vault(app, entries, index, origin)
    }

    /** What a backup of all keys is taken of. */
    ghost function Taken(): Data
      reads `app
    {
      Captured(app, appKeys + contractKeys)
    }

    ghost function Listed(): seq<Manifest>
      reads `index
    {
      SortBy(index, NotOlder)
    }

    constructor (appKeys: seq<string>, contractKeys: seq<string>, maxBackups: nat, serialise: Data -> seq<Unit>,
                 app: Storage)
      ensures Valid() && this.app == app && index == [] && this.maxBackups == maxBackups
      ensures this.appKeys == appKeys && this.contractKeys == contractKeys && this.serialise == serialise
    {
      this.appKeys, this.contractKeys, this.maxBackups, this.serialise := appKeys, contractKeys, maxBackups, serialise;
      this.app, entries, index, origin := app, map[], [], map[];
    }

    /** The manifests, of a region if one is named: the newest first, those of one
        instant in the order of the index. */
    method ListBackups(region: string) returns (manifests: seq<Manifest>)
      ensures Sorted(manifests, NotOlder)
      ensures forall m :: m in manifests <==> m in index && (region == "" || m.region == region)
      ensures forall t :: Filter(manifests, Instant(t)) == Filter(index, InstantIn(t, region))
      ensures region == "" ==> manifests == Listed()
    {
      manifests := index;
      if region != "" { manifests := Filter(manifests, OfRegion(region)); }
      AllOfNoRegion(index);
      ListedRegion(index, region);
      manifests := SortBy(manifests, NotOlder);
    }

    method DeleteBackup(backupId: string)
      modifies `entries, `index
      ensures entries == DropEntries(old(entries), {backupId})
      ensures index == Filter(old(Listed()), ById(backupId))
      ensures old(Indexed()) ==> Indexed()
      ensures old(Valid()) ==> Keeps(old(State()), State(), old(Taken()), maxBackups, serialise)
    {
      hide Kept, Keeps, Filter, SortBy;
      entries := entries - {backupId};
      var listed := ListBackups("");
      index := Filter(listed, ById(backupId));
      KeptWithout(old(index), old(entries), origin, serialise, backupId);
      DeletionKeeps(old(State()), backupId, Taken(), maxBackups, serialise);
    }
  
    method PruneOldBackups() returns (removed: seq<string>)
      requires Indexed()
      modifies `entries, `index
      ensures Valid() && Listed() == Cut(old(Listed()), maxBackups)
      ensures var gone := old(Listed())[|Listed()|..];
              removed == Ids(gone) && entries == DropEntries(old(entries), IdSet(gone))
      ensures old(Valid()) ==> Keeps(old(State()), State(), old(Taken()), maxBackups, serialise)
    {
      hide Kept, Keeps, UniqueIds, Cut, Sorted, IdSet, Ids, SortBy, Filter, DropEntries;
      var listed := ListBackups("");
      var kept := Cut(listed, maxBackups);
      CutPrefix(listed, maxBackups);
      var toDelete := listed[|kept|..];
      ListedUnique(index, entries, origin, serialise);
      NoIds(entries);
      for i := 0 to |toDelete|
        invariant Indexed() && Listed() == kept + toDelete[i..]
        invariant Sorted(Listed(), NotOlder) && UniqueIds(multiset(Listed()))
        invariant entries == DropEntries(old(entries), IdSet(toDelete[..i]))
      {
        PruneStep(kept, toDelete[i..]);
        assert toDelete[i..][1..] == toDelete[i + 1..];
        DropMore(old(entries), toDelete, i);
        DeleteBackup(toDelete[i].id);
      }
      assert toDelete[..|toDelete|] == toDelete && kept + toDelete[|toDelete|..] == kept;
      SortByContents(index, NotOlder);
      removed := Ids(toDelete);
      DroppedStay(old(entries), IdSet(toDelete));
      if old(Valid()) { FewerKeeps(old(State()), State(), old(Taken()), maxBackups, serialise); }
    }

    /** Puts a manifest, whose entry is stored, at the head of the list. */
    method UpdateIndex(manifest: Manifest)
      requires Kept(multiset(index) + multiset{manifest}, entries, origin, serialise)
      modifies `entries, `index
      ensures Valid() && Listed() == Push(old(Listed()), manifest, maxBackups)
      ensures forall id :: id in entries ==> id in old(entries) && entries[id] == old(entries)[id]
    {
      hide Kept, UniqueIds;
      SortByContents(index, NotOlder);
      SortBySorted(index, NotOlder);
      var listed := ListBackups("");
      index := [manifest] + listed;
      assert multiset(index) == multiset(old(index)) + multiset{manifest};
      SortedStays(listed);
      var _ := PruneOldBackups();
    }

    /** Takes a backup of all keys, under a new id; a backup of the home region is
        copied to the others, each copy with a place of its own in the index. It is
        still there afterwards exactly when it and its copies, all put before those
        of the same instant, fit behind the strictly newer ones. */
    method CreateBackup(region: string, newId: string, marker: string, now: int) returns (manifest: Manifest)
      requires Valid() && FreshId(newId, entries)
      modifies `entries, `index, `origin
      ensures Valid()
      ensures manifest.id == newId && manifest.createdAt == now && manifest.keys == appKeys + contractKeys
      ensures manifest.region == if region == "" then CURRENT_REGION else region
      ensures newId in origin && origin[newId] == Captured(app, appKeys + contractKeys)
      ensures Listed() == Backlog(old(Listed()), manifest, maxBackups)
      ensures manifest in index <==> Newer(old(Listed()), now) + Places(manifest) <= maxBackups
      ensures newId in entries <==> manifest in index
      ensures newId in entries ==> entries[newId].manifest == manifest && Unremarkable(entries[newId], contractKeys)
      ensures manifest.region == CURRENT_REGION ==> CopiesIn(index, manifest, Newer(old(Listed()), now), maxBackups)
      ensures app == old(app) && Keeps(old(State()), State(), old(Taken()), maxBackups, serialise)
    {
      hide CopiesIn, Kept, Intact, Keeps, Checksum, SortBy, Newer, Places, Backlog, Captured, Lookup, FreshId;
      var allKeys := appKeys + contractKeys;
      var data, contractSnapshot := Capture(allKeys);
      var checksum := ComputeChecksum(serialise(data));
      manifest := Manifest(newId, now, allKeys, checksum, BACKUP_VERSION,
                           if region == "" then CURRENT_REGION else region, marker);
      var entry := Entry(manifest, data, contractSnapshot, marker);
      MadeIntact(entry, app, data, serialise);
      assert Unremarkable(entry, contractKeys) by { SnapshotComplete(entry, app, allKeys, contractKeys); }
      Store(manifest, entry, data);
    }

    method Store(manifest: Manifest, entry: Entry, ghost data: Data)
      requires Valid() && FreshId(manifest.id, entries) && Intact(entry, manifest, data, serialise)
      modifies `entries, `index, `origin
      ensures Valid() && Listed() == Backlog(old(Listed()), manifest, maxBackups)
      ensures manifest.id in origin && origin[manifest.id] == data
      ensures manifest in index <==> Newer(old(Listed()), manifest.createdAt) + Places(manifest) <= maxBackups
      ensures manifest.id in entries <==> manifest in index
      ensures manifest.id in entries ==> entries[manifest.id] == entry && entry.manifest == manifest
      ensures Keeps(old(State()), State(), data, maxBackups, serialise)
      ensures manifest.region == CURRENT_REGION ==>
                CopiesIn(index, manifest, Newer(old(Listed()), manifest.createdAt), maxBackups)
    {
      hide Kept, UniqueIds, Checksum, SortBy, Newer, Places, Cut, Push, PushReplicas, InsertSorted, Sorted;
      hide IsCopy, CopiesFree, Keeps, CopiesIn;
      KeptAdded(multiset(index), entries, origin, serialise, manifest, entry, data);
      CopiesDiffer(manifest.id);
      entries := entries[manifest.id := entry];
      origin := origin[manifest.id := data];
      UpdateIndex(manifest);
      ghost var listed := State();
      CopiesStayFree(manifest.id, old(entries), entries);
      NoCopies(manifest.id, entries);
      if manifest.region == CURRENT_REGION { ReplicateToRegions(manifest, entry, data); }
      StoringKeeps(old(State()), listed, State(), manifest, data, maxBackups, serialise);
      StoredExactly(old(State()), State(), manifest, maxBackups, serialise);
      if manifest.region == CURRENT_REGION { CopiesFollow(old(State()), State(), manifest, maxBackups, serialise); }
    }

    /** The values of the keys as they are, and of the contract keys those there are. */
    method Capture(allKeys: seq<string>) returns (data: Data, contractSnapshot: Storage)
      requires forall k :: k in contractKeys ==> k in allKeys
      ensures data == Captured(app, allKeys)
      ensures forall k :: k in contractSnapshot ==> k in data && data[k] == Some(contractSnapshot[k])
      ensures forall k :: k in contractKeys && k in app ==> k in contractSnapshot
    {
      data, contractSnapshot := map[], map[];
      for i := 0 to |allKeys|
        invariant data == Captured(app, allKeys[..i])
      {
        data := data[allKeys[i] := Lookup(app, allKeys[i])];
      }
      assert allKeys[..|allKeys|] == allKeys;
      for i := 0 to |contractKeys|
        invariant forall k :: k in contractSnapshot ==> k in data && data[k] == Some(contractSnapshot[k])
        invariant forall k :: k in contractKeys[..i] && k in app ==> k in contractSnapshot
      {
        var key := contractKeys[i];
        if data[key].Some? { contractSnapshot := contractSnapshot[key := data[key].value]; }
      }
    }

    method ReplicateToRegions(manifest: Manifest, entry: Entry, ghost data: Data)
      requires Valid() && Intact(entry, manifest, data, serialise)
      requires CopiesFree(manifest.id, entries)
      modifies `entries, `index, `origin
      ensures Valid()
      ensures Listed() == PushReplicas(old(Listed()), manifest, |REPLICA_REGIONS|, maxBackups)
      ensures forall id :: id in entries && !IsCopy(manifest.id, id) ==>
                id in old(entries) && entries[id] == old(entries)[id]
      ensures forall id :: id in old(origin) && !IsCopy(manifest.id, id) ==>
                id in origin && origin[id] == old(origin)[id]
      ensures forall id :: id in entries && IsCopy(manifest.id, id) ==> id in origin && origin[id] == data
    {
      hide Kept, UniqueIds, Checksum, Intact, Push, SortBy;
      NoCopies(manifest.id, entries);
      for i := 0 to |REPLICA_REGIONS|
        invariant Valid() && Listed() == PushReplicas(old(Listed()), manifest, i, maxBackups)
        invariant forall j :: i <= j < |REPLICA_REGIONS| ==> ReplicaId(manifest.id, REPLICA_REGIONS[j]) !in entries
        invariant forall id :: id in entries && !IsCopy(manifest.id, id) ==>
                    id in old(entries) && entries[id] == old(entries)[id]
        invariant forall id :: id in old(origin) && !IsCopy(manifest.id, id) ==>
                    id in origin && origin[id] == old(origin)[id]
        invariant forall id :: id in entries && IsCopy(manifest.id, id) ==> id in origin && origin[id] == data
      {
        var region := REPLICA_REGIONS[i];
        var replicaManifest := ReplicaOf(manifest, region);
        var replicaEntry := entry.(manifest := replicaManifest);
        CopyIntact(entry, manifest, region, data, serialise);
        KeptAdded(multiset(index), entries, origin, serialise, replicaManifest, replicaEntry, data);
        entries := entries[replicaManifest.id := replicaEntry];
        origin := origin[replicaManifest.id := data];
        UpdateIndex(replicaManifest);
      }
    }

    ghost predicate Verifies(backupId: string)
      reads `entries
    {
      backupId in entries && Sound(entries[backupId], serialise)
    }

    /** Errors, any of which stops a restore, and warnings, none of which does. */
    method VerifyBackup(backupId: string, now: int) returns (errors: seq<VerifyError>, warnings: seq<Warning>)
      ensures errors == [] <==> Verifies(backupId)
      ensures NotFound in errors <==> backupId !in entries
      ensures ChecksumMismatch in errors <==>
              backupId in entries && Checksum(serialise(entries[backupId].data)) != entries[backupId].manifest.checksum
      ensures VersionMismatch in errors <==> backupId in entries && entries[backupId].manifest.version != BACKUP_VERSION
      ensures NoKeys in errors <==> backupId in entries && entries[backupId].manifest.keys == []
      ensures Stale in warnings <==>
              backupId in entries && now - entries[backupId].manifest.createdAt > RPO_SECONDS * 1000
      ensures forall k :: SnapshotGap(k) in warnings <==>
          backupId in entries && k in contractKeys && Gap(entries[backupId], k)
      ensures MarkerMismatch in warnings <==>
              backupId in entries && entries[backupId].proofMarker != entries[backupId].manifest.marker
    {
      hide Checksum;
      errors, warnings := [], [];
      if backupId !in entries { return [NotFound], []; }
      var entry := entries[backupId];
      var recomputed := ComputeChecksum(serialise(entry.data));
      if recomputed != entry.manifest.checksum { errors := errors + [ChecksumMismatch]; }
      if entry.manifest.version != BACKUP_VERSION { errors := errors + [VersionMismatch]; }
      if |entry.manifest.keys| == 0 { errors := errors + [NoKeys]; }
      if now - entry.manifest.createdAt > RPO_SECONDS * 1000 { warnings := warnings + [Stale]; }
      for i := 0 to |contractKeys|
        invariant Stale in warnings <==> now - entry.manifest.createdAt > RPO_SECONDS * 1000
        invariant MarkerMismatch !in warnings
        invariant forall k :: SnapshotGap(k) in warnings <==> k in contractKeys[..i] && Gap(entry, k)
      {
        if Gap(entry, contractKeys[i]) { warnings := warnings + [SnapshotGap(contractKeys[i])]; }
      }
      assert contractKeys[..|contractKeys|] == contractKeys;
      if entry.proofMarker != entry.manifest.marker { warnings := warnings + [MarkerMismatch]; }
    }

    /** Restores a backup that verifies and otherwise touches nothing. For a listed
        one that is all there is to it but an empty list of keys, and every key it
        covers gets back what it held when the backup was taken. */
    method RestoreBackup(backupId: string, now: int) returns (success: bool, restoredKeys: set<string>)
      modifies `app
      ensures success <==> Verifies(backupId)
      ensures app == if success then Restored(old(app), entries[backupId]) else old(app)
      ensures restoredKeys == if success then entries[backupId].data.Keys else {}
      ensures Indexed() && ByIdIn(index, backupId) ==> RestoresOrigin(old(app), app, backupId, success)
      ensures old(Valid()) ==> Keeps(old(State()), State(), old(Taken()), maxBackups, serialise)
    {
      hide Sound, Kept, Intact, Restored, ByIdIn, Lookup, Keeps, Captured;
      WritingKeeps(State(), if Verifies(backupId) then Restored(app, entries[backupId]) else app, Taken(), maxBackups,
                   serialise);
      KeptListed(index, entries, origin, serialise, backupId);
      var errors, _ := VerifyBackup(backupId, now);
      if |errors| > 0 { return false, {}; }
      var entry := entries[backupId];
      if Indexed() && ByIdIn(index, backupId) { RestoredOrigin(app, entry, origin[backupId], serialise); }
      WriteBack(entry);
      return true, entry.data.Keys;
    }

    method WriteBack(entry: Entry)
      modifies `app
      ensures app == Restored(old(app), entry)
    {
      hide Values, Absent, MultiSet, MultiRemove;
      var pairs, nullKeys := Values(entry.data), Absent(entry.data);
      NothingToDo(app, pairs, {});
      if |pairs| > 0 { app := MultiSet(app, pairs); }
      NothingToDo(app, map[], nullKeys);
      if |nullKeys| > 0 { app := MultiRemove(app, nullKeys); }
      NothingToDo(app, entry.contractSnapshot, {});
      if |entry.contractSnapshot| > 0 { app := MultiSet(app, entry.contractSnapshot); }
    }

    ghost predicate RestoresOrigin(before: Storage, after: Storage, backupId: string, success: bool)
      reads `entries, `origin
    {
      && backupId in entries && backupId in origin
      && (success <==> entries[backupId].manifest.keys != [])
      && (success ==> forall k :: Lookup(after, k) == if k in origin[backupId]
          then origin[backupId][k] else Lookup(before, k))
    }

    /** Restores the newest backup that verifies, of the region if one is named; if
        there is none, nothing is touched. */
    method Failover(region: string, now: int) returns (success: bool)
      modifies `app
      ensures success <==> exists m :: m in index && (region == "" || m.region == region) && Verifies(m.id)
      ensures success ==>
                exists m ::
                  && m in index && (region == "" || m.region == region) && Verifies(m.id)
                  && app == Restored(old(app), entries[m.id])
                  && forall n :: n in index && (region == "" || n.region == region) && Verifies(n.id) ==>
                       n.createdAt <= m.createdAt
      ensures !success ==> app == old(app)
      ensures old(Valid()) ==> Keeps(old(State()), State(), old(Taken()), maxBackups, serialise)
    {
      hide Restored, Sound, Kept, RestoresOrigin, Keeps, Captured;
      WritingKeeps(State(), app, Taken(), maxBackups, serialise);
      var listed := ListBackups(region);
      for i := 0 to |listed|
        invariant app == old(app) && forall j :: 0 <= j < i && InRegion(region, listed[j]) ==> !Verifies(listed[j].id)
      {
        if region == "" || listed[i].region == region {
          var restored, _ := RestoreBackup(listed[i].id, now);
          if restored {
            assert listed[i] in listed;
            return true;
          }
        }
      }
      return false;
    }

    /** Backs up, verifies and restores at once, taking `elapsed` for the restore. A
        drill leaves the application's storage as it was, and passes exactly when
        there is a key to back up, the backup outlives its own creation, and the
        restore is in time. It can warn of the backup's age only. */
    method RunDrDrill(newId: string, marker: string, now: int, verifiedAt: int, elapsed: int, finishedAt: int)
      returns (passed: bool, rtoCompliant: bool, rpoCompliant: bool, warnings: seq<Warning>)
      requires Valid() && FreshId(newId, entries)
      modifies `app, `entries, `index, `origin
      ensures Valid() && app == old(app)
      ensures rtoCompliant == (elapsed <= RTO_SECONDS * 1000)
          && rpoCompliant == (finishedAt - now <= RPO_SECONDS * 1000)
      ensures passed <==>
              && appKeys + contractKeys != [] && Newer(old(Listed()), now) + 3 <= maxBackups
              && elapsed <= RTO_SECONDS * 1000
      ensures forall w :: w in warnings ==> w == Stale && verifiedAt - now > RPO_SECONDS * 1000
      ensures Keeps(old(State()), State(), old(Taken()), maxBackups, serialise)
    {
      hide Kept, Keeps, Sound, Restored, Lookup, Captured, SortBy, Newer, Backlog, Checksum, FreshId;
      var manifest := CreateBackup("", newId, marker, now);
      var errors;
      errors, warnings := VerifyBackup(newId, verifiedAt);
      var recovered, _ := RestoreBackup(newId, verifiedAt);
      rtoCompliant := elapsed <= RTO_SECONDS * 1000;
      rpoCompliant := finishedAt - manifest.createdAt <= RPO_SECONDS * 1000;
      passed := errors == [] && recovered && rtoCompliant;
      if manifest in index {
        assert ByIdIn(index, newId);
        DrillRestores(old(app), app, appKeys + contractKeys, origin[newId], recovered);
      }
      forall w | w in warnings ensures w == Stale && verifiedAt - now > RPO_SECONDS * 1000 {
        match w
        case Stale =>
        case SnapshotGap(_) =>
        case MarkerMismatch =>
      }
    }
  }

  /** Nothing in it but its age can draw a warning. */
  ghost predicate Unremarkable(e: Entry, contractKeys: seq<string>) {
    e.proofMarker == e.manifest.marker && forall k :: k in contractKeys ==> !Gap(e, k)
  }

  lemma SnapshotComplete(e: Entry, app: Storage, keys: seq<string>, contractKeys: seq<string>)
    requires e.proofMarker == e.manifest.marker && e.data == Captured(app, keys)
    requires forall k :: k in contractKeys && k in app ==> k in e.contractSnapshot
    ensures Unremarkable(e, contractKeys)
  {
  }

  ghost predicate ByIdIn(index: seq<Manifest>, id: string) {
    exists m :: m in index && m.id == id
  }

  function DropEntries(entries: map<string, Entry>, ids: set<string>): map<string, Entry> {
    entries - ids
  }

  function IdSet(s: seq<Manifest>): set<string> {
    set m | m in s :: m.id
  }

  function Ids(s: seq<Manifest>): seq<string> {
    Map(s, (m: Manifest) => m.id)
  }

  function Push(s: seq<Manifest>, m: Manifest, max: nat): seq<Manifest> {
    Cut(InsertSorted(m, s, NotOlder), max)
  }

  function ReplicaId(id: string, region: string): string {
    id + "_" + region
  }

  function ReplicaOf(m: Manifest, region: string): Manifest {
    m.(region := region, id := ReplicaId(m.id, region))
  }

  /** The id of a backup's copy in another region. */
  ghost predicate IsCopy(base: string, id: string) {
    exists r :: r in REPLICA_REGIONS && id == ReplicaId(base, r)
  }

  ghost predicate CopiesFree(id: string, entries: map<string, Entry>) {
    forall r :: r in REPLICA_REGIONS ==> ReplicaId(id, r) !in entries
  }

  lemma CopiesStayFree(id: string, before: map<string, Entry>, after: map<string, Entry>)
    requires CopiesFree(id, before) && forall other :: other in after ==> other in before || other == id
    ensures CopiesFree(id, after)
  {
    forall r | r in REPLICA_REGIONS ensures ReplicaId(id, r) !in after {
      assert |ReplicaId(id, r)| > |id|;
    }
  }

  /** An id that neither a backup nor a copy of one has. */
  ghost predicate FreshId(id: string, entries: map<string, Entry>) {
    id !in entries && CopiesFree(id, entries)
  }

  function PushReplicas(s: seq<Manifest>, m: Manifest, n: nat, max: nat): seq<Manifest>
    requires n <= |REPLICA_REGIONS|
  {
    if n == 0 then s else Push(PushReplicas(s, m, n - 1, max), ReplicaOf(m, REPLICA_REGIONS[n - 1]), max)
  }

  /** The list once a backup is made. */
  function Backlog(s: seq<Manifest>, m: Manifest, max: nat): seq<Manifest> {
    var pushed := Push(s, m, max);
    if m.region == CURRENT_REGION then PushReplicas(pushed, m, |REPLICA_REGIONS|, max) else pushed
  }

  function Captured(app: Storage, keys: seq<string>): Data {
    map k | k in keys :: Lookup(app, k)
  }

  function Places(m: Manifest): nat {
    if m.region == CURRENT_REGION then 1 + |REPLICA_REGIONS| else 1
  }

  /** How many are strictly newer. */
  function Newer(s: seq<Manifest>, now: int): nat {
    if s == [] then 0 else (if s[0].createdAt > now then 1 else 0) + Newer(s[1..], now)
  }

  lemma {:induction false} NewerBefore(s: seq<Manifest>, p: nat, now: int)
    requires Sorted(s, NotOlder) && p < |s| && s[p].createdAt <= now
    ensures Newer(s, now) <= p
  {
    SortedTail(s, NotOlder);
    if p > 0 {
      NewerBefore(s[1..], p - 1, now);
    } else if |s| > 1 {
      assert NotOlder(s[0], s[1]);
      NewerBefore(s[1..], 0, now);
    }
  }

  /** A manifest goes right behind the strictly newer ones. */
  lemma {:induction false} InsertPosition(s: seq<Manifest>, x: Manifest)
    requires Sorted(s, NotOlder)
    ensures var q := Newer(s, x.createdAt); q <= |s| && InsertSorted(x, s, NotOlder) == s[..q] + [x] + s[q..]
  {
    if s != [] {
      if NotOlder(x, s[0]) {
        NewerBefore(s, 0, x.createdAt);
      } else {
        SortedTail(s, NotOlder);
        InsertPosition(s[1..], x);
      }
    }
  }

  /** The list has `m` at place `p` and nowhere else, or, with no room there, not at all. */
  ghost predicate PlacedAt(s: seq<Manifest>, m: Manifest, p: nat, max: nat) {
    && Sorted(s, NotOlder)
    && OnlyAt(s, m, p)
    && (p < max <==> p < |s| && s[p] == m)
  }

  lemma {:induction false} PushPlaces(s: seq<Manifest>, m: Manifest, max: nat)
    requires Sorted(s, NotOlder) && m !in s
    ensures PlacedAt(Push(s, m, max), m, Newer(s, m.createdAt), max)
  {
    InsertPosition(s, m);
    InsertSortedSorted(m, s, NotOlder);
  }

  lemma CutSorted(s: seq<Manifest>, max: nat)
    requires Sorted(s, NotOlder)
    ensures Sorted(Cut(s, max), NotOlder)
  {
  }

  ghost predicate OnlyAt(s: seq<Manifest>, m: Manifest, p: nat) {
    forall i :: 0 <= i < |s| && i != p ==> s[i] != m
  }

  lemma Shifted(s: seq<Manifest>, m: Manifest, x: Manifest, q: nat, p: nat)
    requires q <= |s| && x != m && OnlyAt(s, m, p) && (p < |s| && s[p] == m ==> q <= p)
    ensures var longer := s[..q] + [x] + s[q..];
            OnlyAt(longer, m, p + 1) && (p + 1 < |longer| && longer[p + 1] == m <==> p < |s| && s[p] == m)
  {
    var longer := s[..q] + [x] + s[q..];
    forall i | 0 <= i < |longer| ensures longer[i] == if i < q then s[i] else if i == q then x else s[i - 1] {
    }
  }

  lemma PushMoves(s: seq<Manifest>, m: Manifest, x: Manifest, p: nat, max: nat)
    requires PlacedAt(s, m, p, max) && x != m && x.createdAt == m.createdAt
    ensures PlacedAt(Push(s, x, max), m, p + 1, max)
  {
    hide Newer, InsertSorted, Sorted;
    InsertPosition(s, x);
    InsertSortedSorted(x, s, NotOlder);
    CutSorted(InsertSorted(x, s, NotOlder), max);
    if p < |s| && s[p] == m { NewerBefore(s, p, m.createdAt); }
    Shifted(s, m, x, Newer(s, x.createdAt), p);
  }

  lemma {:induction false} ReplicasMove(s: seq<Manifest>, m: Manifest, n: nat, p: nat, max: nat)
    requires n <= |REPLICA_REGIONS| && PlacedAt(s, m, p, max)
    ensures PlacedAt(PushReplicas(s, m, n, max), m, p + n, max)
  {
    if n > 0 {
      ReplicasMove(s, m, n - 1, p, max);
      var replica := ReplicaOf(m, REPLICA_REGIONS[n - 1]);
      assert |replica.id| > |m.id|;
      PushMoves(PushReplicas(s, m, n - 1, max), m, replica, p + n - 1, max);
    }
  }

  lemma {:induction false} PlaceKept(s: seq<Manifest>, m: Manifest, max: nat)
    requires Sorted(s, NotOlder) && m !in s
    ensures m in Backlog(s, m, max) <==> Newer(s, m.createdAt) + Places(m) <= max
  {
    var q := Newer(s, m.createdAt);
    PushPlaces(s, m, max);
    if m.region == CURRENT_REGION {
      ReplicasMove(Push(s, m, max), m, |REPLICA_REGIONS|, q, max);
    }
  }

  lemma {:induction false} NewerInserted(s: seq<Manifest>, x: Manifest, t: int)
    ensures Newer(InsertSorted(x, s, NotOlder), t) == Newer(s, t) + if x.createdAt > t then 1 else 0
  {
    if s != [] && !NotOlder(x, s[0]) { NewerInserted(s[1..], x, t); }
  }

  lemma {:induction false} NewerAllFirst(s: seq<Manifest>, t: int, max: nat)
    requires Sorted(s, NotOlder) && Newer(s, t) <= max
    ensures Newer(Cut(s, max), t) == Newer(s, t)
    decreases |s|
  {
    if |s| > max > 0 {
      if s[0].createdAt > t {
        SortedTail(s, NotOlder);
        assert Cut(s, max) == [s[0]] + Cut(s[1..], max - 1);
        NewerAllFirst(s[1..], t, max - 1);
      } else {
        NoneNewerBehind(s, t);
        CutSorted(s, max);
        NoneNewerBehind(Cut(s, max), t);
      }
    }
  }

  /** Behind one that is not newer none is. */
  lemma {:induction false} NoneNewerBehind(s: seq<Manifest>, t: int)
    requires Sorted(s, NotOlder) && s != [] && s[0].createdAt <= t
    ensures Newer(s, t) == 0
  {
    NewerBefore(s, 0, t);
  }

  /** Pushing one that is not newer changes nothing in front. */
  lemma {:induction false} NewerPushed(s: seq<Manifest>, x: Manifest, t: int, max: nat)
    requires Sorted(s, NotOlder) && x.createdAt <= t && Newer(s, t) <= max
    ensures Newer(Push(s, x, max), t) == Newer(s, t) && Sorted(Push(s, x, max), NotOlder)
    ensures forall y :: y in Push(s, x, max) ==> y in s || y == x
  {
    hide Newer;
    NewerInserted(s, x, t);
    InsertSortedSorted(x, s, NotOlder);
    NewerAllFirst(InsertSorted(x, s, NotOlder), t, max);
    CutSorted(InsertSorted(x, s, NotOlder), max);
    InsertSortedContents(x, s, NotOlder);
    forall y | y in Push(s, x, max) ensures y in s || y == x {
      assert y in InsertSorted(x, s, NotOlder);
      assert y in multiset(InsertSorted(x, s, NotOlder));
    }
  }

  lemma {:induction false} ReplicasPushed(s: seq<Manifest>, m: Manifest, n: nat, max: nat)
    requires n <= |REPLICA_REGIONS| && Sorted(s, NotOlder) && Newer(s, m.createdAt) <= max
    ensures var t := PushReplicas(s, m, n, max);
            && Newer(t, m.createdAt) == Newer(s, m.createdAt) && Sorted(t, NotOlder)
            && forall y :: y in t ==> y in s || exists j :: 0 <= j < n && y == ReplicaOf(m, REPLICA_REGIONS[j])
  {
    hide Newer, Push, Sorted, ReplicaOf;
    if n > 0 {
      ReplicasPushed(s, m, n - 1, max);
      KeepsTime(m, REPLICA_REGIONS[n - 1]);
      NewerPushed(PushReplicas(s, m, n - 1, max), ReplicaOf(m, REPLICA_REGIONS[n - 1]), m.createdAt, max);
    }
  }

  lemma KeepsTime(m: Manifest, region: string)
    ensures ReplicaOf(m, region).createdAt == m.createdAt
  {
  }

  lemma CopyApart(m: Manifest, j: nat, k: nat)
    requires j < k < |REPLICA_REGIONS|
    ensures ReplicaOf(m, REPLICA_REGIONS[j]) != ReplicaOf(m, REPLICA_REGIONS[k])
  {
    assert ReplicaOf(m, REPLICA_REGIONS[j]).region != ReplicaOf(m, REPLICA_REGIONS[k]).region;
  }

  /** Each copy goes behind the strictly newer ones, and the later copies before it. */
  lemma {:induction false} CopyPlaced(s: seq<Manifest>, m: Manifest, j: nat, n: nat, max: nat)
    requires j < n <= |REPLICA_REGIONS| && Sorted(s, NotOlder) && Newer(s, m.createdAt) <= max
    requires ReplicaOf(m, REPLICA_REGIONS[j]) !in s
    ensures PlacedAt(PushReplicas(s, m, n, max), ReplicaOf(m, REPLICA_REGIONS[j]),
                     Newer(s, m.createdAt) + (n - 1 - j), max)
  {
    hide Newer, Push, Sorted, ReplicaOf, PlacedAt;
    var copy := ReplicaOf(m, REPLICA_REGIONS[j]);
    var before := PushReplicas(s, m, n - 1, max);
    KeepsTime(m, REPLICA_REGIONS[j]);
    KeepsTime(m, REPLICA_REGIONS[n - 1]);
    if n == j + 1 {
      ReplicasPushed(s, m, j, max);
      forall k | 0 <= k < j ensures ReplicaOf(m, REPLICA_REGIONS[k]) != copy {
        CopyApart(m, k, j);
      }
      PushPlaces(before, copy, max);
    } else {
      CopyPlaced(s, m, j, n - 1, max);
      CopyApart(m, j, n - 1);
      PushMoves(before, copy, ReplicaOf(m, REPLICA_REGIONS[n - 1]), Newer(s, m.createdAt) + (n - 2 - j), max);
    }
  }

  /** A copy of a home backup is listed, in its own region, exactly when it and the copies
      made after it fit behind the strictly newer ones. */
  lemma {:induction false} CopiesListed(s: seq<Manifest>, m: Manifest, j: nat, max: nat)
    requires Sorted(s, NotOlder) && |s| <= max && m.region == CURRENT_REGION && j < |REPLICA_REGIONS|
    requires forall y :: y in s ==> y.id != m.id && y.id != m.id + "_" + REPLICA_REGIONS[j]
    ensures m.(region := REPLICA_REGIONS[j], id := m.id + "_" + REPLICA_REGIONS[j]) in Backlog(s, m, max)
            <==> Newer(s, m.createdAt) + |REPLICA_REGIONS| - j <= max
  {
    hide Newer, Push, Sorted, PushReplicas;
    var copy := ReplicaOf(m, REPLICA_REGIONS[j]);
    assert |copy.id| > |m.id|;
    NewerWithin(s, m.createdAt);
    NewerPushed(s, m, m.createdAt, max);
    CopyPlaced(Push(s, m, max), m, j, |REPLICA_REGIONS|, max);
    var t, p := Backlog(s, m, max), Newer(s, m.createdAt) + |REPLICA_REGIONS| - 1 - j;
    assert copy in t <==> p < |t| && t[p] == copy;
  }

  lemma CopiesFollow(v: Vault, w: Vault, m: Manifest, max: nat, serialise: Data -> seq<Unit>)
    requires Whole(v, max, serialise) && FreshId(m.id, v.entries) && m.region == CURRENT_REGION
    requires SortBy(w.index, NotOlder) == Backlog(SortBy(v.index, NotOlder), m, max)
    ensures CopiesIn(w.index, m, Newer(SortBy(v.index, NotOlder), m.createdAt), max)
  {
    hide Newer, Backlog, SortBy, Kept, Sorted;
    var s := SortBy(v.index, NotOlder);
    NotListed(v.index, v.entries, v.origin, serialise, m);
    KeptStored(v.index, v.entries, v.origin, serialise);
    SortByContents(v.index, NotOlder);
    SortByContents(w.index, NotOlder);
    forall y | y in s ensures y.id in v.entries {
      assert y in multiset(s);
    }
    forall j | 0 <= j < |REPLICA_REGIONS|
      ensures m.(region := REPLICA_REGIONS[j], id := m.id + "_" + REPLICA_REGIONS[j]) in w.index
              <==> Newer(s, m.createdAt) + |REPLICA_REGIONS| - j <= max
    {
      var copy := m.(region := REPLICA_REGIONS[j], id := m.id + "_" + REPLICA_REGIONS[j]);
      assert ReplicaId(m.id, REPLICA_REGIONS[j]) !in v.entries;
      CopiesListed(s, m, j, max);
      assert copy in w.index <==> copy in multiset(SortBy(w.index, NotOlder));
    }
  }

  /** Each copy listed in its own region, if there is room for it. */
  ghost predicate CopiesIn(index: seq<Manifest>, m: Manifest, newer: nat, max: nat) {
    forall j :: 0 <= j < |REPLICA_REGIONS| ==>
      (m.(region := REPLICA_REGIONS[j], id := m.id + "_" + REPLICA_REGIONS[j]) in index
       <==> newer + |REPLICA_REGIONS| - j <= max)
  }

  lemma {:induction false} NewerWithin(s: seq<Manifest>, t: int)
    ensures Newer(s, t) <= |s|
  {
    if s != [] { NewerWithin(s[1..], t); }
  }

  lemma {:induction false} ListedUnique(index: seq<Manifest>, entries: map<string, Entry>, origin: map<string, Data>,
                     serialise: Data -> seq<Unit>)
    requires Kept(multiset(index), entries, origin, serialise)
    ensures Sorted(SortBy(index, NotOlder), NotOlder) && UniqueIds(multiset(SortBy(index, NotOlder)))
  {
    SortByContents(index, NotOlder);
    SortBySorted(index, NotOlder);
  }

  lemma UniqueFewer(ms: multiset<Manifest>, m: Manifest)
    requires UniqueIds(ms)
    ensures UniqueIds(ms - multiset{m})
  {
  }

  lemma SortedWithout(s: seq<Manifest>, p: nat)
    requires p < |s| && Sorted(s, NotOlder)
    ensures Sorted(s[..p] + s[p + 1..], NotOlder)
  {
  }

  lemma {:induction false} PruneStep(kept: seq<Manifest>, rest: seq<Manifest>)
    requires rest != [] && Sorted(kept + rest, NotOlder) && UniqueIds(multiset(kept + rest))
    ensures var left := Filter(kept + rest, ById(rest[0].id));
            && SortBy(left, NotOlder) == kept + rest[1..] && Sorted(kept + rest[1..], NotOlder)
            && UniqueIds(multiset(kept + rest[1..]))
  {
    hide *;
    var s, p := kept + rest, |kept|;
    DropId(s, p);
    SortedWithout(s, p);
    SpliceContents(s, p);
    UniqueFewer(multiset(s), s[p]);
    assert s[..p] + s[p + 1..] == kept + rest[1..];
    SortedStays(kept + rest[1..]);
  }

  lemma CutPrefix(s: seq<Manifest>, max: nat)
    ensures var kept := Cut(s, max); |kept| <= |s| && |kept| <= max && kept + s[|kept|..] == s
  {
  }

  lemma NoIds(entries: map<string, Entry>)
    ensures DropEntries(entries, IdSet([])) == entries
  {
  }

  lemma DroppedStay(entries: map<string, Entry>, ids: set<string>)
    ensures forall id :: id in DropEntries(entries, ids) ==>
        id in entries && DropEntries(entries, ids)[id] == entries[id]
  {
  }

  lemma DropMore(entries: map<string, Entry>, s: seq<Manifest>, i: nat)
    requires i < |s|
    ensures DropEntries(DropEntries(entries, IdSet(s[..i])), {s[i].id}) == DropEntries(entries, IdSet(s[..i + 1]))
  {
    assert s[..i + 1] == s[..i] + [s[i]];
    assert IdSet(s[..i + 1]) == IdSet(s[..i]) + {s[i].id};
  }

  lemma MadeIntact(e: Entry, app: Storage, data: Data, serialise: Data -> seq<Unit>)
    requires e.data == data == Captured(app, e.manifest.keys)
    requires e.manifest.checksum == Checksum(serialise(data)) && e.manifest.version == BACKUP_VERSION
    requires forall k :: k in e.contractSnapshot ==> k in data && data[k] == Some(e.contractSnapshot[k])
    ensures Intact(e, e.manifest, data, serialise)
  {
    assert e.manifest.keys != [] ==> e.manifest.keys[0] in data;
  }

  lemma KeptStored(index: seq<Manifest>, entries: map<string, Entry>, origin: map<string, Data>,
                   serialise: Data -> seq<Unit>)
    requires Kept(multiset(index), entries, origin, serialise)
    ensures forall m :: m in index ==> m.id in entries
  {
    assert forall m :: m in index ==> m in multiset(index);
  }

  lemma {:induction false} NotListed(index: seq<Manifest>, entries: map<string, Entry>, origin: map<string, Data>,
                  serialise: Data -> seq<Unit>, m: Manifest)
    requires Kept(multiset(index), entries, origin, serialise) && m.id !in entries
    ensures Sorted(SortBy(index, NotOlder), NotOlder) && m !in SortBy(index, NotOlder)
  {
    KeptStored(index, entries, origin, serialise);
    ListedUnique(index, entries, origin, serialise);
    SortByContents(index, NotOlder);
    assert m in SortBy(index, NotOlder) <==> m in multiset(index);
  }

  lemma NoCopies(id: string, entries: map<string, Entry>)
    requires CopiesFree(id, entries)
    ensures forall other :: other in entries ==> !IsCopy(id, other)
  {
  }

  /** What is stored has an origin. */
  lemma KeptKnown(v: Vault, max: nat, serialise: Data -> seq<Unit>)
    requires Whole(v, max, serialise)
    ensures forall id :: id in v.entries ==> id in v.origin
  {
    forall id | id in v.entries ensures id in v.origin {
      var m :| m in multiset(v.index) && m.id == id;
    }
  }

  /** Deleting backups keeps the others. */
  lemma FewerKeeps(v: Vault, w: Vault, taken: Data, max: nat, serialise: Data -> seq<Unit>)
    requires Whole(v, max, serialise) && Whole(w, max, serialise) && w.origin == v.origin
    requires forall id :: id in w.entries ==> id in v.entries && w.entries[id] == v.entries[id]
    ensures Keeps(v, w, taken, max, serialise)
  {
    hide Kept;
    KeptKnown(v, max, serialise);
  }

  /** What the application writes, or a restore writes for it, touches no backup. */
  lemma WritingKeeps(v: Vault, app: Storage, taken: Data, max: nat, serialise: Data -> seq<Unit>)
    ensures Whole(v, max, serialise) ==> Keeps(v, v.(app := app), taken, max, serialise)
  {
    if Whole(v, max, serialise) { FewerKeeps(v, v.(app := app), taken, max, serialise); }
  }

  lemma DeletionKeeps(v: Vault, id: string, taken: Data, max: nat, serialise: Data -> seq<Unit>)
    ensures var left := Filter(SortBy(v.index, NotOlder), ById(id));
            Whole(v, max, serialise) ==>
                Keeps(v, v.(entries := DropEntries(v.entries, {id}), index := left), taken, max, serialise)
  {
    hide Kept, Filter, SortBy;
    KeptWithout(v.index, v.entries, v.origin, serialise, id);
    FilterShorter(SortBy(v.index, NotOlder), ById(id));
    SortByContents(v.index, NotOlder);
    if Whole(v, max, serialise) {
      FewerKeeps(v, v.(entries := DropEntries(v.entries, {id}), index := Filter(SortBy(v.index, NotOlder), ById(id))),
                 taken, max, serialise);
    }
  }

  /** Storing a backup and its copies, the list having been cut in between. */
  lemma StoringKeeps(v: Vault, listed: Vault, w: Vault, m: Manifest, data: Data, max: nat, serialise: Data -> seq<Unit>)
    requires Whole(v, max, serialise) && Whole(w, max, serialise) && FreshId(m.id, v.entries)
    requires forall id :: id in listed.entries ==>
               id == m.id || (id in v.entries && listed.entries[id] == v.entries[id])
    requires listed.origin == v.origin[m.id := data]
    requires forall id :: id in w.entries && !IsCopy(m.id, id) ==>
        id in listed.entries && w.entries[id] == listed.entries[id]
    requires forall id :: id in listed.origin && !IsCopy(m.id, id) ==> SameOrigin(listed.origin, w.origin, id)
    requires forall id :: id in w.entries && IsCopy(m.id, id) ==> id in w.origin && w.origin[id] == data
    ensures Keeps(v, w, data, max, serialise)
  {
    hide Kept, IsCopy, CopiesFree;
    KeptKnown(v, max, serialise);
    NoCopies(m.id, v.entries);
    CopiesDiffer(m.id);
  }

  lemma StoredExactly(v: Vault, w: Vault, m: Manifest, max: nat, serialise: Data -> seq<Unit>)
    requires Whole(v, max, serialise) && Whole(w, max, serialise) && m.id !in v.entries
    requires SortBy(w.index, NotOlder) == Backlog(SortBy(v.index, NotOlder), m, max)
    ensures m in w.index <==> Newer(SortBy(v.index, NotOlder), m.createdAt) + Places(m) <= max
    ensures m in w.index ==> m.id in w.entries
    ensures m.id in w.entries && w.entries[m.id].manifest == m ==> m in w.index
  {
    hide Kept, Newer, Places, Backlog, SortBy;
    NotListed(v.index, v.entries, v.origin, serialise, m);
    PlaceKept(SortBy(v.index, NotOlder), m, max);
    SortByContents(w.index, NotOlder);
    assert m in w.index <==> m in multiset(SortBy(w.index, NotOlder));
    KeptMatches(w.index, w.entries, w.origin, serialise);
  }

  lemma CopyIntact(e: Entry, m: Manifest, region: string, data: Data, serialise: Data -> seq<Unit>)
    requires Intact(e, m, data, serialise)
    ensures Intact(e.(manifest := ReplicaOf(m, region)), ReplicaOf(m, region), data, serialise)
  {
  }

  lemma CopiesDiffer(id: string)
    ensures !IsCopy(id, id)
  {
    forall r ensures ReplicaId(id, r) != id {
      assert |ReplicaId(id, r)| > |id|;
    }
  }

  lemma KeptMatches(index: seq<Manifest>, entries: map<string, Entry>, origin: map<string, Data>,
                    serialise: Data -> seq<Unit>)
    requires Kept(multiset(index), entries, origin, serialise)
    ensures forall id :: id in entries ==> entries[id].manifest in index
    ensures forall m :: m in index ==> m.id in entries
  {
    assert forall m :: m in index <==> m in multiset(index);
    forall id | id in entries ensures entries[id].manifest in index {
      var m :| m in multiset(index) && m.id == id;
    }
  }

  lemma DrillRestores(before: Storage, after: Storage, keys: seq<string>, origin: Data, success: bool)
    requires origin == Captured(before, keys)
    requires !success ==> after == before
    requires success ==> forall k :: Lookup(after, k) == if k in origin then origin[k] else Lookup(before, k)
    ensures after == before
  {
    if success { SameLookups(after, before); }
  }

  /** With a clock that does not go back, a home backup survives its own creation
      exactly when at least three are kept. */
  lemma SurvivesExactly(s: seq<Manifest>, m: Manifest, max: nat)
    requires Sorted(s, NotOlder) && m !in s && forall x :: x in s ==> x.createdAt <= m.createdAt
    ensures m in Backlog(s, m, max) <==> max >= if m.region == CURRENT_REGION then 3 else 1
  {
    if s != [] { NewerBefore(s, 0, m.createdAt); }
    PlaceKept(s, m, max);
  }

  lemma KeptListed(index: seq<Manifest>, entries: map<string, Entry>, origin: map<string, Data>,
                   serialise: Data -> seq<Unit>, id: string)
    ensures Kept(multiset(index), entries, origin, serialise) && ByIdIn(index, id) ==>
              id in entries && id in origin && Intact(entries[id], entries[id].manifest, origin[id], serialise)
              && (Sound(entries[id], serialise) <==> entries[id].manifest.keys != [])
  {
    hide Checksum;
    if Kept(multiset(index), entries, origin, serialise) && ByIdIn(index, id) {
      var m :| m in index && m.id == id;
      assert m in multiset(index);
    }
  }

  lemma KeptAdded(ms: multiset<Manifest>, entries: map<string, Entry>, origin: map<string, Data>,
                  serialise: Data -> seq<Unit>,
                  m: Manifest, e: Entry, data: Data)
    requires Kept(ms, entries, origin, serialise) && m.id !in entries && Intact(e, m, data, serialise)
    ensures Kept(ms + multiset{m}, entries[m.id := e], origin[m.id := data], serialise)
  {
    hide Intact;
    assert m !in ms;
    forall id | id in entries[m.id := e] ensures HasId(ms + multiset{m}, id) {
      if id == m.id {
        assert m in ms + multiset{m};
      } else {
        var other :| other in ms && other.id == id;
        assert other in ms + multiset{m};
      }
    }
  }

  lemma RestoredOrigin(app: Storage, e: Entry, origin: Data, serialise: Data -> seq<Unit>)
    requires Intact(e, e.manifest, origin, serialise)
    ensures forall k :: Lookup(Restored(app, e), k) == if k in origin then origin[k] else Lookup(app, k)
  {
    hide Checksum, Restored, Lookup;
    RestoredExactly(app, e);
  }

  function OfRegion(region: string): Manifest -> bool {
    (m: Manifest) => InRegion(region, m)
  }

  function Instant(t: int): Manifest -> bool {
    (m: Manifest) => m.createdAt == t
  }

  function InstantIn(t: int, region: string): Manifest -> bool {
    (m: Manifest) => InRegion(region, m) && m.createdAt == t
  }

  /** Without a region named, all are of it. */
  lemma {:induction false} AllOfNoRegion(index: seq<Manifest>)
    ensures Filter(index, OfRegion("")) == index
  {
    FilterRun(index, 0, |index|, OfRegion(""));
  }

  lemma {:induction false} ListedRegion(index: seq<Manifest>, region: string)
    ensures var listed := SortBy(Filter(index, OfRegion(region)), NotOlder);
            && Sorted(listed, NotOlder)
            && (forall m :: m in listed <==> m in index && InRegion(region, m))
            && forall t :: Filter(listed, Instant(t)) == Filter(index, InstantIn(t, region))
  {
    var chosen := Filter(index, OfRegion(region));
    SortBySorted(chosen, NotOlder);
    hide Sorted, SortBy, Filter, InRegion;
    forall m ensures m in SortBy(chosen, NotOlder) <==> m in index && InRegion(region, m) {
      SortByContents(chosen, NotOlder);
      FilterCount(index, OfRegion(region), m);
      assert m in SortBy(chosen, NotOlder) <==> m in multiset(chosen);
      assert m in index <==> m in multiset(index);
    }
    forall t ensures Filter(SortBy(chosen, NotOlder), Instant(t)) == Filter(index, InstantIn(t, region)) {
      SortByStable(chosen, NotOlder, Instant(t));
      FilterTwice(index, InstantIn(t, region), OfRegion(region), Instant(t));
    }
  }

  lemma {:induction false} KeptWithout(index: seq<Manifest>, entries: map<string, Entry>, origin: map<string, Data>,
                    serialise: Data -> seq<Unit>, id: string)
    ensures Kept(multiset(index), entries, origin, serialise)
            ==> Kept(multiset(Filter(SortBy(index, NotOlder), ById(id))), entries - {id}, origin, serialise)
  {
    hide *;
    var left := multiset(Filter(SortBy(index, NotOlder), ById(id)));
    forall m ensures left[m] == if m.id != id then multiset(index)[m] else 0 {
      CountWithout(index, id, m);
    }
    if Kept(multiset(index), entries, origin, serialise) {
      assert forall m :: m in left ==> m.id != id;
      KeptWitness(multiset(index), left, entries, origin, serialise, id);
      KeptFewer(multiset(index), left, entries, entries - {id}, origin, serialise);
    }
  }

  lemma KeptWitness(ms: multiset<Manifest>, left: multiset<Manifest>, entries: map<string, Entry>,
                    origin: map<string, Data>, serialise: Data -> seq<Unit>, id: string)
    requires Kept(ms, entries, origin, serialise) && forall m :: left[m] == if m.id != id then ms[m] else 0
    ensures forall other :: other in entries - {id} ==> HasId(left, other)
  {
    forall other | other in entries - {id} ensures HasId(left, other) {
      var m :| m in ms && m.id == other;
      assert m in left;
    }
  }

  lemma {:induction false} CountWithout(index: seq<Manifest>, id: string, m: Manifest)
    ensures multiset(Filter(SortBy(index, NotOlder), ById(id)))[m] == if m.id != id then multiset(index)[m] else 0
  {
    SortByContents(index, NotOlder);
    FilterCount(SortBy(index, NotOlder), ById(id), m);
  }

  lemma UniqueLess(ms: multiset<Manifest>, left: multiset<Manifest>)
    requires UniqueIds(ms) && forall m :: left[m] <= ms[m]
    ensures UniqueIds(left)
  {
    forall m ensures left[m] <= 1 && (m in left ==> m in ms) {
      assert left[m] <= ms[m];
    }
  }

  lemma KeptFewer(ms: multiset<Manifest>, left: multiset<Manifest>, entries: map<string, Entry>,
                  remaining: map<string, Entry>,
                  origin: map<string, Data>, serialise: Data -> seq<Unit>)
    requires Kept(ms, entries, origin, serialise)
    requires forall m :: left[m] <= ms[m]
    requires forall m :: m in left && m.id in entries ==> m.id in remaining && remaining[m.id] == entries[m.id]
    requires forall id :: id in remaining ==> HasId(left, id)
    ensures Kept(left, remaining, origin, serialise)
  {
    hide Intact, HasId, UniqueIds;
    UniqueLess(ms, left);
    assert forall m :: m in left ==> m in ms;
  }

  // ------------------------------------------------------------------ over a run

  /** States one after the other, each left by an operation on the one before, or by the
      application writing to its own storage. */
  ghost predicate Runs(run: seq<Vault>, keys: seq<string>, max: nat, serialise: Data -> seq<Unit>) {
    forall k :: 0 <= k < |run| - 1 ==> Keeps(run[k], run[k + 1], Captured(run[k].app, keys), max, serialise)
  }

  lemma {:induction false} StaysAsTaken(run: seq<Vault>, keys: seq<string>, max: nat, serialise: Data -> seq<Unit>,
                                        i: nat, j: nat, id: string)
    requires Runs(run, keys, max, serialise) && i < j < |run|
    requires id !in run[i].entries && forall k :: i < k <= j ==> id in run[k].entries
    ensures Whole(run[j], max, serialise) && run[j].entries[id] == run[i + 1].entries[id]
    ensures id in run[j].origin && run[j].origin[id] == Captured(run[i].app, keys)
  {
    hide Whole, Captured;
    assert Keeps(run[j - 1], run[j - 1 + 1], Captured(run[j - 1].app, keys), max, serialise);
    if i < j - 1 { StaysAsTaken(run, keys, max, serialise, i, j - 1, id); }
  }

  /** A backup, or a copy of one, that is still stored, whatever was backed up, deleted,
      pruned, restored or written meanwhile, verifies exactly when there are keys, and a
      restore then gives every key the value it had when this backup was taken, and
      touches no other. */
  lemma RestoresCreation(run: seq<Vault>, keys: seq<string>, max: nat, serialise: Data -> seq<Unit>,
                         i: nat, j: nat, id: string, app: Storage)
    requires Runs(run, keys, max, serialise) && i < j < |run|
    requires id !in run[i].entries && forall k :: i < k <= j ==> id in run[k].entries
    ensures Sound(run[j].entries[id], serialise) <==> keys != []
    ensures forall k :: Lookup(Restored(app, run[j].entries[id]), k)
                        == if k in keys then Lookup(run[i].app, k) else Lookup(app, k)
  {
    hide Checksum, Restored, Lookup, Kept;
    StaysAsTaken(run, keys, max, serialise, i, j, id);
    var v, taken := run[j], Captured(run[i].app, keys);
    StoredIntact(v.index, v.entries, v.origin, serialise, id);
    RestoredOrigin(app, v.entries[id], taken, serialise);
    assert keys != [] ==> keys[0] in taken;
  }

  lemma StoredIntact(index: seq<Manifest>, entries: map<string, Entry>, origin: map<string, Data>,
                     serialise: Data -> seq<Unit>,
                     id: string)
    requires Kept(multiset(index), entries, origin, serialise) && id in entries
    ensures id in origin && Intact(entries[id], entries[id].manifest, origin[id], serialise)
  {
    hide Checksum;
    var m :| m in multiset(index) && m.id == id;
  }
}
