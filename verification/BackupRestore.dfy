/** Partition names. */
module PartitionNames {

  const DEFAULT_PARTITION := "$Default"

  function Upper(c: char): char {
    if 'a' <= c <= 'z' then c - 'a' + 'A' else c
  }

  predicate EqualsIgnoreCase(a: string, b: string) {
    |a| == |b| && forall i :: 0 <= i < |a| ==> Upper(a[i]) == Upper(b[i])
  }

  predicate IsDefaultName(name: string) {
    EqualsIgnoreCase(name, DEFAULT_PARTITION)
  }

  predicate IsWhiteSpace(c: char) {
    || '\t' <= c <= '\r' || c == ' ' || c == '\U{85}' || c == '\U{A0}' || c == '\U{1680}'
    || '\U{2000}' <= c <= '\U{200A}' || c == '\U{2028}' || c == '\U{2029}' || c == '\U{202F}'
    || c == '\U{205F}' || c == '\U{3000}'
  }

  /** A name that no provider accepts. */
  predicate IsBlank(name: string) {
    forall i :: 0 <= i < |name| ==> IsWhiteSpace(name[i])
  }

  /** A name is refused exactly when it is empty or holds white space only. */
  lemma BlankIff(name: string)
    ensures IsBlank(name) <==> name == "" || (IsBlank(name[1..]) && IsWhiteSpace(name[0]))
    ensures IsWhiteSpace(' ') && IsWhiteSpace('\t') && IsWhiteSpace('\n') && IsWhiteSpace('\r')
  {
    if name != "" && IsBlank(name[1..]) && IsWhiteSpace(name[0]) {
      assert forall i :: 1 <= i < |name| ==> name[i] == name[1..][i - 1];
    }
  }

  lemma DefaultIsNotBlank()
    ensures !IsBlank(DEFAULT_PARTITION)
  {
    assert !IsWhiteSpace(DEFAULT_PARTITION[0]);
  }
}

/** The backup directory: a metadata file and one directory of store files per backup. */
module BackupDisk {
  import opened Wrappers
  import opened StoreUtils
  import opened OrderedEntries
  import opened PartitionNames
  import Memory = InMemoryDbStore

  type Items = seq<Entry<Key, Memory.Value>>
  type Id = string

  datatype Metadata = Metadata(id: Id, stores: seq<string>)

  /** The newest backup comes first; a file that does not parse, or lists nothing, is unreadable. */
  datatype MetaFile = Unreadable | Newest(backup: Metadata)

  type Files = map<string, Items>

  datatype FileSystem = FileSystem(meta: Option<MetaFile>, dirs: map<Id, Files>)

  /** Metadata that names a directory that exists names a complete backup. */
  ghost predicate Safe(fs: FileSystem) {
    match fs.meta
    case Some(Newest(backup)) =>
      backup.id in fs.dirs ==> forall s :: s in backup.stores ==> s in fs.dirs[backup.id]
    case _ => true
  }

  /** No provider has a partition of a blank name, so no backup lists one. */
  ghost predicate NoBlankListed(fs: FileSystem) {
    match fs.meta
    case Some(Newest(backup)) => forall s :: s in backup.stores ==> !IsBlank(s)
    case _ => true
  }

  /** Metadata that exists does not name this backup. */
  ghost predicate Unnamed(fs: FileSystem, id: Id) {
    match fs.meta
    case Some(Newest(backup)) => backup.id != id
    case _ => true
  }

  /** Every state is safe, and none lists a blank name unless the first one does. */
  ghost predicate AllSafe(history: seq<FileSystem>) {
    forall i :: 0 <= i < |history| ==> Safe(history[i]) && (NoBlankListed(history[0]) ==> NoBlankListed(history[i]))
  }

  /**
   * The disk. The n-th operation fails when n is in `fails`; each operation
   * happens completely or not at all.
   */
  class Disk {
    const fails: set<nat>
    var tick: nat
    var fs: FileSystem
    ghost var history: seq<FileSystem>  // every state since the start, the current one last

    ghost predicate Valid()
      reads this
    {
      history != [] && history[|history| - 1] == fs && AllSafe(history)
    }

    constructor (fails: set<nat>, fs: FileSystem)
      requires Safe(fs)
      ensures Valid() && this.fs == fs && this.fails == fails && tick == 0 && history == [fs]
    {
      this.fails, this.fs, tick, history := fails, fs, 0, [fs];
    }

    /** Writes the files of a directory that the metadata does not name. */
    method WriteDirectory(id: Id, files: Files) returns (ok: bool)
      requires Valid() && Unnamed(fs, id)
      modifies this
      ensures Valid() && old(history) <= history
      ensures ok <==> old(tick) !in fails
      ensures tick == old(tick) + 1
      ensures fs == if ok then old(fs).(dirs := old(fs).dirs[id := files]) else old(fs)
    {
      ok := Change(fs.(dirs := fs.dirs[id := files]));
    }

    method DeleteDirectory(id: Id) returns (ok: bool)
      requires Valid()
      modifies this
      ensures Valid() && old(history) <= history
      ensures ok <==> old(tick) !in fails
      ensures tick == old(tick) + 1
      ensures fs == if ok then old(fs).(dirs := old(fs).dirs - {id}) else old(fs)
    {
      ok := Change(fs.(dirs := fs.dirs - {id}));
    }

    /** One operation that turns the file system into `next`, unless it fails. */
    method Change(next: FileSystem) returns (ok: bool)
      requires Valid() && Safe(next) && (NoBlankListed(fs) ==> NoBlankListed(next))
      modifies this
      ensures Valid() && old(history) <= history
      ensures ok <==> old(tick) !in fails
      ensures tick == old(tick) + 1
      ensures fs == if ok then next else old(fs)
    {
      ok := tick !in fails;
      tick := tick + 1;
      if ok {
        fs := next;
        history := history + [next];
      }
    }

    method Read() returns (ok: bool)
      requires Valid()
      modifies this`tick
      ensures ok <==> old(tick) !in fails
      ensures tick == old(tick) + 1
    {
      ok := tick !in fails;
      tick := tick + 1;
    }
  }
}

/** A store provider that restores its partitions when it opens and backs them up when it closes. */
module BackupRestore {
  import opened Wrappers
  import opened StoreUtils
  import opened OrderedEntries
  import Memory = InMemoryDbStore
  import opened PartitionNames
  import opened BackupDisk

  type Partitions = map<string, Items>

  datatype Outcome = NoBackup | Restored | RestoreFailed | RestoreThrew

  // --------------------------------------------------------------- on values

  function ItemsOf(p: Partitions, name: string): Items {
    if name in p then p[name] else []
  }

  function Opened(p: Partitions, name: string): Partitions {
    if name in p then p else p[name := []]
  }

  function PutAll(es: Items, items: Items): Items {
    if items == [] then es
    else
      var last := items[|items| - 1];
      Put(PutAll(es, items[..|items| - 1]), last.key, last.value)
  }

  lemma {:induction false} PutAllKeepsDistinct(es: Items, items: Items)
    requires Distinct(es)
    ensures Distinct(PutAll(es, items))
    decreases |items|
  {
    if items != [] {
      var init, last := items[..|items| - 1], items[|items| - 1];
      PutAllKeepsDistinct(es, init);
      PutActsOnOneKey(PutAll(es, init), last.key, last.value, last.key);
    }
  }

  /** A key without an item keeps its value. */
  lemma {:induction false} KeyWithoutItem(es: Items, items: Items, k: Key)
    requires Distinct(es) && forall i :: 0 <= i < |items| ==> items[i].key != k
    ensures Lookup(PutAll(es, items), k) == Lookup(es, k)
    decreases |items|
  {
    if items != [] {
      var init, last := items[..|items| - 1], items[|items| - 1];
      KeyWithoutItem(es, init, k);
      PutAllKeepsDistinct(es, init);
      PutActsOnOneKey(PutAll(es, init), last.key, last.value, k);
    }
  }

  /** Of several items with one key the last counts. */
  lemma {:induction false} LastItemCounts(es: Items, items: Items, i: nat)
    requires Distinct(es) && i < |items| && forall j :: i < j < |items| ==> items[j].key != items[i].key
    ensures Lookup(PutAll(es, items), items[i].key) == Some(items[i].value)
    decreases |items|
  {
    var init, last := items[..|items| - 1], items[|items| - 1];
    PutAllKeepsDistinct(es, init);
    PutActsOnOneKey(PutAll(es, init), last.key, last.value, items[i].key);
    if i < |items| - 1 {
      LastItemCounts(es, init, i);
    }
  }

  /** A listed store goes to the partition of its name; every spelling of the default name to the default. */
  function Target(store: string): string {
    if IsDefaultName(store) then DEFAULT_PARTITION else store
  }

  lemma TargetIsBlankIff(store: string)
    ensures IsBlank(Target(store)) <==> IsBlank(store)
  {
    DefaultIsNotBlank();
    if IsDefaultName(store) {
      assert Upper(store[0]) == Upper(DEFAULT_PARTITION[0]);
      assert !IsWhiteSpace(store[0]);
    }
  }

  ghost predicate NoneIsBlank(names: seq<string>) {
    forall i :: 0 <= i < |names| ==> !IsBlank(names[i])
  }

  /** The first `n` listed stores have a name and a file. */
  ghost predicate Fine(stores: seq<string>, files: Files, n: nat) {
    n <= |stores| && forall i :: 0 <= i < n ==> stores[i] in files && !IsBlank(stores[i])
  }

  lemma FineNext(stores: seq<string>, files: Files, n: nat)
    requires Fine(stores, files, n) && n < |stores|
    ensures Fine(stores, files, n + 1) <==> stores[n] in files && !IsBlank(stores[n])
    ensures Fine(stores, files, |stores|) ==> Fine(stores, files, n + 1)
  {
  }

  ghost predicate AllIn(names: seq<string>, files: Files) {
    forall i :: 0 <= i < |names| ==> names[i] in files
  }

  /** The partitions after the first `n` listed stores were read back into an empty provider. */
  ghost function RestoredUpTo(stores: seq<string>, files: Files, n: nat): Partitions
    requires n <= |stores| && forall i :: 0 <= i < n ==> stores[i] in files
  {
    if n == 0 then map[]
    else
      var before, t := RestoredUpTo(stores, files, n - 1), Target(stores[n - 1]);
      before[t := PutAll(ItemsOf(before, t), files[stores[n - 1]])]
  }

  ghost function RestoredFrom(stores: seq<string>, files: Files): Partitions
    requires AllIn(stores, files)
  {
    RestoredUpTo(stores, files, |stores|)
  }

  lemma {:induction false} PutAllOfDistinct(items: Items)
    requires Distinct(items)
    ensures PutAll([], items) == items
  {
    if items != [] {
      var init := items[..|items| - 1];
      PutAllOfDistinct(init);
      IndexOfIsUnique(init, items[|items| - 1].key, |init|);
      assert items == init + [items[|items| - 1]];
    }
  }

  ghost predicate Listing(stores: seq<string>, names: set<string>) {
    && (forall s :: s in stores <==> s in names)
    && (forall i, j :: 0 <= i < j < |stores| ==> stores[i] != stores[j])
  }

  /** No partition is named like the default partition in another spelling. */
  ghost predicate NoDefaultVariant(names: set<string>) {
    forall name <- names :: IsDefaultName(name) ==> name == DEFAULT_PARTITION
  }

  lemma {:induction false} RestoredNames(stores: seq<string>, files: Files, n: nat)
    requires n <= |stores| && forall i :: 0 <= i < n ==> stores[i] in files
    ensures forall name :: name in RestoredUpTo(stores, files, n) <==>
                           exists i :: 0 <= i < n && Target(stores[i]) == name
  {
    if n > 0 {
      RestoredNames(stores, files, n - 1);
    }
  }

  lemma {:induction false} RestoredContents(stores: seq<string>, files: Files, n: nat)
    requires forall i, j :: 0 <= i < j < |stores| ==> stores[i] != stores[j]
    requires forall i :: 0 <= i < |stores| ==>
               stores[i] in files && Distinct(files[stores[i]]) && Target(stores[i]) == stores[i]
    requires n <= |stores|
    ensures forall i :: 0 <= i < n ==>
              && stores[i] in RestoredUpTo(stores, files, n)
              && RestoredUpTo(stores, files, n)[stores[i]] == files[stores[i]]
  {
    if n > 0 {
      var before, store := RestoredUpTo(stores, files, n - 1), stores[n - 1];
      RestoredContents(stores, files, n - 1);
      assert store !in before by {
        RestoredNames(stores, files, n - 1);
      }
      PutAllOfDistinct(files[store]);
      assert RestoredUpTo(stores, files, n) == before[store := files[store]];
    }
  }

  lemma ReproducesWithoutVariant(stores: seq<string>, p: Partitions)
    requires Listing(stores, p.Keys) && AllIn(stores, p) && NoDefaultVariant(p.Keys)
    requires forall name <- p :: Distinct(p[name])
    ensures RestoredFrom(stores, p) == p
  {
    var r := RestoredFrom(stores, p);
    forall i | 0 <= i < |stores|
      ensures Target(stores[i]) == stores[i]
    {
      assert stores[i] in stores;
    }
    RestoredNames(stores, p, |stores|);
    RestoredContents(stores, p, |stores|);
    forall name
      ensures name in r <==> name in p
      ensures name in p ==> r[name] == p[name]
    {
      if name in p {
        var i :| 0 <= i < |stores| && stores[i] == name;
        assert Target(stores[i]) == name;
      }
    }
  }

  lemma VariantIsLost(stores: seq<string>, p: Partitions, name: string)
    requires AllIn(stores, p) && name in p && IsDefaultName(name) && name != DEFAULT_PARTITION
    ensures name !in RestoredFrom(stores, p)
  {
    RestoredNames(stores, p, |stores|);
    assert forall s :: Target(s) != name;
  }

  /**
   * Reading back a complete backup into an empty provider reproduces every
   * partition, entries in order, exactly when no partition is named like the
   * default partition in another spelling.
   */
  lemma RestoreReproducesIff(stores: seq<string>, p: Partitions)
    requires Listing(stores, p.Keys)
    requires forall name <- p :: Distinct(p[name])
    ensures AllIn(stores, p) && (RestoredFrom(stores, p) == p <==> NoDefaultVariant(p.Keys))
  {
    forall i | 0 <= i < |stores|
      ensures stores[i] in p
    {
      assert stores[i] in stores;
    }
    if NoDefaultVariant(p.Keys) {
      ReproducesWithoutVariant(stores, p);
    } else {
      var name :| name in p && IsDefaultName(name) && name != DEFAULT_PARTITION;
      VariantIsLost(stores, p, name);
    }
  }

  /** A partition called `$default` comes back as `$Default`. */
  lemma OtherSpellingIsRenamed(e: Entry<Key, Memory.Value>)
    ensures RestoredFrom(["$default"], map["$default" := [e]]) == map[DEFAULT_PARTITION := [e]]
    ensures map[DEFAULT_PARTITION := [e]] != map["$default" := [e]]
  {
    var stores, files := ["$default"], map["$default" := [e]];
    assert IsDefaultName("$default");
    assert RestoredUpTo(stores, files, 0) == map[];
    PutAllOfDistinct([e]);
    assert RestoredUpTo(stores, files, 1) == map[DEFAULT_PARTITION := [e]];
    assert DEFAULT_PARTITION[1] != "$default"[1];
    assert "$default" in files && "$default" !in map[DEFAULT_PARTITION := [e]];
  }

  // -------------------------------------------------------------- the provider

  /** The files hold the contents of the listed partitions. */
  ghost predicate Copied(files: Files, stores: seq<string>, p: Partitions) {
    && (forall s :: s in files <==> s in stores)
    && (forall s :: s in files ==> s in p && files[s] == p[s])
  }

  lemma CopiedNext(files: Files, stores: seq<string>, p: Partitions, i: nat)
    requires i < |stores| && Copied(files, stores[..i], p) && stores[i] in p
    ensures Copied(files[stores[i] := p[stores[i]]], stores[..i + 1], p)
  {
    assert stores[..i + 1] == stores[..i] + [stores[i]];
  }

  lemma CopiedAll(files: Files, stores: seq<string>, p: Partitions, names: set<string>)
    requires Copied(files, stores, p) && Listing(stores, names) && p.Keys <= names
    ensures files == p && names == p.Keys
  {
    assert forall s :: s in names <==> s in files;
  }

  ghost predicate ReadableBackup(fs: FileSystem) {
    && fs.meta.Some? && fs.meta.value.Newest?
    && var backup := fs.meta.value.backup;
    && backup.id in fs.dirs
    && forall s :: s in backup.stores ==> s in fs.dirs[backup.id]
  }

  /** One of the `count` disk operations from `tick` on fails. */
  ghost predicate FailsWithin(fails: set<nat>, tick: nat, count: nat) {
    exists k :: tick <= k < tick + count && k in fails
  }

  lemma FailsNext(fails: set<nat>, tick: nat, n: nat, next: nat, count: nat)
    requires !FailsWithin(fails, tick, n) && n < count && next == tick + n
    ensures next !in fails ==> !FailsWithin(fails, tick, n + 1)
    ensures next in fails ==> FailsWithin(fails, tick, count)
  {
  }

  /** A backup of the tracked names stops before it opens the metadata file for writing. */
  ghost predicate StopsEarly(fails: set<nat>, tick: nat, names: set<string>) {
    (exists name <- names :: IsBlank(name)) || FailsWithin(fails, tick, |names| + 2)
  }

  /** What a backup leaves of the file system `before`, depending on which disk operations fail. */
  ghost predicate Leaves(fails: set<nat>, tick: nat, names: set<string>, p: Partitions, id: Id,
                         before: FileSystem, after: FileSystem, ok: bool) {
    var end := tick + |names| + 2;
    && (!ok ==> after.dirs - {id} == before.dirs)
    && if StopsEarly(fails, tick, names) then !ok && after.meta == before.meta
       else if end in fails then !ok && after.meta == Some(Unreadable)
       else
         && (ok <==> end + 1 !in fails)
         && (id in after.dirs <==> ok || end + 2 in fails || end + 3 in fails)
         && (id in after.dirs ==> after.dirs[id] == p)
         && exists stores :: Listing(stores, p.Keys) && after.meta == Some(Newest(Metadata(id, stores)))
  }

  /** There is a complete newest backup, and neither the metadata nor a file of it fails to be read. */
  ghost predicate Readable(fails: set<nat>, tick: nat, fs: FileSystem) {
    ReadableBackup(fs) && !FailsWithin(fails, tick, |fs.meta.value.backup.stores| + 1)
  }

  /** What a start without disk failure finds in the newest backup; nothing when there is none to read. */
  ghost function Surviving(fs: FileSystem): Partitions {
    if ReadableBackup(fs)
    then RestoredFrom(fs.meta.value.backup.stores, fs.dirs[fs.meta.value.backup.id])
    else map[]
  }

  class DbStoreProviderWithBackupRestore {
    const disk: Disk
    var dbStores: set<string>
    var partitions: Partitions

    /** The tracked names are the partitions, plus the blank names that were asked for in vain. */
    ghost predicate Valid()
      reads this
    {
      forall name :: name in partitions <==> name in dbStores && !IsBlank(name)
    }

    constructor (disk: Disk)
      ensures this.disk == disk && Valid() && dbStores == {} && partitions == map[]
    {
      this.disk, dbStores, partitions := disk, {}, map[];
    }

    /** A blank name is refused, but only after it was recorded. */
    method GetDbStore(name: string) returns (ok: bool)
      requires Valid()
      modifies this
      ensures Valid() && dbStores == old(dbStores) + {name}
      ensures ok <==> !IsBlank(name)
      ensures partitions == if ok then Opened(old(partitions), name) else old(partitions)
    {
      dbStores := dbStores + {name};
      ok := !IsBlank(name);
      if ok {
        partitions := Opened(partitions, name);
      }
    }

    method RemoveDbStore(name: string) returns (ok: bool)
      requires Valid()
      modifies this
      ensures Valid() && dbStores == old(dbStores) - {name}
      ensures ok <==> !IsBlank(name)
      ensures partitions == old(partitions) - {name}
    {
      dbStores := dbStores - {name};
      ok := !IsBlank(name);
      if ok {
        partitions := partitions - {name};
      }
    }

    // ---------------------------------------------------------------- backup

    /**
     * With n tracked names, the backup writes the directory, n files and the
     * metadata file, which is emptied before it is filled. Stopping before that
     * leaves the disk as it was but for the new directory. Failing to fill the
     * file leaves it unreadable. After that the metadata names the new backup,
     * even when the listing of the old ones fails and the clean-up then deletes
     * the new directory. Every state in between is safe.
     */
    method Backup(id: Id) returns (ok: bool)
      requires Valid() && disk.Valid()
      requires id !in disk.fs.dirs && Unnamed(disk.fs, id)
      modifies disk
      ensures disk.Valid() && old(disk.history) <= disk.history
      ensures Leaves(disk.fails, old(disk.tick), dbStores, partitions, id, old(disk.fs), disk.fs, ok)
      ensures ok && disk.fails == {} ==> disk.fs.dirs.Keys == {id}
    {
      var stores := ToList(dbStores);
      ListingLength(stores, dbStores);
      ok := WriteBackup(id, stores);
      if ok {
        ok := CleanupUnknownBackups(id);
      }
      if !ok {
        CleanupKnownBackups(id);
      }
    }

    /** Directory, then one file per store, then the metadata; stops at the first failure. */
    method WriteBackup(id: Id, stores: seq<string>) returns (ok: bool)
      requires Valid() && disk.Valid() && Listing(stores, dbStores) && |stores| == |dbStores|
      requires id !in disk.fs.dirs && Unnamed(disk.fs, id)
      modifies disk
      ensures disk.Valid() && old(disk.history) <= disk.history
      ensures disk.fs.dirs - {id} == old(disk.fs).dirs
      ensures var fails, end := disk.fails, old(disk.tick) + |stores| + 2;
              if StopsEarly(fails, old(disk.tick), dbStores) then !ok && disk.fs.meta == old(disk.fs).meta
              else if end in fails then !ok && disk.fs.meta == Some(Unreadable)
              else
                && ok && disk.tick == end + 1
                && Listing(stores, partitions.Keys)
                && disk.fs.meta == Some(Newest(Metadata(id, stores)))
                && id in disk.fs.dirs && disk.fs.dirs[id] == partitions
    {
      ok := disk.WriteDirectory(id, map[]);
      if ok {
        ok := WriteStores(id, stores);
      }
      if ok {
        ok := WriteMetadata(Metadata(id, stores));
      }
    }

    /** The file is emptied when it is opened for writing, and filled after that. */
    method WriteMetadata(backup: Metadata) returns (ok: bool)
      requires disk.Valid() && backup.id in disk.fs.dirs
      requires forall s :: s in backup.stores ==> s in disk.fs.dirs[backup.id] && !IsBlank(s)
      modifies disk
      ensures disk.Valid() && old(disk.history) <= disk.history
      ensures disk.fs.dirs == old(disk.fs).dirs
      ensures ok <==> old(disk.tick) !in disk.fails && old(disk.tick) + 1 !in disk.fails
      ensures disk.fs.meta == if old(disk.tick) in disk.fails then old(disk.fs).meta
                              else if old(disk.tick) + 1 in disk.fails then Some(Unreadable)
                              else Some(Newest(backup))
      ensures ok ==> disk.tick == old(disk.tick) + 2
    {
      ok := disk.Change(disk.fs.(meta := Some(Unreadable)));
      if ok {
        ok := disk.Change(disk.fs.(meta := Some(Newest(backup))));
      }
    }

    method WriteStores(id: Id, stores: seq<string>) returns (ok: bool)
      requires Valid() && disk.Valid() && Listing(stores, dbStores)
      requires id in disk.fs.dirs && disk.fs.dirs[id] == map[] && Unnamed(disk.fs, id)
      modifies disk
      ensures disk.Valid() && old(disk.history) <= disk.history
      ensures disk.fs.meta == old(disk.fs).meta
      ensures disk.fs.dirs - {id} == old(disk.fs).dirs - {id}
      ensures ok <==> !FailsWithin(disk.fails, old(disk.tick), |stores|) && forall name <- dbStores :: !IsBlank(name)
      ensures ok ==> && Listing(stores, partitions.Keys) && disk.tick == old(disk.tick) + |stores|
                     && id in disk.fs.dirs && disk.fs.dirs[id] == partitions
    {
      var written: Files := map[];
      for i := 0 to |stores|
        invariant disk.Valid() && old(disk.history) <= disk.history
        invariant disk.fs.meta == old(disk.fs).meta
        invariant disk.fs.dirs - {id} == old(disk.fs).dirs - {id}
        invariant id in disk.fs.dirs && disk.fs.dirs[id] == written
        invariant disk.tick == old(disk.tick) + i && !FailsWithin(disk.fails, old(disk.tick), i)
        invariant Copied(written, stores[..i], partitions)
      {
        assert stores[i] in dbStores;
        if stores[i] in partitions {
          CopiedNext(written, stores, partitions, i);
        }
        ok, written := WriteStore(id, stores[i], written);
        if !ok {
          return;
        }
      }
      assert stores[..|stores|] == stores;
      CopiedAll(written, stores, partitions, dbStores);
      return true;
    }

    method WriteStore(id: Id, name: string, written: Files) returns (ok: bool, files: Files)
      requires Valid() && disk.Valid() && name in dbStores
      requires id in disk.fs.dirs && disk.fs.dirs[id] == written && Unnamed(disk.fs, id)
      modifies disk
      ensures disk.Valid() && old(disk.history) <= disk.history
      ensures disk.fs.meta == old(disk.fs).meta
      ensures disk.fs.dirs - {id} == old(disk.fs).dirs - {id}
      ensures ok <==> !IsBlank(name) && old(disk.tick) !in disk.fails
      ensures ok ==> && disk.tick == old(disk.tick) + 1
                     && name in partitions && files == written[name := partitions[name]]
                     && id in disk.fs.dirs && disk.fs.dirs[id] == files
    {
      files := written;
      if IsBlank(name) {
        return false, files;
      }
      files := files[name := partitions[name]];
      ghost var before := disk.fs.dirs;
      ok := disk.WriteDirectory(id, files);
      assert disk.fs.dirs - {id} == before - {id};
    }

    /** Deletes every backup but `id`; a directory that cannot be deleted stays. */
    method CleanupUnknownBackups(id: Id) returns (ok: bool)
      requires disk.Valid()
      modifies disk
      ensures disk.Valid() && old(disk.history) <= disk.history
      ensures disk.fs.meta == old(disk.fs).meta
      ensures ok <==> old(disk.tick) !in disk.fails
      ensures !ok ==> disk.fs == old(disk.fs) && disk.tick == old(disk.tick) + 1
      ensures id in old(disk.fs).dirs ==> id in disk.fs.dirs && disk.fs.dirs[id] == old(disk.fs).dirs[id]
      ensures disk.fails == {} ==> disk.fs.dirs.Keys == old(disk.fs).dirs.Keys * {id}
    {
      ok := disk.Read();
      if ok {
        var unknown := disk.fs.dirs.Keys - {id};
        DeleteDirectories(unknown);
        assert disk.fs.dirs - unknown == old(disk.fs).dirs - unknown;
        assert id in old(disk.fs).dirs ==> id in old(disk.fs).dirs - unknown;
        assert forall k <- disk.fs.dirs :: k !in unknown ==> k in old(disk.fs).dirs - unknown;
      }
    }

    /** Deletes what a failed backup left behind. */
    method CleanupKnownBackups(id: Id)
      requires disk.Valid()
      modifies disk
      ensures disk.Valid() && old(disk.history) <= disk.history
      ensures disk.fs.meta == old(disk.fs).meta
      ensures disk.fs.dirs - {id} == old(disk.fs).dirs - {id}
      ensures id in disk.fs.dirs <==>
                id in old(disk.fs).dirs && (old(disk.tick) in disk.fails || old(disk.tick) + 1 in disk.fails)
      ensures id in disk.fs.dirs ==> disk.fs.dirs[id] == old(disk.fs).dirs[id]
    {
      var ok := disk.Read();
      if ok && id in disk.fs.dirs {
        ghost var before := disk.fs.dirs;
        var _ := disk.DeleteDirectory(id);
        assert disk.fs.dirs - {id} == before - {id};
      }
    }

    method DeleteDirectories(ids: set<Id>)
      requires disk.Valid()
      modifies disk
      ensures disk.Valid() && old(disk.history) <= disk.history
      ensures disk.fs.meta == old(disk.fs).meta
      ensures disk.fs.dirs - ids == old(disk.fs).dirs - ids
      ensures disk.fails == {} ==> disk.fs.dirs == old(disk.fs).dirs - ids
    {
      var todo := ids;
      while todo != {}
        invariant todo <= ids
        invariant disk.Valid() && old(disk.history) <= disk.history
        invariant disk.fs.meta == old(disk.fs).meta
        invariant disk.fs.dirs - ids == old(disk.fs).dirs - ids
        invariant disk.fails == {} ==> disk.fs.dirs == old(disk.fs).dirs - (ids - todo)
        decreases todo
      {
        var id :| id in todo;
        ghost var before := disk.fs.dirs;
        var _ := disk.DeleteDirectory(id);
        todo := todo - {id};
        assert disk.fs.dirs - ids == before - ids;
      }
    }

    // --------------------------------------------------------------- restore

    /**
     * Reads the newest backup back into an empty provider and deletes all
     * backups. The provider ends with what the newest backup holds exactly when
     * there is one and it can be read, and with no partition otherwise, also
     * when it throws. It throws only when the backups cannot be listed. What it
     * has opened is tracked, so that the next backup saves it.
     */
    method Restore() returns (outcome: Outcome)
      requires disk.Valid() && dbStores == {} && partitions == map[]
      modifies this, disk
      ensures Valid() && disk.Valid() && old(disk.history) <= disk.history
      ensures NoBlankListed(old(disk.fs)) ==> dbStores == partitions.Keys
      ensures NoBlankListed(old(disk.fs)) ==>
                partitions ==
                if Readable(disk.fails, old(disk.tick), old(disk.fs)) then Surviving(old(disk.fs)) else map[]
      ensures outcome == Restored ==>
                Readable(disk.fails, old(disk.tick), old(disk.fs)) && partitions == Surviving(old(disk.fs))
      ensures outcome == NoBackup || outcome == RestoreFailed ==> partitions == map[] && dbStores == {}
      ensures old(disk.fs).meta == None ==> outcome == NoBackup && disk.fs == old(disk.fs)
      ensures disk.fails == {} && NoBlankListed(old(disk.fs)) ==>
                outcome != RestoreThrew && (old(disk.fs).meta.Some? ==> disk.fs == FileSystem(None, map[]))
      ensures disk.fails == {} && NoBlankListed(old(disk.fs)) && ReadableBackup(old(disk.fs)) ==> outcome == Restored
    {
      if disk.fs.meta == None {
        return NoBackup;
      }
      outcome := RestoreNewest();
      if outcome == RestoreFailed {
        var removed := RemoveRestored();
        if !removed {
          outcome := RestoreThrew;
        }
      }
      var cleaned := CleanupAllBackups();
      if !cleaned {
        outcome := RestoreThrew;
      }
    }

    method RestoreNewest() returns (outcome: Outcome)
      requires disk.Valid() && dbStores == {} && partitions == map[]
      requires disk.fs.meta.Some?
      modifies this, disk`tick
      ensures Valid() && disk.Valid()
      ensures outcome == NoBackup ==> partitions == map[] && dbStores == {}
      ensures outcome == Restored ==>
                Readable(disk.fails, old(disk.tick), disk.fs) && partitions == Surviving(disk.fs)
      ensures outcome != RestoreThrew
      ensures Readable(disk.fails, old(disk.tick), disk.fs) && NoBlankListed(disk.fs) ==> outcome == Restored
      ensures NoBlankListed(disk.fs) ==> Clean()
    {
      var ok := disk.Read();
      if !ok || disk.fs.meta.value.Unreadable? {
        return RestoreFailed;
      }
      var backup := disk.fs.meta.value.backup;
      if backup.id !in disk.fs.dirs {
        return NoBackup;
      }
      ok := RestoreStores(backup.stores, disk.fs.dirs[backup.id]);
      return if ok then Restored else RestoreFailed;
    }

    ghost predicate Clean()
      reads this
    {
      forall name <- dbStores :: !IsBlank(name)
    }

    /** Opens each listed store and reads it back; stops at the first failure. */
    method RestoreStores(stores: seq<string>, files: Files) returns (ok: bool)
      requires disk.Valid() && dbStores == {} && partitions == map[]
      modifies this, disk`tick
      ensures Valid()
      ensures ok ==> Fine(stores, files, |stores|) && partitions == RestoredUpTo(stores, files, |stores|)
      ensures ok <==> !FailsWithin(disk.fails, old(disk.tick), |stores|) && Fine(stores, files, |stores|)
      ensures NoneIsBlank(stores) ==> Clean()
    {
      for i := 0 to |stores|
        invariant Valid() && Clean()
        invariant Fine(stores, files, i) && partitions == RestoredUpTo(stores, files, i)
        invariant disk.tick == old(disk.tick) + i && !FailsWithin(disk.fails, old(disk.tick), i)
      {
        ok := RestoreNext(stores, i, files, old(disk.tick));
        if !ok {
          return;
        }
      }
      return true;
    }

    method RestoreNext(stores: seq<string>, i: nat, files: Files, ghost start: nat) returns (ok: bool)
      requires disk.Valid() && Valid() && Clean() && i < |stores|
      requires disk.tick == start + i && !FailsWithin(disk.fails, start, i)
      requires Fine(stores, files, i) && partitions == RestoredUpTo(stores, files, i)
      modifies this, disk`tick
      ensures Valid()
      ensures ok ==> disk.tick == start + i + 1 && !FailsWithin(disk.fails, start, i + 1)
      ensures ok ==> Fine(stores, files, i + 1) && partitions == RestoredUpTo(stores, files, i + 1)
      ensures !ok ==> FailsWithin(disk.fails, start, |stores|) || !Fine(stores, files, |stores|)
      ensures ok || NoneIsBlank(stores) ==> Clean()
    {
      FineNext(stores, files, i);
      FailsNext(disk.fails, start, i, disk.tick, |stores|);
      ok := RestoreStore(stores[i], files);
    }

    method RestoreStore(store: string, files: Files) returns (ok: bool)
      requires disk.Valid() && Valid()
      modifies this, disk`tick
      ensures Valid()
      ensures ok ==> store in files && var t := Target(store);
                     partitions == old(partitions)[t := PutAll(ItemsOf(old(partitions), t), files[store])]
      ensures ok <==> store in files && !IsBlank(store) && old(disk.tick) !in disk.fails
      ensures ok ==> disk.tick == old(disk.tick) + 1
      ensures dbStores == old(dbStores) + {Target(store)}
      ensures !IsBlank(store) ==> !IsBlank(Target(store))
    {
      var name := Target(store);
      TargetIsBlankIff(store);
      ok := GetDbStore(name);
      if !ok {
        return;
      }
      ok := disk.Read();
      if !ok || store !in files {
        return false;
      }
      var items := PutEach(partitions[name], files[store]);
      partitions := partitions[name := items];
    }

    static method PutEach(es: Items, items: Items) returns (r: Items)
      ensures r == PutAll(es, items)
    {
      r := es;
      for i := 0 to |items|
        invariant r == PutAll(es, items[..i])
      {
        assert items[..i + 1][..i] == items[..i];
        r := Put(r, items[i].key, items[i].value);
      }
      assert items[..|items|] == items;
    }

    /** Removes every tracked partition, then the default one; a blank name stops it. */
    method RemoveRestored() returns (ok: bool)
      requires Valid()
      modifies this
      ensures Valid()
      ensures ok ==> partitions == map[] && dbStores == {}
      ensures old(Clean()) ==> ok
    {
      DefaultIsNotBlank();
      var stores := ToList(dbStores);
      for i := 0 to |stores|
        invariant Valid() && forall name <- dbStores :: name in stores[i..]
      {
        ok := RemoveDbStore(stores[i]);
        if !ok {
          return;
        }
      }
      ok := RemoveDbStore(DEFAULT_PARTITION);
    }

    /** Deletes the metadata, then every directory. */
    method CleanupAllBackups() returns (ok: bool)
      requires disk.Valid()
      modifies disk
      ensures disk.Valid() && old(disk.history) <= disk.history
      ensures ok <==> && old(disk.tick) !in disk.fails
                      && old(disk.tick) + (if old(disk.fs).meta.Some? then 2 else 1) !in disk.fails
      ensures disk.fails == {} ==> disk.fs == FileSystem(None, map[])
    {
      ok := disk.Read();
      if !ok {
        return;
      }
      if disk.fs.meta.Some? {
        var _ := disk.Change(disk.fs.(meta := None));
      }
      ok := disk.Read();
      if ok {
        DeleteDirectories(disk.fs.dirs.Keys);
      }
    }

    static method ToList(names: set<string>) returns (list: seq<string>)
      ensures Listing(list, names)
    {
      list := [];
      var todo := names;
      while todo != {}
        invariant todo <= names && Listing(list, names - todo)
        decreases todo
      {
        var name :| name in todo;
        list := list + [name];
        todo := todo - {name};
      }
    }
  }

  lemma {:induction false} ListingLength(stores: seq<string>, names: set<string>)
    requires Listing(stores, names)
    ensures |stores| == |names|
    decreases |stores|
  {
    if stores != [] {
      var init, last := stores[..|stores| - 1], stores[|stores| - 1];
      assert stores == init + [last];
      ListingLength(init, names - {last});
    } else {
      assert names == {};
    }
  }

  /** A directory that the metadata does not name makes no difference to what survives. */
  lemma UnnamedDirectoryIsIgnored(before: FileSystem, after: FileSystem, id: Id)
    requires Unnamed(before, id) && id !in before.dirs
    requires after.meta == before.meta && after.dirs - {id} == before.dirs
    ensures Surviving(after) == Surviving(before)
  {
    assert forall k :: k != id ==> (k in after.dirs <==> k in before.dirs);
    assert forall k <- before.dirs :: k in after.dirs && after.dirs[k] == before.dirs[k];
  }

  lemma NewBackupSurvives(fs: FileSystem, id: Id, stores: seq<string>, p: Partitions)
    requires fs.meta == Some(Newest(Metadata(id, stores))) && Listing(stores, p.Keys)
    requires id in fs.dirs ==> fs.dirs[id] == p
    requires forall name <- p :: Distinct(p[name])
    ensures id in fs.dirs ==> ReadableBackup(fs) && (Surviving(fs) == p <==> NoDefaultVariant(p.Keys))
    ensures id in fs.dirs ==> AllIn(stores, p) && Surviving(fs) == RestoredFrom(stores, p)
    ensures id !in fs.dirs ==> Surviving(fs) == map[]
  {
    if id in fs.dirs {
      RestoreReproducesIff(stores, p);
    }
  }

  /**
   * What survives a backup on a disk where any operation may fail. The old
   * backup does exactly when the new one stops before it opens the metadata
   * file. Otherwise nothing does when the file was emptied but not filled, or
   * the old backups could not be listed and the new directory was deleted. In
   * all other cases the new one does: what is found is restored from it, in the
   * order in which the metadata list its partitions.
   */
  ghost predicate Survives(fails: set<nat>, tick: nat, names: set<string>, p: Partitions,
                           before: FileSystem, found: Partitions) {
    var end := tick + |names| + 2;
    if StopsEarly(fails, tick, names) then found == Surviving(before)
    else if end in fails || (end + 1 in fails && end + 2 !in fails && end + 3 !in fails) then found == map[]
    else && (exists stores :: Listing(stores, p.Keys) && AllIn(stores, p) && found == RestoredFrom(stores, p))
         && (found == p <==> NoDefaultVariant(p.Keys))
  }

  lemma WhatSurvivesABackup(fails: set<nat>, tick: nat, names: set<string>, p: Partitions, id: Id,
                            before: FileSystem, after: FileSystem, ok: bool)
    requires Leaves(fails, tick, names, p, id, before, after, ok)
    requires Unnamed(before, id) && id !in before.dirs
    requires forall name <- p :: Distinct(p[name])
    ensures Survives(fails, tick, names, p, before, Surviving(after))
  {
    if StopsEarly(fails, tick, names) {
      UnnamedDirectoryIsIgnored(before, after, id);
    } else if tick + |names| + 2 !in fails {
      var stores :| Listing(stores, p.Keys) && after.meta == Some(Newest(Metadata(id, stores)));
      NewBackupSurvives(after, id, stores, p);
    }
  }

  /** A readable older backup stays the one to restore exactly when the new one stops early. */
  lemma OldBackupStaysIff(fails: set<nat>, tick: nat, names: set<string>, p: Partitions, id: Id,
                          before: FileSystem, after: FileSystem, ok: bool)
    requires Leaves(fails, tick, names, p, id, before, after, ok)
    requires Unnamed(before, id) && id !in before.dirs && ReadableBackup(before)
    ensures var backup := before.meta.value.backup;
            after.meta == before.meta && backup.id in after.dirs && after.dirs[backup.id] == before.dirs[backup.id]
            <==> StopsEarly(fails, tick, names)
  {
    var backup := before.meta.value.backup;
    if StopsEarly(fails, tick, names) {
      assert backup.id in after.dirs - {id};
    }
  }

  /** Asking once for a partition of a blank name makes the next backup fail, whatever the disk does. */
  method BlankNameFailsBackup(provider: DbStoreProviderWithBackupRestore, id: Id) returns (given: bool, saved: bool)
    requires provider.Valid() && provider.disk.Valid()
    requires id !in provider.disk.fs.dirs && Unnamed(provider.disk.fs, id)
    modifies provider, provider.disk
    ensures !given && !saved
    ensures provider.partitions == old(provider.partitions) && provider.disk.fs.meta == old(provider.disk.fs).meta
  {
    given := provider.GetDbStore("");
    saved := provider.Backup(id);
  }

  /**
   * An older backup of one partition, and a provider without partitions that
   * closes: the fourth disk operation lists the backups. When it fails, the
   * backup that was just completed is deleted and the older one is forgotten.
   */
  method FailedListingLosesBackups(e: Entry<Key, Memory.Value>) returns (disk: Disk, before: FileSystem, saved: bool)
    ensures Surviving(before) == map["events" := [e]]
    ensures !saved && Surviving(disk.fs) == map[] && "old" in disk.fs.dirs
  {
    before := FileSystem(Some(Newest(Metadata("old", ["events"]))), map["old" := map["events" := [e]]]);
    OneStoreSurvives(e, before);
    disk := new Disk({3}, before);
    var provider := new DbStoreProviderWithBackupRestore(disk);
    saved := provider.Backup("new");
    WhatSurvivesABackup({3}, 0, {}, map[], "new", before, disk.fs, saved);
    assert "old" in before.dirs && "old" in disk.fs.dirs - {"new"};
  }

  lemma OneStoreSurvives(e: Entry<Key, Memory.Value>, fs: FileSystem)
    requires fs.meta == Some(Newest(Metadata("old", ["events"])))
    requires fs.dirs == map["old" := map["events" := [e]]]
    ensures Surviving(fs) == map["events" := [e]]
  {
    var stores, files := ["events"], map["events" := [e]];
    assert AllIn(stores, files) && Listing(stores, files.Keys);
    assert |"events"| != |DEFAULT_PARTITION|;
    RestoreReproducesIff(stores, files);
  }

  // ------------------------------------------------------------ whole lifetimes

  lemma {:induction false} RestoredIsDistinct(stores: seq<string>, files: Files, n: nat)
    requires n <= |stores| && forall i :: 0 <= i < n ==> stores[i] in files
    ensures forall name <- RestoredUpTo(stores, files, n) :: Distinct(RestoredUpTo(stores, files, n)[name])
  {
    if n > 0 {
      RestoredIsDistinct(stores, files, n - 1);
      PutAllKeepsDistinct(ItemsOf(RestoredUpTo(stores, files, n - 1), Target(stores[n - 1])), files[stores[n - 1]]);
    }
  }

  /** What survives has no key twice in a partition, and the default partition in its own spelling only. */
  lemma SurvivingIsTidy(fs: FileSystem)
    ensures forall name <- Surviving(fs) :: Distinct(Surviving(fs)[name])
    ensures NoDefaultVariant(Surviving(fs).Keys)
  {
    if ReadableBackup(fs) {
      var stores, files := fs.meta.value.backup.stores, fs.dirs[fs.meta.value.backup.id];
      RestoredIsDistinct(stores, files, |stores|);
      RestoredNames(stores, files, |stores|);
    }
  }

  /** What a provider is like that the next backup can save, on a disk that it can be saved to. */
  ghost predicate Ready(provider: DbStoreProviderWithBackupRestore)
    reads provider, provider.disk
  {
    && provider.Valid() && provider.disk.Valid() && NoBlankListed(provider.disk.history[0])
    && forall name <- provider.partitions :: Distinct(provider.partitions[name])
  }

  /** Closing one provider on a disk where any operation may fail, and starting the next without disk failure. */
  method BackupThenRestore(source: DbStoreProviderWithBackupRestore, id: Id)
    returns (target: DbStoreProviderWithBackupRestore, outcome: Outcome)
    requires Ready(source) && id !in source.disk.fs.dirs && Unnamed(source.disk.fs, id)
    modifies source.disk
    ensures AllSafe(source.disk.history) && target.disk.Valid() && target.disk.fails == {}
    ensures fresh(target) && fresh(target.disk) && NoBlankListed(target.disk.history[0])
    ensures target.disk.fs.meta == None && target.disk.fs.dirs.Keys <= old(source.disk.fs).dirs.Keys + {id}
    ensures target.Valid() && target.dbStores == target.partitions.Keys
    ensures target.partitions == Surviving(source.disk.fs)
    ensures Survives(source.disk.fails, old(source.disk.tick), source.dbStores, source.partitions,
                     old(source.disk.fs), target.partitions)
    ensures target.disk.fs == if source.disk.fs.meta.Some? then FileSystem(None, map[]) else source.disk.fs
  {
    ghost var before, tick := source.disk.fs, source.disk.tick;
    var ok := source.Backup(id);
    ghost var history := source.disk.history;
    assert NoBlankListed(history[|history| - 1]);
    WhatSurvivesABackup(source.disk.fails, tick, source.dbStores, source.partitions, id, before, source.disk.fs, ok);
    assert source.disk.fs.meta == None ==> !ok;
    assert !ok ==> forall k <- source.disk.fs.dirs :: k != id ==> k in source.disk.fs.dirs - {id};
    target, outcome := Start(source.disk.fs);
  }

  /** A start without disk failure restores what survives and deletes all backups. */
  method Start(fs: FileSystem) returns (provider: DbStoreProviderWithBackupRestore, outcome: Outcome)
    requires Safe(fs) && NoBlankListed(fs)
    ensures fresh(provider) && fresh(provider.disk) && provider.disk.Valid() && provider.disk.history[0] == fs
    ensures provider.disk.fails == {}
    ensures provider.Valid() && provider.dbStores == provider.partitions.Keys
    ensures provider.partitions == Surviving(fs)
    ensures provider.disk.fs == if fs.meta.Some? then FileSystem(None, map[]) else fs
    ensures ReadableBackup(fs) ==> outcome == Restored
  {
    var disk := new Disk({}, fs);
    provider := new DbStoreProviderWithBackupRestore(disk);
    outcome := provider.Restore();
  }

  lemma SurvivesUnlessVariant(tick: nat, names: set<string>, p: Partitions, before: FileSystem, found: Partitions)
    requires Survives({}, tick, names, p, before, found) && forall name <- names :: !IsBlank(name)
    ensures found == p <==> NoDefaultVariant(p.Keys)
  {
  }

  /** A restart without disk failure keeps the partitions exactly when the default one is spelled its own way. */
  method Restart(source: DbStoreProviderWithBackupRestore, id: Id) returns (target: DbStoreProviderWithBackupRestore)
    requires Ready(source) && id !in source.disk.fs.dirs && Unnamed(source.disk.fs, id)
    modifies source.disk
    ensures fresh(target) && fresh(target.disk) && Ready(target) && target.disk.fails == {}
    ensures target.disk.fs.meta == None && target.disk.fs.dirs.Keys <= old(source.disk.fs).dirs.Keys + {id}
    ensures target.dbStores == target.partitions.Keys && NoDefaultVariant(target.partitions.Keys)
    ensures source.disk.fails == {} && source.Clean() ==>
              (target.partitions == source.partitions <==> NoDefaultVariant(source.partitions.Keys))
  {
    ghost var fs, tick := source.disk.fs, source.disk.tick;
    var outcome;
    target, outcome := BackupThenRestore(source, id);
    if source.disk.fails == {} && source.Clean() {
      SurvivesUnlessVariant(tick, source.dbStores, source.partitions, fs, target.partitions);
    }
    SurvivingIsTidy(source.disk.fs);
  }

  /**
   * Close, start, close, start. The second restart changes nothing. When the
   * disk fails in neither and no blank name was asked for, the partitions of the
   * first provider are those of the last exactly when none is named like the
   * default partition in another spelling.
   */
  method TwoRestarts(source: DbStoreProviderWithBackupRestore, id: Id, nextId: Id)
    returns (middle: DbStoreProviderWithBackupRestore, last: DbStoreProviderWithBackupRestore)
    requires Ready(source) && id !in source.disk.fs.dirs && Unnamed(source.disk.fs, id)
    requires nextId != id && nextId !in source.disk.fs.dirs
    modifies source.disk
    ensures Ready(last) && last.dbStores == last.partitions.Keys
    ensures last.partitions == middle.partitions
    ensures source.disk.fails == {} && source.Clean() ==>
              (last.partitions == source.partitions <==> NoDefaultVariant(source.partitions.Keys))
  {
    middle := Restart(source, id);
    last := Restart(middle, nextId);
  }
}
