/**
 The cache as the worker runs it (cache/mod.rs): fields updated in place and eviction loops, each
 method proved to take the cache value where the specification does.
 */
module SymbolCaches {

  import opened Wrappers
  import opened Sorting
  import opened Ids
  import opened Frames
  import opened Manifest
  import opened Modules
  import opened Lru
  import opened Log
  import opened Caches
  import opened CacheFacts
  import opened Effects
  import opened Listing

  class SymbolCache {
    var resident: Lru<string, Resident>
    var aliases: map<string, string>
    var entries: map<string, ManifestEntry>
    var negative: set<string>
    var maxBytes: nat
    var residentBytes: nat
    var parseCount: nat
    ghost var log: seq<Event<string>>

    ghost function Value(): Cache
      reads this
    {
      Cache(resident, aliases, entries, negative, maxBytes, residentBytes, parseCount, log)
    }

    ghost predicate Valid()
      reads this
    {
      Caches.Valid(Value())
    }

    constructor (maxBytes: nat, maxModules: nat)
      ensures Valid() && Value() == New(maxBytes, maxModules)
    {
      this.maxBytes := maxBytes;
      resident, aliases, entries, negative := Empty(Max(1, maxModules)), map[], map[], {};
      residentBytes, parseCount, log := 0, 0, [];
      new;
      NewValid(maxBytes, maxModules);
    }

    function DebugIdOf(token: string): (id: Option<string>)
      reads this
      ensures id == Value().DebugIdOf(token)
    {
      Lookup(aliases, CanonicalToken(token))
    }

    predicate IsResident(token: string)
      reads this
      ensures IsResident(token) == Value().IsResident(token)
    {
      match DebugIdOf(token)
      case Some(id) => id in resident.table
      case None => false
    }

    predicate IsKnownMiss(token: string)
      reads this
      ensures IsKnownMiss(token) == Value().IsKnownMiss(token)
    {
      CanonicalToken(token) in negative
    }

    method RecordMiss(token: string, now: nat)
      requires Valid()
      modifies this
      ensures Valid() && Value() == Caches.RecordMiss(old(Value()), token, now)
      ensures MissRecorded(old(Value()), Value(), token, now)
    {
      MissEffects(Value(), token, now);
      RecordMissKeeps(Value(), token, now);
      var canon := CanonicalToken(token);
      if canon !in aliases {
        aliases := aliases[canon := canon];
      }
      negative := negative + {canon};
      if canon !in entries {
        entries := entries[canon := MissEntry(canon, now)];
      }
    }

    /** Promote a resident module, count one row and stamp the clock. */
    method Bump(id: string, now: nat) returns (r: Resident)
      requires id in resident.table
      modifies this`resident, this`log
      ensures Value() == Use(old(Value()), id, now)
      ensures r == old(resident.table[id])
    {
      r := resident.table[id];
      resident := Touch(resident, id, r.(rows := r.rows + 1, lastUsed := now));
      log := log + [Hit(id)];
    }

    method Resolve(token: string, addr: U64, limits: Limits, now: nat) returns (frames: Option<seq<ResolvedFrame>>)
      requires Valid()
      modifies this
      ensures Valid() && (Value(), frames) == Caches.Resolve(old(Value()), token, addr, limits, now)
    {
      if !IsResident(token) {
        return None;
      }
      UseKeeps(Value(), DebugIdOf(token).value, now);
      var r := Bump(DebugIdOf(token).value, now);
      var rows := r.parsed.Resolve(addr, limits);
      return Some(rows);
    }

    method FunctionName(token: string, addr: U64, now: nat) returns (name: Option<Option<string>>)
      requires Valid()
      modifies this
      ensures Valid() && (Value(), name) == Caches.FunctionName(old(Value()), token, addr, now)
    {
      if !IsResident(token) {
        return None;
      }
      UseKeeps(Value(), DebugIdOf(token).value, now);
      var r := Bump(DebugIdOf(token).value, now);
      return Some(r.parsed.FunctionName(addr));
    }

    /** Point every alias of the list to a debug-id. */
    method InsertAliases(list: seq<string>, id: string)
      modifies this`aliases
      ensures aliases == PointAliases(old(aliases), list, id)
    {
      for i := 0 to |list|
        invariant aliases == PointAliases(old(aliases), list[..i], id)
      {
        PointStep(old(aliases), list, id, i);
        aliases := aliases[list[i] := id];
      }
      assert list[..|list|] == list;
    }

    /** `insert`: register the identity, put the module, evict to budget. */
    method Insert(m: ParsedModule, origin: Origin, now: nat) returns (id: string)
      requires Valid()
      modifies this
      ensures Valid() && Value() == Caches.Insert(old(Value()), m, origin, now) && id == m.DebugIdStr()
    {
      InsertIsLru(Value(), m, origin, now);
      PutOk(resident, m.DebugIdStr(), FreshResident(m, now));
      id := RegisterModule(m, origin, now);
      PutModule(id, FreshResident(m, now));
      EvictToBudget();
    }

    /** Count the parse, point the aliases, clear the miss, write the entry. */
    method RegisterModule(m: ParsedModule, origin: Origin, now: nat) returns (id: string)
      modifies this`parseCount, this`aliases, this`negative, this`entries
      ensures Value() == Register(old(Value()), m, origin, now) && id == m.DebugIdStr()
    {
      parseCount := parseCount + 1;
      id := m.DebugIdStr();
      InsertAliases(m.Id().Aliases(), id);
      negative := negative - {CanonicalToken(id)};
      entries := entries[id := ParsedEntry(m, origin, now)];
    }

    /** `put`: only the bytes of a replaced module leave the counter. */
    method PutModule(id: string, r: Resident)
      modifies this`resident, this`residentBytes, this`log
      ensures Value() == Store(old(Value()), id, r)
    {
      log := log + PushedOut(resident, id) + [Inserted(id, r.bytes)];
      var replaced := Lookup(resident.table, id);
      resident := Put(resident, id, r);
      match replaced {
        case Some(prior) => residentBytes := SaturatingSub(residentBytes, prior.bytes);
        case None =>
      }
      residentBytes := residentBytes + r.bytes;
    }

    /** `evict_to_budget`. */
    method EvictToBudget()
      requires resident.Ok()
      modifies this`resident, this`residentBytes, this`entries, this`log
      ensures Value() == Caches.EvictToBudget(old(Value()))
    {
      while residentBytes > maxBytes && |resident.order| > 1
        invariant resident.Ok() && Caches.EvictToBudget(Value()) == old(Caches.EvictToBudget(Value()))
        decreases |resident.order|
      {
        PopOldestIsPop(resident);
        var r := PopLru();
        residentBytes := SaturatingSub(residentBytes, r.bytes);
      }
    }

    /** `pop_lru`, then fold the module's counters back. */
    method PopLru() returns (r: Resident)
      requires resident.Ok() && resident.order != []
      modifies this`resident, this`entries, this`log
      ensures Value() == TakeOut(old(Value()), old(resident.Oldest())) && r == old(resident.table[resident.Oldest()])
      ensures |resident.order| < old(|resident.order|)
    {
      PopOldestIsPop(resident);
      var id := resident.Oldest();
      r := resident.table[id];
      resident := PopOldest(resident);
      entries := FoldBack(entries, id, r);
      log := log + [Evicted(id, r.bytes)];
    }

    /** `evict` of one token. */
    method EvictToken(token: string) returns (freed: nat)
      requires Valid()
      modifies this
      ensures Valid() && (Value(), freed) == Caches.EvictToken(old(Value()), token)
    {
      EvictTokenKeeps(Value(), token);
      if !IsResident(token) {
        return 0;
      }
      var r := PopModule(DebugIdOf(token).value);
      return r.bytes;
    }

    /** `pop`, take the module's bytes off the counter, fold its counters back. */
    method PopModule(id: string) returns (r: Resident)
      requires id in resident.table
      modifies this`resident, this`residentBytes, this`entries, this`log
      ensures Value() == TakeOut(old(Value()), id).(residentBytes := SaturatingSub(old(residentBytes), r.bytes))
      ensures r == old(resident.table[id])
    {
      r := resident.table[id];
      resident := Pop(resident, id);
      residentBytes := SaturatingSub(residentBytes, r.bytes);
      entries := FoldBack(entries, id, r);
      log := log + [Evicted(id, r.bytes)];
    }

    /** `evict` of everything. */
    method EvictAll() returns (freed: nat)
      requires Valid()
      modifies this
      ensures Valid() && (Value(), freed) == Caches.EvictAll(old(Value()))
    {
      EvictAllKeeps(Value());
      freed := PopAll();
      residentBytes := 0;
      log := log + [Cleared];
    }

    /** Pop every module, adding up the bytes. */
    method PopAll() returns (freed: nat)
      requires resident.Ok()
      modifies this`resident, this`entries, this`log
      ensures Value() == Drain(old(Value())) && freed == old(Value()).TrueBytes()
    {
      freed := 0;
      while resident.order != []
        invariant resident.Ok() && Drain(Value()) == old(Drain(Value()))
        invariant freed + Value().TrueBytes() == old(Value().TrueBytes())
        decreases |resident.order|
      {
        PopOldestIsPop(resident);
        TotalPop(resident, resident.Oldest(), BytesOf);
        var r := PopLru();
        freed := freed + r.bytes;
      }
    }

    /** `sync_entries`. */
    method SyncEntries()
      requires resident.Ok()
      modifies this`entries
      ensures Value() == Sync(old(Value()))
    {
      ghost var was := entries;
      for i := 0 to |resident.order|
        invariant entries == SyncedUpTo(was, resident, i)
      {
        SyncedStep(was, resident, i);
        entries := FoldBack(entries, resident.order[i], resident.table[resident.order[i]]);
      }
      SyncedAll(old(Value()));
    }

    /** Collect the entries in whatever order the map yields them. */
    method CollectEntries() returns (collected: seq<ManifestEntry>)
      requires forall k :: k in entries ==> entries[k].debugId == k
      ensures DistinctBy(collected, EntryKey)
      ensures forall e :: e in collected <==> e.debugId in entries && entries[e.debugId] == e
    {
      var todo := entries.Keys;
      collected := [];
      while todo != {}
        invariant todo <= entries.Keys
        invariant Collected(collected, entries, todo)
      {
        var k :| k in todo;
        CollectOne(collected, entries, todo, k);
        collected := collected + [entries[k]];
        todo := todo - {k};
      }
    }

    /** `to_manifest`: sync, collect the entries, sort them by debug-id. */
    method ToManifest(sources: seq<SourceSpec>) returns (manifest: CacheManifest)
      requires Valid()
      modifies this`entries
      ensures Valid() && Value() == Sync(old(Value()))
      ensures manifest.sources == sources && IsListing(manifest.entries, entries)
    {
      SyncKeeps(Value());
      SyncEntries();
      EntriesKeyed(Value());
      var collected := CollectEntries();
      SortedListing(collected, entries);
      manifest := CacheManifest(sources, StableSort(collected, EntryKey, StringLeq));
    }

    /** Take over one manifest entry. */
    method LoadEntry(e: ManifestEntry)
      modifies this`aliases, this`negative, this`entries
      ensures Value() == Load(old(Value()), e)
    {
      var token := CanonicalToken(e.debugId);
      aliases := aliases[token := e.debugId];
      if e.miss {
        negative := negative + {token};
      }
      entries := entries[e.debugId := e];
    }

    /** `rehydrate`. */
    method Rehydrate(list: seq<ManifestEntry>)
      requires Valid()
      modifies this
      ensures Valid() && Value() == Caches.Rehydrate(old(Value()), list)
    {
      for i := 0 to |list|
        invariant Value() == LoadUpTo(old(Value()), list, i)
      {
        LoadEntry(list[i]);
      }
      LoadUpToKeeps(old(Value()), list, |list|);
    }

    /** `status`: the resident modules, then the remaining entries as the map yields them. */
    method Status() returns (rows: seq<StatusRow>)
      requires Valid()
      ensures IsStatus(rows, Value())
      ensures forall row :: row in rows ==> Shows(row, Value())
    {
      rows := ResidentRows();
      LiveRowsAreStatus(Value(), rows);
      var todo := entries.Keys;
      while todo != {}
        invariant todo <= entries.Keys
        invariant PartialStatus(rows, Value(), todo)
      {
        var k :| k in todo;
        AddStatus(rows, Value(), todo, k);
        if k !in resident.table {
          rows := rows + [EntryRow(entries[k])];
        }
        todo := todo - {k};
      }
      StatusDone(rows, Value());
      StatusColumns(rows, Value());
    }

    method ResidentRows() returns (rows: seq<StatusRow>)
      requires resident.Ok()
      ensures |rows| == |resident.order|
      ensures forall k :: 0 <= k < |rows| ==>
                resident.order[k] in resident.table && rows[k] == LiveRow(Value(), resident.order[k])
    {
      rows := [];
      for i := 0 to |resident.order|
        invariant |rows| == i
        invariant forall k :: 0 <= k < i ==>
                    resident.order[k] in resident.table && rows[k] == LiveRow(Value(), resident.order[k])
      {
        rows := rows + [ResidentRow(resident.order[i])];
      }
    }

    function ResidentRow(id: string): (row: StatusRow)
      requires id in resident.table
      reads this
      ensures row == LiveRow(Value(), id)
    {
      var r := resident.table[id];
      var origin := match Lookup(entries, id)
                    case Some(e) => (match e.origin case Some(o) => o.Label() case None => "")
                    case None => "";
      StatusRow(id, r.parsed.DisplayName(), r.parsed.Id().format.AsStr(), r.parsed.Id().arch, r.bytes, r.rows,
                r.lastUsed, origin, true)
    }
  }

  // ---- loop invariants of the export -----------------------------------------

  /** The entries once the first `n` resident modules are folded in. */
  ghost function SyncedUpTo(was: map<string, ManifestEntry>, l: Lru<string, Resident>, n: nat)
    : map<string, ManifestEntry>
    requires l.Ok() && n <= |l.order|
  {
    map id | id in was ::
      if id in l.order[..n]
      then was[id].(rowsResolved := l.table[id].rows, lastUsed := l.table[id].lastUsed)
      else was[id]
  }

  lemma SyncedStep(was: map<string, ManifestEntry>, l: Lru<string, Resident>, n: nat)
    requires l.Ok() && n < |l.order|
    ensures SyncedUpTo(was, l, n + 1) == FoldBack(SyncedUpTo(was, l, n), l.order[n], l.table[l.order[n]])
  {
    assert l.order[..n + 1] == l.order[..n] + [l.order[n]];
    assert l.order[n] !in l.order[..n];
  }

  lemma SyncedAll(c: Cache)
    requires c.resident.Ok()
    ensures Sync(c) == c.(entries := SyncedUpTo(c.entries, c.resident, |c.Order()|))
  {
    assert c.Order()[..|c.Order()|] == c.Order();
  }

  ghost predicate Collected(es: seq<ManifestEntry>, entries: map<string, ManifestEntry>, todo: set<string>) {
    && DistinctBy(es, EntryKey)
    && forall e :: e in es <==> e.debugId in entries.Keys - todo && entries[e.debugId] == e
  }

  lemma CollectOne(es: seq<ManifestEntry>, entries: map<string, ManifestEntry>, todo: set<string>, k: string)
    requires Collected(es, entries, todo) && k in todo && todo <= entries.Keys && entries[k].debugId == k
    ensures Collected(es + [entries[k]], entries, todo - {k})
  {
    var next := es + [entries[k]];
    assert forall e :: e in next <==> e in es || e == entries[k];
    forall i, j | 0 <= i < j < |next| ensures EntryKey(next[i]) != EntryKey(next[j]) {
      assert next[i] in es;
    }
  }

  // ---- loop invariants of the status -----------------------------------------

  lemma StatusDone(rows: seq<StatusRow>, c: Cache)
    requires PartialStatus(rows, c, {})
    ensures IsStatus(rows, c)
  {
  }

  /** The status rows so far: all resident modules, and the entries already visited. */
  ghost predicate PartialStatus(rows: seq<StatusRow>, c: Cache, todo: set<string>) {
    && DistinctBy(rows, RowKey)
    && (forall row :: row in rows ==>
          && row.debugId in c.entries && row == StatusOf(c, row.debugId)
          && (row.debugId in c.Table() || row.debugId !in todo))
    && (forall id :: id in c.entries && (id in c.Table() || id !in todo) ==> StatusOf(c, id) in rows)
    && |rows| >= |c.Order()|
    && (forall i :: 0 <= i < |c.Order()| ==> rows[i].debugId == c.Order()[i])
  }

  lemma LiveRowsAreStatus(c: Cache, rows: seq<StatusRow>)
    requires Caches.Valid(c) && |rows| == |c.Order()|
    requires forall k :: 0 <= k < |rows| ==> c.Order()[k] in c.Table() && rows[k] == LiveRow(c, c.Order()[k])
    ensures PartialStatus(rows, c, c.entries.Keys)
  {
    forall row | row in rows
      ensures row.debugId in c.entries && row == StatusOf(c, row.debugId) && row.debugId in c.Table()
    {
      var k :| 0 <= k < |rows| && rows[k] == row;
      assert ResidentOk(c, c.Order()[k]);
    }
    forall id | id in c.Table() ensures id in c.entries && StatusOf(c, id) in rows {
      assert ResidentOk(c, id) && id in c.Order();
      var k :| 0 <= k < |c.Order()| && c.Order()[k] == id;
      assert rows[k] == StatusOf(c, id);
    }
  }

  /** One more entry visited: a resident module is listed already, another entry is listed now. */
  lemma AddStatus(rows: seq<StatusRow>, c: Cache, todo: set<string>, k: string)
    requires Caches.Valid(c) && todo <= c.entries.Keys && k in todo && PartialStatus(rows, c, todo)
    ensures k in c.Table() ==> PartialStatus(rows, c, todo - {k})
    ensures k !in c.Table() ==> PartialStatus(rows + [EntryRow(c.entries[k])], c, todo - {k})
  {
    assert EntryOk(c, k);
    if k !in c.Table() { AddEntryRow(rows, c, todo, k, EntryRow(c.entries[k])); }
  }

  lemma AddEntryRow(rows: seq<StatusRow>, c: Cache, todo: set<string>, k: string, added: StatusRow)
    requires k in todo && k in c.entries && k !in c.Table() && PartialStatus(rows, c, todo)
    requires added == StatusOf(c, k) && added.debugId == k
    ensures PartialStatus(rows + [added], c, todo - {k})
  {
    var next := rows + [added];
    assert forall row :: row in next <==> row in rows || row == added;
    DistinctAdded(rows, added);
  }

  lemma DistinctAdded(rows: seq<StatusRow>, added: StatusRow)
    requires DistinctBy(rows, RowKey) && forall row :: row in rows ==> row.debugId != added.debugId
    ensures DistinctBy(rows + [added], RowKey)
  {
    var next := rows + [added];
    forall i, j | 0 <= i < j < |next| ensures RowKey(next[i]) != RowKey(next[j]) {
      assert next[i] in rows;
    }
  }
}
