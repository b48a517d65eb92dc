/** The sorted listing of the entries a manifest carries, and the rows of `cache_status`. */
module Listing {

  import opened Wrappers
  import opened Sorting
  import opened Ids
  import opened Manifest
  import opened Caches

  /** Every entry once, sorted by debug-id. */
  ghost predicate IsListing(es: seq<ManifestEntry>, entries: map<string, ManifestEntry>) {
    && SortedBy(es, EntryKey, StringLeq) && DistinctBy(es, EntryKey)
    && forall e :: e in es <==> e.debugId in entries && entries[e.debugId] == e
  }

  /** The entries a hash map happens to enumerate, in some order. */
  ghost function SomeEntries(entries: map<string, ManifestEntry>, keys: set<string>): seq<ManifestEntry>
    requires keys <= entries.Keys
  {
    if keys == {} then []
    else
      var k :| k in keys;
      [entries[k]] + SomeEntries(entries, keys - {k})
  }

  lemma {:induction false} SomeEntriesAll(entries: map<string, ManifestEntry>, keys: set<string>)
    requires forall k :: k in entries ==> entries[k].debugId == k
    requires keys <= entries.Keys
    ensures DistinctBy(SomeEntries(entries, keys), EntryKey)
    ensures forall e :: e in SomeEntries(entries, keys) <==> e.debugId in keys && entries[e.debugId] == e
  {
    if keys != {} {
      var k :| k in keys && SomeEntries(entries, keys) == [entries[k]] + SomeEntries(entries, keys - {k});
      var rest := SomeEntries(entries, keys - {k});
      SomeEntriesAll(entries, keys - {k});
      assert forall e :: e in [entries[k]] + rest <==> e == entries[k] || e in rest;
    }
  }

  lemma SortedListing(es: seq<ManifestEntry>, entries: map<string, ManifestEntry>)
    requires DistinctBy(es, EntryKey)
    requires forall e :: e in es <==> e.debugId in entries && entries[e.debugId] == e
    ensures IsListing(StableSort(es, EntryKey, StringLeq), entries)
  {
    StringOrder();
    StableSortCorrect(es, EntryKey, StringLeq);
    SameMembers(es, StableSort(es, EntryKey, StringLeq));
    SortKeepsDistinct(es, EntryKey, StringLeq);
  }

  lemma SameMembers<T(!new)>(s: seq<T>, t: seq<T>)
    requires multiset(s) == multiset(t)
    ensures forall x :: x in s <==> x in t
  {
    forall x ensures x in s <==> x in t {
      assert x in s <==> x in multiset(s);
      assert x in t <==> x in multiset(t);
    }
  }

  /** A stable sort of distinct keys has distinct keys. */
  lemma SortKeepsDistinct<T(!new), K(!new)>(s: seq<T>, key: T -> K, leq: (K, K) -> bool)
    requires TotalOrder(leq) && DistinctBy(s, key)
    ensures DistinctBy(StableSort(s, key, leq), key)
  {
    StableSortCorrect(s, key, leq);
    var t := StableSort(s, key, leq);
    forall i, j | 0 <= i < j < |t| ensures key(t[i]) != key(t[j]) {
      if key(t[i]) == key(t[j]) {
        AtMostOneWithKey(s, key, key(t[i]));
        TwoWithKey(t, key, i, j);
      }
    }
  }

  lemma {:induction false} AtMostOneWithKey<T(!new), K(!new)>(s: seq<T>, key: T -> K, k: K)
    requires DistinctBy(s, key)
    ensures |WithKey(s, key, k)| <= 1
  {
    if s != [] {
      AtMostOneWithKey(s[1..], key, k);
      if key(s[0]) == k {
        forall x | x in s[1..] ensures key(x) != k {
          var i :| 0 <= i < |s[1..]| && s[1..][i] == x;
          assert key(s[0]) != key(s[i + 1]);
        }
        NoneWithKey(s[1..], key, k);
      }
    }
  }

  lemma {:induction false} TwoWithKey<T(!new), K(!new)>(s: seq<T>, key: T -> K, i: nat, j: nat)
    requires i < j < |s| && key(s[i]) == key(s[j])
    ensures |WithKey(s, key, key(s[i]))| >= 2
  {
    if i > 0 {
      TwoWithKey(s[1..], key, i - 1, j - 1);
    } else {
      assert s[j] in s[1..] by { assert s[1..][j - 1] == s[j]; }
      assert s[j] in WithKey(s[1..], key, key(s[j]));
    }
  }

  /** The listing an export produces, whatever order the hash map enumerates its values in. */
  ghost function ListingOf(entries: map<string, ManifestEntry>): seq<ManifestEntry> {
    StableSort(SomeEntries(entries, entries.Keys), EntryKey, StringLeq)
  }

  lemma ListingOfLists(entries: map<string, ManifestEntry>)
    requires forall k :: k in entries ==> entries[k].debugId == k
    ensures IsListing(ListingOf(entries), entries)
  {
    SomeEntriesAll(entries, entries.Keys);
    SortedListing(SomeEntries(entries, entries.Keys), entries);
  }

  /** There is only one listing of a map of entries. */
  lemma ListingUnique(es: seq<ManifestEntry>, fs: seq<ManifestEntry>, entries: map<string, ManifestEntry>)
    requires IsListing(es, entries) && IsListing(fs, entries)
    ensures es == fs
  {
    StringOrder();
    StrictlySortedUnique(es, fs, EntryKey, StringLeq);
  }

  // ---- cache_status --------------------------------------------------------

  datatype StatusRow = StatusRow(
    debugId: string, name: string, format: string, arch: string, bytesResident: nat, rowsResolved: nat,
    lastUsed: nat, origin: string, resident: bool)

  /** The row of a resident module, with live counters. */
  function LiveRow(c: Cache, id: string): StatusRow
    requires id in c.Table()
  {
    var r := c.Table()[id];
    var origin := match Lookup(c.entries, id)
                  case Some(e) => (match e.origin case Some(o) => o.Label() case None => "")
                  case None => "";
    StatusRow(id, r.parsed.DisplayName(), r.parsed.Id().format.AsStr(), r.parsed.Id().arch, r.bytes, r.rows,
              r.lastUsed, origin, true)
  }

  /** The row of an entry without a resident module. */
  function EntryRow(e: ManifestEntry): StatusRow {
    StatusRow(e.debugId, e.name.GetOr(""), e.format.GetOr(""), e.arch.GetOr(""), 0, e.rowsResolved, e.lastUsed,
              match e.origin case Some(o) => o.Label() case None => if e.miss then "not_found" else "", false)
  }

  function StatusOf(c: Cache, id: string): StatusRow
    requires id in c.entries
  {
    if id in c.Table() then LiveRow(c, id) else EntryRow(c.entries[id])
  }

  function RowKey(row: StatusRow): string { row.debugId }

  /** Resident modules first, in recency order; then the other entries; every known debug-id once. */
  ghost predicate IsStatus(rows: seq<StatusRow>, c: Cache) {
    && DistinctBy(rows, RowKey)
    && (forall row :: row in rows ==> row.debugId in c.entries && row == StatusOf(c, row.debugId))
    && (forall id :: id in c.entries ==> StatusOf(c, id) in rows)
    && |rows| >= |c.Order()|
    && (forall i :: 0 <= i < |c.Order()| ==> rows[i].debugId == c.Order()[i])
  }

  // ---- the columns of cache_status -----------------------------------------

  /** The origin column: where the entry's file was found, `not_found` for a miss, else empty. */
  ghost predicate ShowsOrigin(shown: string, origin: Option<Origin>, miss: bool) {
    match origin
    case Some(DirOrigin(path)) => shown == "dir:" + path
    case Some(GlobOrigin(path)) => shown == "glob:" + path
    case Some(Debuginfod(url)) => shown == "debuginfod:" + url
    case Some(S3(bucket, key)) => shown == "s3:" + bucket + "/" + key
    case Some(Http(url)) => shown == "http:" + url
    case Some(Inline) => shown == "inline"
    case None => shown == if miss then "not_found" else ""
  }

  /** A resident module is shown with its own name and live counters, and its entry's origin. */
  ghost predicate ShowsModule(row: StatusRow, r: Resident, e: ManifestEntry) {
    && row.resident && row.bytesResident == r.bytes && row.rowsResolved == r.rows && row.lastUsed == r.lastUsed
    && row.name == r.parsed.DisplayName()
    && IsFormatName(row.format, r.parsed.Id().format) && row.arch == r.parsed.Id().arch
    && ShowsOrigin(row.origin, e.origin, false)
  }

  /** Any other entry is shown with what it remembers, without bytes. */
  ghost predicate ShowsEntry(row: StatusRow, e: ManifestEntry) {
    && !row.resident && row.bytesResident == 0 && row.rowsResolved == e.rowsResolved && row.lastUsed == e.lastUsed
    && row.name == (if e.name.Some? then e.name.value else "")
    && row.format == (if e.format.Some? then e.format.value else "")
    && row.arch == (if e.arch.Some? then e.arch.value else "")
    && ShowsOrigin(row.origin, e.origin, e.miss)
  }

  ghost predicate Shows(row: StatusRow, c: Cache) {
    && row.debugId in c.entries
    && if row.debugId in c.Table() then ShowsModule(row, c.Table()[row.debugId], c.entries[row.debugId])
       else ShowsEntry(row, c.entries[row.debugId])
  }

  lemma ColumnsOf(c: Cache, id: string)
    requires Consistent(c) && id in c.entries
    ensures Shows(StatusOf(c, id), c) && StatusOf(c, id).debugId == id
  {
    assert EntryOk(c, id);
    if id in c.Table() { FormatNamed(c.Table()[id].parsed.Id().format); }
  }

  /** Every row of a status says what its module or entry says. */
  lemma StatusColumns(rows: seq<StatusRow>, c: Cache)
    requires Consistent(c) && IsStatus(rows, c)
    ensures forall row :: row in rows ==> Shows(row, c)
  {
    forall row | row in rows ensures Shows(row, c) {
      ColumnsOf(c, row.debugId);
    }
  }
}
