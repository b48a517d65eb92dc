/**
 Settings in which every source is one debug file, for exhibiting files that do what the theorems
 warn of.
 */
module Shelves {

  import opened Wrappers
  import opened Ids
  import opened Manifest
  import opened Modules
  import opened Local
  import Trees = Walk
  import opened Index
  import opened Caches
  import opened Reference
  import opened Unambiguous

  function FileSource(p: Path): SourceSpec {
    SourceSpec(p.text, "dir", Some(p.text), None, None, true, false, None)
  }

  /** Source `i` is the file at `paths[i]`, a debug file the probe recognises. */
  ghost predicate OnShelf(x: Setting, paths: seq<Path>) {
    && |x.sources| == |paths|
    && forall i :: 0 <= i < |paths| ==> Shelved(x, paths[i]) && x.sources[i] == FileSource(paths[i])
  }

  ghost predicate Shelved(x: Setting, p: Path) {
    x.world.Root(p.text) == Trees.File(p) && p in x.world.files && x.world.files[p].probe.Some?
  }

  function AliasesAt(x: Setting, p: Path): seq<string>
    requires p in x.world.files && x.world.files[p].probe.Some?
  {
    x.world.files[p].probe.value.Aliases()
  }

  lemma OneOffer(w: World, s: SourceSpec, p: Path)
    requires s.kind == "dir" && s.path == Some(p.text) && w.Root(p.text) == Trees.File(p)
    requires p in w.files && w.files[p].probe.Some?
    ensures SourceOffers(w, s) == [Offer(w.files[p].probe.value.Aliases(), IndexHit(p, false))]
  {
    assert |s.kind| != |"glob"|;
    assert SourceFiles(w, s) == [p];
    CollectedOne(w.AliasesOf, p);
    OfferedOne(Indexed(w.files[p].probe.value.Aliases(), p));
  }

  lemma CollectedOne<P, E>(probe: P -> seq<E>, p: P)
    ensures Trees.Collect(probe, [p]) == probe(p)
  {
    assert [p][..0] == [];
  }

  lemma OfferedOne(e: Indexed)
    ensures Offered([e], false) == [Offer(e.aliases, IndexHit(e.path, false))]
  {
    assert [e][..0] == [];
  }

  /** The offers of the first `n` files, in order. */
  ghost predicate Offers(x: Setting, paths: seq<Path>, offers: seq<Offer>, n: nat)
    requires n <= |paths|
  {
    |offers| == n && forall i :: 0 <= i < n ==> OfferOf(x, paths[i], offers[i])
  }

  ghost predicate OfferOf(x: Setting, p: Path, o: Offer) {
    Shelved(x, p) && o == Offer(AliasesAt(x, p), IndexHit(p, false))
  }

  lemma {:induction false} ShelfOffers(x: Setting, paths: seq<Path>, n: nat)
    requires OnShelf(x, paths) && n <= |paths|
    ensures Offers(x, paths, OffersUpTo(x.world, x.sources, n), n)
  {
    if n > 0 {
      ShelfOffers(x, paths, n - 1);
      NextOffer(x, paths, n, OffersUpTo(x.world, x.sources, n - 1), x.sources[n - 1]);
    }
  }

  lemma NextOffer(x: Setting, paths: seq<Path>, n: nat, before: seq<Offer>, s: SourceSpec)
    requires 0 < n <= |paths| && Offers(x, paths, before, n - 1) && Shelved(x, paths[n - 1])
             && s == FileSource(paths[n - 1])
    ensures Offers(x, paths, before + SourceOffers(x.world, s), n)
  {
    var p := paths[n - 1];
    OneOffer(x.world, s, p);
    OneMore(x, paths, n, before, Offer(AliasesAt(x, p), IndexHit(p, false)));
  }

  lemma OneMore(x: Setting, paths: seq<Path>, n: nat, before: seq<Offer>, o: Offer)
    requires 0 < n <= |paths| && Offers(x, paths, before, n - 1) && OfferOf(x, paths[n - 1], o)
    ensures Offers(x, paths, before + [o], n)
  {
    forall i | 0 <= i < n ensures OfferOf(x, paths[i], (before + [o])[i]) {
      if i < n - 1 { assert OfferOf(x, paths[i], before[i]); }
    }
  }

  lemma OneFirst(offers: seq<Offer>, token: string, i: nat, j: nat)
    requires i < |offers| && j < |offers| && IsFirst(offers, token, i) && IsFirst(offers, token, j)
    ensures i == j
  {
  }

  /** A token leads to the first file on the shelf that has it. */
  lemma ShelfFinds(x: Setting, paths: seq<Path>, i: nat, token: string)
    requires OnShelf(x, paths) && i < |paths| && IsCanonical(token) && Shelved(x, paths[i])
             && token in AliasesAt(x, paths[i])
    requires forall j :: 0 <= j < i ==> Shelved(x, paths[j]) && token !in AliasesAt(x, paths[j])
    ensures Index.Find(x.world, x.sources, token) == Some(IndexHit(paths[i], false))
  {
    AllLocal(x.sources);
    ShelfOffers(x, paths, |paths|);
    var offers := OffersOf(x.world, x.sources);
    assert forall j :: 0 <= j <= i ==> OfferOf(x, paths[j], offers[j]);
    assert IsFirst(offers, token, i);
    NothingOffered(offers, token);
    var j := FirstIndex(offers, token);
    OneFirst(offers, token, i, j);
  }

  // ---- building a shelf -------------------------------------------------------------

  function FilesUpTo(paths: seq<Path>, files: seq<FileData>, n: nat): map<Path, FileData>
    requires n <= |paths| == |files|
  {
    if n == 0 then map[] else FilesUpTo(paths, files, n - 1)[paths[n - 1] := files[n - 1]]
  }

  lemma {:induction false} FilesStored(paths: seq<Path>, files: seq<FileData>, n: nat)
    requires n <= |paths| == |files| && forall i, j :: 0 <= i < j < |paths| ==> paths[i] != paths[j]
    ensures forall i :: 0 <= i < n ==>
              paths[i] in FilesUpTo(paths, files, n) && FilesUpTo(paths, files, n)[paths[i]] == files[i]
    ensures forall p :: p in FilesUpTo(paths, files, n) ==> exists i :: 0 <= i < n && paths[i] == p
  {
    if n > 0 { FilesStored(paths, files, n - 1); }
  }

  function TreesUpTo(paths: seq<Path>, n: nat): map<string, Trees.Tree<Path>>
    requires n <= |paths|
  {
    if n == 0 then map[] else TreesUpTo(paths, n - 1)[paths[n - 1].text := Trees.File(paths[n - 1])]
  }

  lemma {:induction false} TreesStored(paths: seq<Path>, n: nat)
    requires n <= |paths|
    ensures forall i :: 0 <= i < n ==>
              paths[i].text in TreesUpTo(paths, n) && TreesUpTo(paths, n)[paths[i].text] == Trees.File(paths[i])
  {
    if n > 0 {
      TreesStored(paths, n - 1);
      forall i | 0 <= i < n - 1 && paths[i].text == paths[n - 1].text ensures paths[i] == paths[n - 1] {
      }
    }
  }

  /** A file as a build leaves it: readable, within the parse cap, indexed under the identity it holds. */
  predicate IsBuild(d: FileData, limits: Limits) {
    d.size <= limits.maxParseBytes && d.fileName.Some? && d.reader.Readable? && d.probe == Some(d.reader.image.identity)
  }

  lemma ShelfExists(paths: seq<Path>, files: seq<FileData>, limits: Limits) returns (x: Setting)
    requires |paths| == |files| && forall i, j :: 0 <= i < j < |paths| ==> paths[i] != paths[j]
    requires forall i :: 0 <= i < |files| ==> IsBuild(files[i], limits)
    ensures OnShelf(x, paths) && x.limits == limits && ProbeAgrees(x.world) && Named(x.world)
    ensures forall i :: 0 <= i < |paths| ==> paths[i] in x.world.files && x.world.files[paths[i]] == files[i]
  {
    var n := |paths|;
    FilesStored(paths, files, n);
    TreesStored(paths, n);
    x := Setting(World(TreesUpTo(paths, n), map[], FilesUpTo(paths, files, n)),
                 seq(n, i requires 0 <= i < n => FileSource(paths[i])), limits);
    forall i | 0 <= i < n ensures Shelved(x, paths[i]) {
      assert IsBuild(files[i], limits);
    }
    forall p | p in x.world.files ensures IsBuild(x.world.files[p], limits) {
      var i :| 0 <= i < n && paths[i] == p;
      assert IsBuild(files[i], limits);
    }
  }

  /** A token that leads to a shelved build is answered by the module in it. */
  lemma ShelfParses(x: Setting, p: Path, token: string)
    requires Index.Find(x.world, x.sources, token) == Some(IndexHit(p, false))
    requires p in x.world.files && IsBuild(x.world.files[p], x.limits)
    ensures x.Find(token).Good? && x.Find(token).parsed.Id() == x.world.files[p].reader.image.identity
    ensures x.Find(token).parsed.ResidentBytes() == x.world.files[p].size
  {
  }

  // ---- files that do not compete ---------------------------------------------------------

  /** Files with different UUIDs have no alias in common. */
  lemma DifferentUuids(i: Identity, j: Identity, t: string)
    requires OwnBuildId(i) && OwnBuildId(j) && t in i.Aliases() && t in j.Aliases()
    ensures i.debugId.uuid == j.debugId.uuid
  {
    AliasBeginsWithUuid(i, t);
    AliasBeginsWithUuid(j, t);
    HexInjective(i.debugId.uuid, j.debugId.uuid);
  }

  /** The raw build-id is the UUID, as it is for PDB and Mach-O files. */
  predicate OwnBuildId(i: Identity) {
    i.rawBuildId == Some(Hex(i.debugId.uuid))
  }

  lemma AliasBeginsWithUuid(i: Identity, t: string)
    requires OwnBuildId(i) && t in i.Aliases()
    ensures |t| >= 32 && t[..32] == Hex(i.debugId.uuid)
  {
    AliasesExact(i);
    HexIsCanonical(i.debugId.uuid);
    HexLength(i.debugId.uuid);
    assert Hex(i.debugId.uuid)[..32] == Hex(i.debugId.uuid);
    assert i.DebugIdStr()[..32] == Hex(i.debugId.uuid);
  }

  /** Builds with UUIDs of their own, each in a file of its own, do not compete; each is found under its debug-id. */
  lemma PeacefulShelf(x: Setting, paths: seq<Path>, files: seq<FileData>)
    requires OnShelf(x, paths) && ProbeAgrees(x.world) && Named(x.world) && |files| == |paths|
    requires forall i :: 0 <= i < |paths| ==> Peaceful(x, paths[i], files[i])
    requires forall i, j :: 0 <= i < j < |files| ==> UuidOf(files[i]) != UuidOf(files[j])
    ensures NoCompetition(x)
    ensures forall i :: 0 <= i < |files| ==>
              var found := x.Find(IdentityOf(files[i]).DebugIdStr());
              found.Good? && found.parsed.Id() == IdentityOf(files[i]) && found.parsed.ResidentBytes() == files[i].size
  {
    AllLocal(x.sources);
    ShelfOffers(x, paths, |paths|);
    PeacefulOffers(x, paths, files, OffersOf(x.world, x.sources));
    forall i | 0 <= i < |files|
      ensures var found := x.Find(IdentityOf(files[i]).DebugIdStr());
              found.Good? && found.parsed.Id() == IdentityOf(files[i]) && found.parsed.ResidentBytes() == files[i].size
    {
      PeacefulFile(x, paths, files, i);
    }
  }

  lemma PeacefulOffers(x: Setting, paths: seq<Path>, files: seq<FileData>, offers: seq<Offer>)
    requires |files| == |paths| && Offers(x, paths, offers, |paths|)
    requires forall i :: 0 <= i < |paths| ==> Peaceful(x, paths[i], files[i])
    requires forall i, j :: 0 <= i < j < |files| ==> UuidOf(files[i]) != UuidOf(files[j])
    ensures EqualOrDisjoint(offers)
  {
    forall i, j, t | 0 <= i < |offers| && 0 <= j < |offers| && t in offers[i].aliases && t in offers[j].aliases
      ensures offers[i].aliases == offers[j].aliases
    {
      assert OfferOf(x, paths[i], offers[i]) && OfferOf(x, paths[j], offers[j]);
      assert Peaceful(x, paths[i], files[i]) && Peaceful(x, paths[j], files[j]);
      DifferentUuids(IdentityOf(files[i]), IdentityOf(files[j]), t);
      SameFile(files, i, j);
    }
  }

  lemma SameFile(files: seq<FileData>, i: nat, j: nat)
    requires i < |files| && j < |files| && UuidOf(files[i]) == UuidOf(files[j])
    requires forall k, l :: 0 <= k < l < |files| ==> UuidOf(files[k]) != UuidOf(files[l])
    ensures i == j
  {
  }

  function IdentityOf(d: FileData): Identity {
    d.probe.GetOr(Identity(Elf, "", DebugId(seq(16, i => 0), 0), None))
  }

  function UuidOf(d: FileData): Uuid {
    IdentityOf(d).debugId.uuid
  }

  /** A build at a path of the setting's file world, under an identity whose raw build-id is its UUID. */
  ghost predicate Peaceful(x: Setting, p: Path, d: FileData) {
    p in x.world.files && x.world.files[p] == d && IsBuild(d, x.limits) && OwnBuildId(IdentityOf(d))
  }

  lemma PeacefulFile(x: Setting, paths: seq<Path>, files: seq<FileData>, i: nat)
    requires OnShelf(x, paths) && |files| == |paths| && i < |paths|
    requires forall j :: 0 <= j < |paths| ==> Peaceful(x, paths[j], files[j])
    requires forall j, k :: 0 <= j < k < |files| ==> UuidOf(files[j]) != UuidOf(files[k])
    ensures var found := x.Find(IdentityOf(files[i]).DebugIdStr());
            found.Good? && found.parsed.Id() == IdentityOf(files[i]) && found.parsed.ResidentBytes() == files[i].size
  {
    var identity := IdentityOf(files[i]);
    var token := identity.DebugIdStr();
    AliasesExact(identity);
    DebugIdStrIsCanonical(identity);
    assert Peaceful(x, paths[i], files[i]) && Shelved(x, paths[i]);
    forall j | 0 <= j < i ensures Shelved(x, paths[j]) && token !in AliasesAt(x, paths[j]) {
      assert Shelved(x, paths[j]) && Peaceful(x, paths[j], files[j]);
      if token in AliasesAt(x, paths[j]) { DifferentUuids(IdentityOf(files[j]), identity, token); }
    }
    ShelfFinds(x, paths, i, token);
    ShelfParses(x, paths[i], token);
  }

  /** Any number of builds with UUIDs of their own can be shelved so that they do not compete. */
  lemma PeacefulShelfExists(paths: seq<Path>, files: seq<FileData>, limits: Limits) returns (x: Setting)
    requires |paths| == |files| && forall i, j :: 0 <= i < j < |paths| ==> paths[i] != paths[j]
    requires forall i :: 0 <= i < |files| ==> IsBuild(files[i], limits) && OwnBuildId(IdentityOf(files[i]))
    requires forall i, j :: 0 <= i < j < |files| ==> UuidOf(files[i]) != UuidOf(files[j])
    ensures NoCompetition(x) && x.limits == limits
    ensures forall i :: 0 <= i < |files| ==>
              var found := x.Find(IdentityOf(files[i]).DebugIdStr());
              found.Good? && found.parsed.Id() == IdentityOf(files[i]) && found.parsed.ResidentBytes() == files[i].size
  {
    x := ShelfExists(paths, files, limits);
    forall i | 0 <= i < |paths| ensures Peaceful(x, paths[i], files[i]) {
      assert IsBuild(files[i], limits);
    }
    PeacefulShelf(x, paths, files);
  }

  // ---- two builds of one program -------------------------------------------------------

  /** Two PDBs of one program, built at different times: the same file name, UUID and raw build-id, another age. */
  ghost predicate TwoBuilds(older: FileData, newer: FileData, limits: Limits) {
    && IsBuild(older, limits) && IsBuild(newer, limits) && older.fileName == newer.fileName
    && older.reader.image.PdbImage? && newer.reader.image.PdbImage?
    && OwnBuildId(older.reader.image.identity) && OwnBuildId(newer.reader.image.identity)
    && older.reader.image.identity.debugId.uuid == newer.reader.image.identity.debugId.uuid
    && older.reader.image.identity.debugId.age != newer.reader.image.identity.debugId.age
  }

  /** A newer build's own debug-id is not an alias of the older one. */
  lemma Separate(older: Identity, newer: Identity)
    requires OwnBuildId(older) && older.debugId.uuid == newer.debugId.uuid && older.debugId.age != newer.debugId.age
    ensures newer.DebugIdStr() !in older.Aliases() && newer.DebugIdStr() in newer.Aliases()
  {
    AliasesExact(older);
    AliasesExact(newer);
    HexIsCanonical(older.debugId.uuid);
    HexNumberLength(newer.debugId.age);
    if newer.DebugIdStr() == older.DebugIdStr() { DebugIdStrInjective(newer, older); }
  }

  /** Such builds, each found under its own debug-id: the files `SameUuidCompetes` speaks of exist. */
  lemma TwoBuildsExist(p: Path, q: Path, older: FileData, newer: FileData, limits: Limits) returns (x: Setting)
    requires p != q && TwoBuilds(older, newer, limits)
    ensures var i, j := older.reader.image.identity, newer.reader.image.identity;
            && ProbeAgrees(x.world) && x.limits == limits
            && x.Find(i.DebugIdStr()).Good? && x.Find(i.DebugIdStr()).parsed.Id() == i
            && x.Find(j.DebugIdStr()).Good? && x.Find(j.DebugIdStr()).parsed.Id() == j
  {
    var i, j := older.reader.image.identity, newer.reader.image.identity;
    x := ShelfExists([p, q], [older, newer], limits);
    assert x.world.files[[p, q][0]] == [older, newer][0] && x.world.files[[p, q][1]] == [older, newer][1];
    Separate(i, j);
    AliasesExact(i);
    DebugIdStrIsCanonical(i);
    DebugIdStrIsCanonical(j);
    assert Shelved(x, [p, q][0]) && Shelved(x, [p, q][1]);
    ShelfFinds(x, [p, q], 0, i.DebugIdStr());
    ShelfFinds(x, [p, q], 1, j.DebugIdStr());
    ShelfParses(x, p, i.DebugIdStr());
    ShelfParses(x, q, j.DebugIdStr());
  }
}
