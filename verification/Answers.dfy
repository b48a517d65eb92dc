/**
 Every answer, column by column, in terms of the files and of the state it meets: which file a token
 leads to decides whether it is denied, reported malformed or answered from that file's debug info.
 */
module Answers {

  import opened Wrappers
  import opened Ids
  import opened Frames
  import opened Manifest
  import opened Modules
  import opened Parsing
  import opened Local
  import opened Index
  import opened States
  import opened Reference
  import opened Transparency

  /** One row without module, debug-id, function or place. */
  ghost predicate IsLoneRow(rows: seq<ResolvedFrame>, status: ResolveStatus) {
    |rows| == 1 && IsBareRow(rows[0], None, None, None, status)
  }

  /** The file a token leads to. */
  ghost predicate LeadsToFile(w: World, sources: seq<SourceSpec>, token: string, data: FileData) {
    && Index.Find(w, sources, token).Some?
    && Index.Find(w, sources, token).value.path in w.files
    && w.files[Index.Find(w, sources, token).value.path] == data
  }

  lemma MalformedLookUp(w: World, sources: seq<SourceSpec>, limits: Limits, token: string, data: FileData)
    requires LeadsToFile(w, sources, token, data) && Malformation(data, limits).Some?
    ensures LookUp(w, sources, limits, token) == BadFile(Malformation(data, limits).value)
  {
  }

  /** The rows are those of the module a file holds, at one address. */
  ghost predicate FileSays(data: FileData, name: string, m: ParsedModule, addr: U64, cap: nat, rows: seq<ResolvedFrame>)
    requires data.reader.Readable?
  {
    && (data.reader.image.DwarfImage? ==> IsDwarfModuleOf(m, data.reader.image, name, data.size))
    && (data.reader.image.PdbImage? ==> IsPdbModuleOf(m, data.reader.image, name, data.size))
    && ModuleSays(m, addr, cap, rows)
    && |rows| >= 1 && rows[0].status != NotFound
    && forall i :: 0 <= i < |rows| ==> rows[i].debugId == Some(data.reader.image.identity.DebugIdStr())
  }

  /** An answer in terms of the file: what is wrong with it, or what is in it. */
  ghost predicate AnswersFor(data: FileData, token: string, addr: U64, limits: Limits, rows: seq<ResolvedFrame>,
                             name: Option<string>) {
    match Malformation(data, limits)
    case Some(kind) => IsLoneRow(rows, Error(kind)) && name == None
    case None =>
      && data.reader.Readable?
      && exists m :: FileSays(data, data.fileName.GetOr(CanonicalToken(token)), m, addr, limits.maxInlineDepth, rows)
                     && name == m.FunctionName(addr)
  }

  lemma ParsedSays(data: FileData, name: string, addr: U64, limits: Limits) returns (m: ParsedModule)
    requires Malformation(data, limits).None?
    ensures Parse(data, name, limits) == Success(m)
    ensures data.reader.Readable? && FileSays(data, name, m, addr, limits.maxInlineDepth, m.Answer(addr, limits))
  {
    ParseExact(data, name, limits);
    m := Parse(data, name, limits).value;
    ModuleRows(m, addr, limits);
  }

  /** What the reference answers a token that leads to a file. */
  lemma ReferenceRows(x: Setting, token: string, addr: U64, data: FileData)
    requires LeadsToFile(x.world, x.sources, token, data)
    ensures AnswersFor(data, token, addr, x.limits, x.Rows(token, addr), x.Name(token, addr))
  {
    if Malformation(data, x.limits).Some? {
      MalformedLookUp(x.world, x.sources, x.limits, token, data);
    } else {
      var m := ParsedSays(data, data.fileName.GetOr(CanonicalToken(token)), addr, x.limits);
    }
  }

  lemma ReferenceDenies(x: Setting, token: string, addr: U64)
    requires Index.Find(x.world, x.sources, token).None?
    ensures IsLoneRow(x.Rows(token, addr), NotFound) && x.Name(token, addr) == None
  {
  }

  /**
   Every call of every run on coherent files is answered in terms of the file its token leads to:
   not_found exactly without one, and then one bare row; one bare row with the parse failure for a
   malformed file; and otherwise the rows and the name of that file's debug info at that address.
   */
  lemma AnsweredByFile(x: Setting, s: State, token: string, addr: U64, now: nat)
    requires ProbeAgrees(x.world) && Coherent(x) && Settled(x, s)
    ensures var hit := Index.Find(x.world, x.sources, token);
            var rows, name := States.Resolve(x.world, s, token, addr, now).1,
                              States.FunctionName(x.world, s, token, addr, now).1;
            && (rows[0].status == NotFound <==> hit.None?)
            && (hit.None? ==> IsLoneRow(rows, NotFound) && name == None)
            && (hit.Some? ==>
                  hit.value.path in x.world.files &&
                  AnswersFor(x.world.files[hit.value.path], token, addr, x.limits, rows, name))
  {
    ResolveLikeReference(x, s, token, addr, now);
    if Index.Find(x.world, x.sources, token).None? {
      ReferenceDenies(x, token, addr);
    } else {
      FoundIsAlias(x.world, x.sources, token);
      ReferenceRows(x, token, addr, x.world.files[Index.Find(x.world, x.sources, token).value.path]);
    }
  }

  /** The lookup's outcome is that of parsing the located file. */
  ghost predicate IsOutcome(found: Lookedup, located: Option<Located>, limits: Limits) {
    match located
    case None => found == NoFile
    case Some(l) =>
      if Malformation(l.data, limits).Some? then found == BadFile(Malformation(l.data, limits).value)
      else found.Good? && Parse(l.data, l.name, limits) == Success(found.parsed) && found.origin == l.origin
  }

  lemma LookUpOutcome(w: World, s: State, token: string)
    ensures IsOutcome(LookUp(w, s.catalog.sources, s.limits, token), Locate(w, s.catalog.sources, token), s.limits)
  {
    match Locate(w, s.catalog.sources, token) {
      case None =>
      case Some(l) => ParseExact(l.data, l.name, s.limits);
    }
  }

  // ---- any state -------------------------------------------------------------

  /** The rows of a call in terms of the cache and the located file, whatever the files and the history. */
  ghost predicate CallAnswers(w: World, s: State, token: string, addr: U64, rows: seq<ResolvedFrame>) {
    var c, t, located := s.cache, CanonicalToken(token), Locate(w, s.catalog.sources, token);
    if t in c.aliases && c.aliases[t] in c.Table() then
      ModuleSays(c.Table()[c.aliases[t]].parsed, addr, s.limits.maxInlineDepth, rows)
    else if t in c.negative || located.None? then IsLoneRow(rows, NotFound)
    else
      match Malformation(located.value.data, s.limits)
      case Some(kind) => IsLoneRow(rows, Error(kind))
      case None =>
        ProbeAgrees(w) ==>
          && located.value.data.reader.Readable?
          && exists m :: FileSays(located.value.data, located.value.name, m, addr, s.limits.maxInlineDepth, rows)
  }

  lemma ResidentSays(s: State, found: Lookedup, token: string, addr: U64, now: nat)
    requires s.Valid() && s.cache.IsResident(token)
    ensures ModuleSays(s.cache.Table()[s.cache.DebugIdOf(token).value].parsed, addr, s.limits.maxInlineDepth,
                       ResolveFound(s, found, token, addr, now).1)
  {
    ResidentAnswered(s, found, token, addr, now);
    ModuleRows(s.cache.Table()[s.cache.DebugIdOf(token).value].parsed, addr, s.limits);
  }

  lemma DeniedSays(s: State, found: Lookedup, token: string, addr: U64, now: nat)
    requires s.Valid() && !s.cache.IsResident(token) && (s.cache.IsKnownMiss(token) || found.NoFile?)
    ensures IsLoneRow(ResolveFound(s, found, token, addr, now).1, NotFound)
  {
  }

  lemma MalformedSays(s: State, kind: ErrorKind, token: string, addr: U64, now: nat)
    requires s.Valid() && !s.cache.IsResident(token) && !s.cache.IsKnownMiss(token)
    ensures IsLoneRow(ResolveFound(s, BadFile(kind), token, addr, now).1, Error(kind))
  {
  }

  lemma GoodSays(w: World, s: State, l: Located, found: Lookedup, token: string, addr: U64, now: nat)
    requires ProbeAgrees(w) && s.Valid() && !s.cache.IsResident(token) && !s.cache.IsKnownMiss(token)
    requires found == LookUp(w, s.catalog.sources, s.limits, token) && found.Good?
    requires Malformation(l.data, s.limits).None? && Parse(l.data, l.name, s.limits) == Success(found.parsed)
    ensures && l.data.reader.Readable?
            && FileSays(l.data, l.name, found.parsed, addr, s.limits.maxInlineDepth,
                        ResolveFound(s, found, token, addr, now).1)
  {
    ParsedAnswers(Setting(w, s.catalog.sources, s.limits), s, found, token, addr, now);
    var m := ParsedSays(l.data, l.name, addr, s.limits);
  }

  /**
   Every resolve call in any state: a resident module answers for its aliases; a known miss and a
   token without a file get one bare not_found row, a malformed file one bare error row; and a good
   file, if the probe agrees with the parser, is answered from its debug info.
   */
  lemma ResolveAnswers(w: World, s: State, token: string, addr: U64, now: nat)
    requires s.Valid()
    ensures CallAnswers(w, s, token, addr, States.Resolve(w, s, token, addr, now).1)
  {
    var found := LookUp(w, s.catalog.sources, s.limits, token);
    LookUpOutcome(w, s, token);
    if s.cache.IsResident(token) {
      ResidentSays(s, found, token, addr, now);
    } else if s.cache.IsKnownMiss(token) || found.NoFile? {
      DeniedSays(s, found, token, addr, now);
    } else if found.BadFile? {
      MalformedSays(s, found.kind, token, addr, now);
    } else if ProbeAgrees(w) {
      GoodSays(w, s, Locate(w, s.catalog.sources, token).value, found, token, addr, now);
    }
  }
}
