/**
 Parsed debug modules (module/mod.rs, module/dwarf.rs, module/pdb.rs). What the debug-info
 readers answer at each address is data of the module; what the worker does with those answers
 (the capped inline walk, the symbol fallback, the panic guard) is modelled step by step.
 */
module Modules {

  import opened Wrappers
  import opened Ids
  import opened Frames
  import opened Symbols

  /** The caps applied to untrusted debug files. */
  datatype Limits = Limits(maxParseBytes: nat, maxInlineDepth: nat)

  const DEFAULT_LIMITS := Limits(0x8000_0000, 256)

  /** A call into a reader either returns or panics; panics are contained by the caller. */
  datatype Outcome<T> = Returned(value: T) | Panicked

  // ---- DWARF -----------------------------------------------------------

  /** One frame of the inline walk; `func` is None without a function or without a readable name. */
  datatype RawFrame = RawFrame(func: Option<Name>, file: Option<string>, line: Option<nat>, column: Option<nat>)

  /** What the frame iterator does after its last frame. */
  datatype WalkEnd = Exhausted | Corrupt | WalkPanics

  /** The reader's answer to a frame lookup. */
  datatype Walk = LookupFails | LookupPanics | Chain(frames: seq<RawFrame>, end: WalkEnd)

  datatype DwarfModule = DwarfModule(
    identity: Identity, name: string, symbols: seq<Symbol>, walks: map<U64, Walk>, byteSize: nat)
  {
    function WalkAt(addr: U64): Walk {
      Lookup(walks, addr).GetOr(Chain([], Exhausted))
    }

    function BlankFrame(status: ResolveStatus): ResolvedFrame {
      BlankRow(Some(name), Some(identity.DebugIdStr()), status)
    }

    /** No DWARF coverage: the nearest symbol, if there is one. */
    function NoLineFrame(addr: U64): ResolvedFrame {
      var symbol := SymbolFor(symbols, addr);
      BlankFrame(NoLine).(function_ := symbol, functionRaw := symbol)
    }

    /** Row `i` of an `n`-row answer. */
    function ChainFrame(raw: RawFrame, i: nat, n: nat): ResolvedFrame {
      BlankFrame(Ok).(
        inlineDepth := i,
        isInline := i + 1 < n,
        function_ := match raw.func case Some(f) => Some(f.demangled) case None => None,
        functionRaw := match raw.func case Some(f) => Some(f.raw) case None => None,
        file := raw.file, line := raw.line, column := raw.column)
    }

    function ChainRows(frames: seq<RawFrame>, n: nat): seq<ResolvedFrame>
      requires n <= |frames|
    {
      seq(n, i requires 0 <= i < n => ChainFrame(frames[i], i, n))
    }

    /** The meaning of `resolve`: which rows an address gets under an inline-depth cap. */
    function Answer(addr: U64, cap: nat): Outcome<seq<ResolvedFrame>> {
      if !DwarfProbeOk(addr) then Returned([NoLineFrame(addr)])
      else
        match WalkAt(addr)
        case LookupFails => Returned([BlankFrame(Error(CorruptInlineTree))])
        case LookupPanics => Panicked
        case Chain(frames, end) =>
          if |frames| < cap && end.WalkPanics? then Panicked
          else if |frames| < cap && end.Corrupt? && frames == [] then Returned([BlankFrame(Error(CorruptInlineTree))])
          else if frames == [] || cap == 0 then Returned([NoLineFrame(addr)])
          else
            var n := if |frames| < cap then |frames| else cap;
            Returned(ChainRows(frames, n))
    }

    /** What a DWARF lookup answers, case by case. */
    ghost predicate Resolves(addr: U64, cap: nat, r: Outcome<seq<ResolvedFrame>>) {
      var here, id := Some(name), Some(identity.DebugIdStr());
      var symbol := SymbolFor(symbols, addr);
      if addr == 0xFFFF_FFFF_FFFF_FFFF || addr !in walks then IsBareAnswer(r, here, id, symbol, NoLine)
      else
        match walks[addr]
        case LookupPanics => r.Panicked?
        case LookupFails => IsBareAnswer(r, here, id, None, Error(CorruptInlineTree))
        case Chain(frames, end) =>
          if cap > |frames| && end == WalkPanics then r.Panicked?
          else if cap > |frames| == 0 && end == Corrupt then IsBareAnswer(r, here, id, None, Error(CorruptInlineTree))
          else if cap == 0 || |frames| == 0 then IsBareAnswer(r, here, id, symbol, NoLine)
          else
            && r.Returned? && (|r.value| == |frames| <= cap || |r.value| == cap <= |frames|)
            && forall i :: 0 <= i < |r.value| ==>
                 IsLevel(r.value[i], i, |r.value|, name, identity.DebugIdStr()) && IsDwarfRow(r.value[i], frames[i])
    }

    /** `resolve`: collect raw frames up to the cap, then turn each into a row. */
    method Resolve(addr: U64, limits: Limits) returns (r: Outcome<seq<ResolvedFrame>>)
      ensures r == Answer(addr, limits.maxInlineDepth)
      ensures Resolves(addr, limits.maxInlineDepth, r)
    {
      DwarfAnswerFields(this, addr, limits.maxInlineDepth);
      if !DwarfProbeOk(addr) {
        return Returned([NoLineFrame(addr)]);
      }
      var walk := WalkAt(addr);
      match walk {
        case LookupFails => return Returned([BlankFrame(Error(CorruptInlineTree))]);
        case LookupPanics => return Panicked;
        case Chain(_, _) =>
      }
      var raw: seq<RawFrame> := [];
      while |raw| < limits.maxInlineDepth
        invariant |raw| <= |walk.frames| && |raw| <= limits.maxInlineDepth
        invariant raw == walk.frames[..|raw|]
        decreases |walk.frames| - |raw|
      {
        if |raw| < |walk.frames| {
          raw := raw + [walk.frames[|raw|]];
        } else if walk.end.Exhausted? {
          break;
        } else if walk.end.WalkPanics? {
          return Panicked;
        } else if raw == [] {
          return Returned([BlankFrame(Error(CorruptInlineTree))]);
        } else {
          break;
        }
      }
      if raw == [] {
        return Returned([NoLineFrame(addr)]);
      }
      var n := |raw|;
      var frames: seq<ResolvedFrame> := [];
      for i := 0 to n
        invariant |frames| == i
        invariant forall k :: 0 <= k < i ==> frames[k] == ChainFrame(walk.frames[k], k, n)
      {
        frames := frames + [ChainFrame(raw[i], i, n)];
      }
      assert frames == ChainRows(walk.frames, n);
      return Returned(frames);
    }

    /** `function_name`: the innermost frame's name, falling back to the symbol table. */
    function FunctionName(addr: U64): Outcome<Option<string>> {
      if !DwarfProbeOk(addr) then Returned(SymbolFor(symbols, addr))
      else
        match WalkAt(addr)
        case LookupFails => Returned(SymbolFor(symbols, addr))
        case LookupPanics => Panicked
        case Chain(frames, end) =>
          if frames != [] then
            match frames[0].func
            case Some(f) => Returned(Some(f.demangled))
            case None => Returned(SymbolFor(symbols, addr))
          else if end.WalkPanics? then Panicked
          else Returned(SymbolFor(symbols, addr))
    }
  }

  /** The reader probes `[addr, addr + 1)`, which has no representable end at the last address. */
  predicate DwarfProbeOk(addr: U64) {
    addr != U64_MAX
  }

  // ---- PDB -------------------------------------------------------------

  datatype PdbFrame = PdbFrame(func: Option<string>, file: Option<string>, line: Option<nat>)

  datatype PdbAnswer = Covered(frames: seq<PdbFrame>) | NotCovered | PdbLookupFails | PdbLookupPanics

  datatype PdbModule = PdbModule(
    identity: Identity, name: string, contextOk: bool, answers: map<U64, PdbAnswer>, byteSize: nat)
  {
    function AnswerAt(addr: U64): PdbAnswer {
      Lookup(answers, addr).GetOr(NotCovered)
    }

    function BlankFrame(status: ResolveStatus): ResolvedFrame {
      BlankRow(Some(name), Some(identity.DebugIdStr()), status)
    }

    function CoveredFrame(frame: PdbFrame, i: nat, n: nat): ResolvedFrame {
      BlankFrame(Ok).(
        inlineDepth := i, isInline := i + 1 < n,
        function_ := frame.func, functionRaw := frame.func,
        file := frame.file, line := frame.line)
    }

    function CoveredRows(frames: seq<PdbFrame>, n: nat): seq<ResolvedFrame>
      requires n <= |frames|
    {
      seq(n, i requires 0 <= i < n => CoveredFrame(frames[i], i, n))
    }

    /** The meaning of `resolve`; only 32-bit addresses are ever covered. */
    function Answer(addr: U64, cap: nat): Outcome<seq<ResolvedFrame>> {
      if !contextOk then Returned([BlankFrame(Error(CorruptLineProgram))])
      else if addr > U32_MAX then Returned([BlankFrame(NoLine)])
      else
        match AnswerAt(addr)
        case NotCovered => Returned([BlankFrame(NoLine)])
        case PdbLookupFails => Returned([BlankFrame(Error(CorruptInlineTree))])
        case PdbLookupPanics => Panicked
        case Covered(frames) =>
          var n := if |frames| < cap then |frames| else cap;
          if n == 0 then Returned([BlankFrame(NoLine)])
          else Returned(CoveredRows(frames, n))
    }

    /** What a PDB lookup answers, case by case. */
    ghost predicate Resolves(addr: U64, cap: nat, r: Outcome<seq<ResolvedFrame>>) {
      var here, id := Some(name), Some(identity.DebugIdStr());
      if !contextOk then IsBareAnswer(r, here, id, None, Error(CorruptLineProgram))
      else if addr >= 0x1_0000_0000 || addr !in answers then IsBareAnswer(r, here, id, None, NoLine)
      else
        match answers[addr]
        case PdbLookupPanics => r.Panicked?
        case PdbLookupFails => IsBareAnswer(r, here, id, None, Error(CorruptInlineTree))
        case NotCovered => IsBareAnswer(r, here, id, None, NoLine)
        case Covered(frames) =>
          if cap == 0 || |frames| == 0 then IsBareAnswer(r, here, id, None, NoLine)
          else
            && r.Returned? && (|r.value| == |frames| <= cap || |r.value| == cap <= |frames|)
            && forall i :: 0 <= i < |r.value| ==>
                 IsLevel(r.value[i], i, |r.value|, name, identity.DebugIdStr()) && IsPdbRow(r.value[i], frames[i])
    }

    method Resolve(addr: U64, limits: Limits) returns (r: Outcome<seq<ResolvedFrame>>)
      ensures r == Answer(addr, limits.maxInlineDepth)
      ensures Resolves(addr, limits.maxInlineDepth, r)
    {
      PdbAnswerFields(this, addr, limits.maxInlineDepth);
      if !contextOk {
        return Returned([BlankFrame(Error(CorruptLineProgram))]);
      }
      if addr > U32_MAX {
        return Returned([BlankFrame(NoLine)]);
      }
      var found := AnswerAt(addr);
      match found {
        case NotCovered => return Returned([BlankFrame(NoLine)]);
        case PdbLookupFails => return Returned([BlankFrame(Error(CorruptInlineTree))]);
        case PdbLookupPanics => return Panicked;
        case Covered(_) =>
      }
      var n := if |found.frames| < limits.maxInlineDepth then |found.frames| else limits.maxInlineDepth;
      if n == 0 {
        return Returned([BlankFrame(NoLine)]);
      }
      var out: seq<ResolvedFrame> := [];
      for i := 0 to n
        invariant |out| == i
        invariant forall k :: 0 <= k < i ==> out[k] == CoveredFrame(found.frames[k], k, n)
      {
        out := out + [CoveredFrame(found.frames[i], i, n)];
      }
      assert out == CoveredRows(found.frames, n);
      return Returned(out);
    }

    function FunctionName(addr: U64): Outcome<Option<string>> {
      if addr > U32_MAX || !contextOk then Returned(None)
      else
        match AnswerAt(addr)
        case NotCovered => Returned(None)
        case PdbLookupFails => Returned(None)
        case PdbLookupPanics => Panicked
        case Covered(frames) => Returned(if frames == [] then None else frames[0].func)
    }
  }

  // ---- rows, column by column ------------------------------------------

  /** A row with a module, a debug-id, a status and possibly a symbol, and nothing else. */
  ghost predicate IsBareRow(row: ResolvedFrame, moduleName: Option<string>, debugId: Option<string>,
                            symbol: Option<string>, status: ResolveStatus) {
    && row.inlineDepth == 0 && !row.isInline
    && row.function_ == symbol && row.functionRaw == symbol
    && row.file.None? && row.line.None? && row.column.None?
    && row.moduleName == moduleName && row.debugId == debugId && row.status == status
  }

  ghost predicate IsBareAnswer(r: Outcome<seq<ResolvedFrame>>, moduleName: Option<string>, debugId: Option<string>,
                               symbol: Option<string>, status: ResolveStatus) {
    r.Returned? && |r.value| == 1 && IsBareRow(r.value[0], moduleName, debugId, symbol, status)
  }

  /** Row `i` of `n` is level `i` of the chain, answered by this module. */
  ghost predicate IsLevel(row: ResolvedFrame, i: nat, n: nat, moduleName: string, debugId: string) {
    && row.inlineDepth == i && (row.isInline <==> i != n - 1)
    && row.moduleName == Some(moduleName) && row.debugId == Some(debugId) && row.status == Ok
  }

  ghost predicate IsDwarfRow(row: ResolvedFrame, frame: RawFrame) {
    && (frame.func.None? ==> row.function_.None? && row.functionRaw.None?)
    && (frame.func.Some? ==>
          row.function_ == Some(frame.func.value.demangled) && row.functionRaw == Some(frame.func.value.raw))
    && row.file == frame.file && row.line == frame.line && row.column == frame.column
  }

  ghost predicate IsPdbRow(row: ResolvedFrame, frame: PdbFrame) {
    && row.function_ == frame.func && row.functionRaw == frame.func
    && row.file == frame.file && row.line == frame.line && row.column.None?
  }

  lemma DwarfAnswerFields(d: DwarfModule, addr: U64, cap: nat)
    ensures d.Resolves(addr, cap, d.Answer(addr, cap))
  {
  }

  lemma PdbAnswerFields(p: PdbModule, addr: U64, cap: nat)
    ensures p.Resolves(addr, cap, p.Answer(addr, cap))
  {
  }

  // ---- either container ------------------------------------------------

  /** What one level of the inline chain says about the source. */
  datatype ChainLink = ChainLink(functionRaw: Option<string>, file: Option<string>, line: Option<nat>)

  ghost predicate IsChainPrefix(rows: seq<ResolvedFrame>, chain: seq<ChainLink>, cap: nat) {
    && |rows| == (if |chain| < cap then |chain| else cap)
    && (forall i :: 0 <= i < |rows| ==> ChainLink(rows[i].functionRaw, rows[i].file, rows[i].line) == chain[i])
  }

  datatype ParsedModule = Dwarf(dwarf: DwarfModule) | Pdb(pdb: PdbModule)
  {
    function Id(): Identity {
      match this case Dwarf(m) => m.identity case Pdb(m) => m.identity
    }

    function DebugIdStr(): string {
      Id().DebugIdStr()
    }

    function DisplayName(): string {
      match this case Dwarf(m) => m.name case Pdb(m) => m.name
    }

    function ResidentBytes(): nat {
      match this case Dwarf(m) => m.byteSize case Pdb(m) => m.byteSize
    }

    /** The uncapped inline chain at an address, innermost first. */
    function InlineChain(addr: U64): seq<ChainLink> {
      match this
      case Dwarf(d) =>
        if DwarfProbeOk(addr) && d.WalkAt(addr).Chain? then
          var frames := d.WalkAt(addr).frames;
          seq(|frames|, i requires 0 <= i < |frames| =>
            ChainLink(match frames[i].func case Some(f) => Some(f.raw) case None => None,
                      frames[i].file, frames[i].line))
        else []
      case Pdb(p) =>
        if p.contextOk && addr <= U32_MAX && p.AnswerAt(addr).Covered? then
          var frames := p.AnswerAt(addr).frames;
          seq(|frames|, i requires 0 <= i < |frames| => ChainLink(frames[i].func, frames[i].file, frames[i].line))
        else []
    }

    /** The symbol a module falls back to; PDB modules have none. */
    function Fallback(addr: U64): Option<string> {
      match this case Dwarf(d) => SymbolFor(d.symbols, addr) case Pdb(_) => None
    }

    /**
     Where the fast path and the first row of the full answer name different functions: the
     symbol fallback, the inline cap and the panic guard are reached under different conditions.
     */
    predicate FastPathDiverges(addr: U64, limits: Limits) {
      var cap, symbol := limits.maxInlineDepth, Fallback(addr);
      match this
      case Dwarf(d) =>
        DwarfProbeOk(addr) &&
        (match d.WalkAt(addr)
         case LookupFails => symbol.Some?
         case LookupPanics => false
         case Chain(frames, end) =>
           if frames == [] then symbol.Some? && (if cap > 0 then end.Corrupt? else end.WalkPanics?)
           else if frames[0].func.None? then cap > 0 && symbol.Some?
           else if cap == 0 then symbol != Some(frames[0].func.value.demangled)
           else |frames| < cap && end.WalkPanics?)
      case Pdb(p) =>
        cap == 0 && p.contextOk && addr <= U32_MAX &&
        p.AnswerAt(addr).Covered? && p.AnswerAt(addr).frames != [] && p.AnswerAt(addr).frames[0].func.Some?
    }

    function Unguarded(addr: U64, cap: nat): Outcome<seq<ResolvedFrame>> {
      match this case Dwarf(m) => m.Answer(addr, cap) case Pdb(m) => m.Answer(addr, cap)
    }

    /**
     The rows of an address; a contained panic becomes one error row. Total and in shape whatever
     the readers do, never a denial, and signed with the module's debug-id; rows with status ok are
     the first `maxInlineDepth` frames of the inline chain.
     */
    function Answer(addr: U64, limits: Limits): (rows: seq<ResolvedFrame>)
      ensures WellShaped(rows, limits.maxInlineDepth) && rows[0].status != NotFound
      ensures forall i :: 0 <= i < |rows| ==> rows[i].debugId == Some(DebugIdStr())
      ensures rows[0].status == Ok ==> IsChainPrefix(rows, InlineChain(addr), limits.maxInlineDepth)
    {
      RowsInShape(this, addr, limits.maxInlineDepth);
      match Unguarded(addr, limits.maxInlineDepth)
      case Returned(rows) => rows
      case Panicked => [ErrorRow(CorruptLineProgram, Some(DebugIdStr()))]
    }

    method Resolve(addr: U64, limits: Limits) returns (rows: seq<ResolvedFrame>)
      ensures rows == Answer(addr, limits)
    {
      var guarded;
      match this {
        case Dwarf(m) => guarded := m.Resolve(addr, limits);
        case Pdb(m) => guarded := m.Resolve(addr, limits);
      }
      match guarded {
        case Returned(r) => rows := r;
        case Panicked => rows := [ErrorRow(CorruptLineProgram, Some(DebugIdStr()))];
      }
    }

    /**
     The fast path. It equals the first row's function exactly where the two do not diverge, and
     away from panics it is the first row's function or else the nearest symbol.
     */
    function FunctionName(addr: U64): (r: Option<string>)
      ensures forall limits: Limits ::
                r == Answer(addr, limits)[0].function_ <==> !FastPathDiverges(addr, limits)
      ensures forall limits: Limits ::
                limits.maxInlineDepth >= 1 && Unguarded(addr, limits.maxInlineDepth).Returned? ==>
                r == (var first := Answer(addr, limits)[0].function_; if first.Some? then first else Fallback(addr))
    {
      var guarded := match this case Dwarf(m) => m.FunctionName(addr) case Pdb(m) => m.FunctionName(addr);
      match guarded
      case Returned(n) => n
      case Panicked => None
    }
  }

  /** What the rows of a lookup that returns look like. */
  ghost predicate InShape(m: ParsedModule, rows: seq<ResolvedFrame>, addr: U64, cap: nat) {
    && WellShaped(rows, cap) && rows[0].status != NotFound
    && (forall i :: 0 <= i < |rows| ==> rows[i].debugId == Some(m.DebugIdStr()))
    && (rows[0].status == Ok ==> IsChainPrefix(rows, m.InlineChain(addr), cap))
  }

  lemma DwarfInShape(d: DwarfModule, addr: U64, cap: nat)
    ensures d.Answer(addr, cap).Returned? ==> InShape(Dwarf(d), d.Answer(addr, cap).value, addr, cap)
  {
  }

  lemma PdbInShape(p: PdbModule, addr: U64, cap: nat)
    ensures p.Answer(addr, cap).Returned? ==> InShape(ParsedModule.Pdb(p), p.Answer(addr, cap).value, addr, cap)
  {
  }

  lemma RowsInShape(m: ParsedModule, addr: U64, cap: nat)
    ensures m.Unguarded(addr, cap).Returned? ==> InShape(m, m.Unguarded(addr, cap).value, addr, cap)
  {
    match m {
      case Dwarf(d) => DwarfInShape(d, addr, cap);
      case Pdb(p) => PdbInShape(p, addr, cap);
    }
  }

  ghost predicate ModuleResolves(m: ParsedModule, addr: U64, cap: nat, r: Outcome<seq<ResolvedFrame>>) {
    match m case Dwarf(d) => d.Resolves(addr, cap, r) case Pdb(p) => p.Resolves(addr, cap, r)
  }

  /** The rows are those of the container, or the one row of a contained panic. */
  ghost predicate ModuleSays(m: ParsedModule, addr: U64, cap: nat, rows: seq<ResolvedFrame>) {
    || ModuleResolves(m, addr, cap, Returned(rows))
    || (ModuleResolves(m, addr, cap, Panicked) && |rows| == 1
        && IsBareRow(rows[0], None, Some(m.DebugIdStr()), None, Error(CorruptLineProgram)))
  }

  lemma ModuleRows(m: ParsedModule, addr: U64, limits: Limits)
    ensures ModuleSays(m, addr, limits.maxInlineDepth, m.Answer(addr, limits))
  {
    match m {
      case Dwarf(d) => DwarfAnswerFields(d, addr, limits.maxInlineDepth);
      case Pdb(p) => PdbAnswerFields(p, addr, limits.maxInlineDepth);
    }
  }

  // ---- parsing ---------------------------------------------------------

  /** What the readers extract from the bytes of a well-formed debug file. */
  datatype Image =
    | DwarfImage(identity: Identity, objectSymbols: seq<ObjectSymbol>, walks: map<U64, Walk>)
    | PdbImage(identity: Identity, contextOk: bool, answers: map<U64, PdbAnswer>)

  datatype ReadOutcome = Readable(image: Image) | Rejected(kind: ErrorKind) | ReaderPanics

  /** The bytes of a debug file, as the probe and the parser see them. */
  datatype FileData = FileData(size: nat, fileName: Option<string>, probe: Option<Identity>, reader: ReadOutcome)

  /** `ParsedModule::parse`: the size cap first, then the reader, with its panics contained. */
  function Parse(data: FileData, name: string, limits: Limits): Result<ParsedModule, ErrorKind> {
    if data.size > limits.maxParseBytes then Failure(AllocCap)
    else
      match data.reader
      case Rejected(kind) => Failure(kind)
      case ReaderPanics => Failure(CorruptLineProgram)
      case Readable(DwarfImage(identity, objectSymbols, walks)) =>
        Success(Dwarf(DwarfModule(identity, name, SymbolTable(TextSymbols(objectSymbols)), walks, data.size)))
      case Readable(PdbImage(identity, contextOk, answers)) =>
        Success(ParsedModule.Pdb(PdbModule(identity, name, contextOk, answers, data.size)))
  }
}
