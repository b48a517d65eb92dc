/**
 What parsing makes of a debug file, said of the file itself: which files parse, what their
 modules hold, and which function symbol an address without line information falls back to.
 */
module Parsing {

  import opened Wrappers
  import opened Frames
  import opened Sorting
  import opened Symbols
  import opened Modules

  /** A symbol that names a function: in the text section, with a readable name that is not empty. */
  predicate NamesFunction(s: ObjectSymbol) {
    s.isText && s.name.Some? && |s.name.value.raw| > 0
  }

  /** Symbol `i` is the first one in file order at the greatest address of a function at or below `addr`. */
  ghost predicate IsNearestFunction(all: seq<ObjectSymbol>, addr: U64, i: nat) {
    && i < |all| && NamesFunction(all[i]) && all[i].address <= addr
    && forall j :: 0 <= j < |all| && NamesFunction(all[j]) && all[j].address <= addr ==>
         all[j].address < all[i].address || (all[j].address == all[i].address && i <= j)
  }

  /** No name exactly when every function starts above `addr`, else that of the nearest one. */
  ghost predicate IsFallback(all: seq<ObjectSymbol>, addr: U64, r: Option<string>) {
    && (r.None? <==> forall i :: 0 <= i < |all| && NamesFunction(all[i]) ==> addr < all[i].address)
    && (r.Some? ==> exists i: nat :: IsNearestFunction(all, addr, i) && r.value == all[i].name.value.demangled)
  }

  /** Every function of the file is in the list the table is built from. */
  lemma {:induction false} FunctionIsListed(all: seq<ObjectSymbol>, i: nat)
    requires i < |all| && NamesFunction(all[i])
    ensures Symbol(all[i].address, all[i].name.value.demangled) in TextSymbols(all)
  {
    if i > 0 { FunctionIsListed(all[1..], i - 1); }
  }

  /** The first listed symbol at an address is the first function of the file there. */
  lemma {:induction false} FirstListedAt(all: seq<ObjectSymbol>, k: U64) returns (i: nat)
    requires WithKey(TextSymbols(all), AddressOf, k) != []
    ensures i < |all| && NamesFunction(all[i]) && all[i].address == k
    ensures forall j :: 0 <= j < i ==> !(NamesFunction(all[j]) && all[j].address == k)
    ensures WithKey(TextSymbols(all), AddressOf, k)[0].name == all[i].name.value.demangled
  {
    if NamesFunction(all[0]) && all[0].address == k {
      i := 0;
    } else {
      i := FirstListedAt(all[1..], k);
      assert forall j :: 0 < j < |all| ==> all[j] == all[1..][j - 1];
      i := i + 1;
    }
  }

  /** The table of a file's symbols answers every address with the nearest function. */
  lemma TableFallsBack(all: seq<ObjectSymbol>, addr: U64)
    ensures IsFallback(all, addr, SymbolFor(SymbolTable(TextSymbols(all)), addr))
  {
    var listed := TextSymbols(all);
    SymbolForIsNearest(listed, addr);
    var best := Nearest(listed, addr);
    if best.None? {
      NoneBelow(all, listed, addr);
    } else {
      var i := FirstListedAt(all, best.value.address);
      forall j | 0 <= j < |all| && NamesFunction(all[j]) && all[j].address <= addr
        ensures all[j].address < all[i].address || (all[j].address == all[i].address && i <= j)
      {
        FunctionIsListed(all, j);
      }
      assert IsNearestFunction(all, addr, i);
    }
  }

  lemma NoneBelow(all: seq<ObjectSymbol>, listed: seq<Symbol>, addr: U64)
    requires listed == TextSymbols(all) && forall s :: s in listed ==> addr < s.address
    ensures forall i :: 0 <= i < |all| && NamesFunction(all[i]) ==> addr < all[i].address
  {
    forall i | 0 <= i < |all| && NamesFunction(all[i]) ensures addr < all[i].address {
      FunctionIsListed(all, i);
      assert Symbol(all[i].address, all[i].name.value.demangled) in listed;
    }
  }

  // ---- parsing -------------------------------------------------------------

  /** What a module says of itself: the file's identity and size, and the name it was given. */
  ghost predicate Presents(m: ParsedModule, image: Image, name: string, size: nat) {
    m.Id() == image.identity && m.DisplayName() == name && m.ResidentBytes() == size
  }

  /** A DWARF module holds the file's identity, name, walks and size, and falls back to its nearest function. */
  ghost predicate IsDwarfModuleOf(m: ParsedModule, image: Image, name: string, size: nat)
    requires image.DwarfImage?
  {
    && m.Dwarf? && m.dwarf.identity == image.identity && m.dwarf.name == name && m.dwarf.walks == image.walks
    && m.dwarf.byteSize == size && Presents(m, image, name, size)
    && forall addr: U64 :: IsFallback(image.objectSymbols, addr, SymbolFor(m.dwarf.symbols, addr))
  }

  ghost predicate IsPdbModuleOf(m: ParsedModule, image: Image, name: string, size: nat)
    requires image.PdbImage?
  {
    && m.Pdb? && m.pdb.identity == image.identity && m.pdb.name == name && m.pdb.answers == image.answers
    && m.pdb.byteSize == size && Presents(m, image, name, size) && m.pdb.contextOk == image.contextOk
  }

  /** Why a file does not parse: too large whatever is in it, rejected, or its reader panics. */
  function Malformation(data: FileData, limits: Limits): Option<ErrorKind> {
    if data.size > limits.maxParseBytes then Some(AllocCap)
    else if data.reader.Rejected? then Some(data.reader.kind)
    else if data.reader.ReaderPanics? then Some(CorruptLineProgram)
    else None
  }

  /** A file parses exactly if nothing is wrong with it, and then to a module that says what the file says. */
  lemma ParseExact(data: FileData, name: string, limits: Limits)
    ensures var r, wrong := Parse(data, name, limits), Malformation(data, limits);
            && (wrong.Some? ==> r == Failure(wrong.value))
            && (wrong.None? ==>
                  && data.reader.Readable? && r.Success?
                  && (data.reader.image.DwarfImage? ==> IsDwarfModuleOf(r.value, data.reader.image, name, data.size))
                  && (data.reader.image.PdbImage? ==> IsPdbModuleOf(r.value, data.reader.image, name, data.size)))
  {
    if Malformation(data, limits).None? && data.reader.image.DwarfImage? {
      var objects := data.reader.image.objectSymbols;
      forall addr: U64 ensures IsFallback(objects, addr, SymbolFor(SymbolTable(TextSymbols(objects)), addr)) {
        TableFallsBack(objects, addr);
      }
    }
  }
}
