/** The rows symbolication produces (frame.rs, errors.rs). */
module Frames {

  import opened Wrappers

  datatype ErrorKind =
    | Truncated | BadMagic | BadBuildId | CorruptLineProgram
    | CorruptInlineTree | UnsupportedFormat | NestingLimit | AllocCap

  datatype ResolveStatus = Ok | NotFound | NoLine | Error(kind: ErrorKind)

  datatype ResolvedFrame = ResolvedFrame(
    inlineDepth: nat,
    isInline: bool,
    function_: Option<string>,
    functionRaw: Option<string>,
    file: Option<string>,
    line: Option<nat>,
    column: Option<nat>,
    moduleName: Option<string>,
    debugId: Option<string>,
    status: ResolveStatus)

  function BlankRow(moduleName: Option<string>, debugId: Option<string>, status: ResolveStatus): ResolvedFrame {
    ResolvedFrame(0, false, None, None, None, None, None, moduleName, debugId, status)
  }

  /** The one row of an address no module matched. */
  function NotFoundRow(): ResolvedFrame {
    BlankRow(None, None, NotFound)
  }

  /** The one row given for a file that cannot be parsed or read. */
  function ErrorRow(kind: ErrorKind, debugId: Option<string>): ResolvedFrame {
    BlankRow(None, debugId, Error(kind))
  }

  /**
   What every answer looks like: at least one row and at most `max(1, cap)`, depths counting
   up from zero, every row but the last marked inline, and a failure status only alone.
   */
  ghost predicate WellShaped(rows: seq<ResolvedFrame>, cap: nat) {
    && 1 <= |rows| <= Max(1, cap)
    && (forall i :: 0 <= i < |rows| ==> rows[i].inlineDepth == i && (rows[i].isInline <==> i < |rows| - 1))
    && (forall i :: 0 <= i < |rows| && rows[i].status != Ok ==> |rows| == 1)
  }
}
