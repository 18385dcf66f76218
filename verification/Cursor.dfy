/** The persisted cursor: a temporary file renamed over the cursor file (pkg/wal/cursor.go). */
module Cursor {
  import opened Wrappers
  import opened Store

  /** The temporary file: missing, cut short by a crash or a failed write, or complete. */
  datatype TempFile = Missing | CutShort | Complete(state: CursorState)

  /** The cursor file: missing, not readable or not a cursor, or with a cursor. Encoding cursors as
      JSON is not modelled. */
  datatype MainFile = NoFile | Unreadable | Garbage | Holds(state: CursorState)

  datatype Files = Files(main: MainFile, temp: TempFile)

  /** A missing cursor file stands for the initial cursor; the temporary file is never read. */
  function Loaded(f: Files): CursorState {
    if f.main.Holds? then f.main.state else CursorState(0, 0)
  }

  predicate Broken(f: Files) {
    f.main.Unreadable? || f.main.Garbage?
  }

  /** The states of the two files that a crash during a save can leave behind. */
  function SaveStates(f: Files, state: CursorState): seq<Files> {
    [f, f.(temp := CutShort), f.(temp := Complete(state)), Files(Holds(state), Missing)]
  }

  /** Saving cursors one after the other, each cut off by a crash after some of its steps (4 steps
      complete it; the files it starts from are those the one before left). */
  function AfterSaves(f: Files, saves: seq<(CursorState, nat)>): (r: Files)
    requires forall s <- saves :: s.1 < 4
    decreases |saves|
  {
    if |saves| == 0 then f
    else SaveStates(AfterSaves(f, saves[..|saves| - 1]), saves[|saves| - 1].0)[saves[|saves| - 1].1]
  }

  /** Whatever crashes cut saves off, loading gives the cursor of the last save that was complete, and
      the old one if none was: never a part of one, or one that was superseded. */
  lemma {:induction false} SavesAreAtomic(f: Files, saves: seq<(CursorState, nat)>, last: int)
    requires forall s <- saves :: s.1 < 4
    requires -1 <= last < |saves| && (last >= 0 ==> saves[last].1 == 3)
    requires forall i :: last < i < |saves| ==> saves[i].1 < 3
    ensures var r := AfterSaves(f, saves);
            if last < 0 then r.main == f.main else r.main == Holds(saves[last].0)
    decreases |saves|
  {
    if |saves| > 0 && last < |saves| - 1 {
      SavesAreAtomic(f, saves[..|saves| - 1], last);
    }
  }

  datatype Fault = Fine | WriteFails | RenameFails

  class JSONCursor {
    var files: Files

    constructor ()
      ensures files == Files(NoFile, Missing)
    {
      files := Files(NoFile, Missing);
    }

    method Load() returns (state: Option<CursorState>)
      ensures state == if Broken(files) then None else Some(Loaded(files))
      ensures state == None <==> files.main == Unreadable || files.main == Garbage
      ensures forall s :: state == Some(s) <==>
                files.main == Holds(s) || (files.main == NoFile && s == CursorState(0, 0))
    {
      match files.main {
        case NoFile => state := Some(CursorState(0, 0));
        case Unreadable => state := None;
        case Garbage => state := None;
        case Holds(s) => state := Some(s);
      }
    }

    method Save(state: CursorState, fault: Fault) returns (ok: bool)
      modifies this
      ensures ok <==> fault == Fine
      ensures files in SaveStates(old(files), state)
      ensures files.main == if ok then Holds(state) else old(files.main)
    {
      ghost var states := SaveStates(files, state);
      if fault == WriteFails {
        files := files.(temp := CutShort);
        assert files == states[1];
        return false;
      }
      files := files.(temp := Complete(state));
      if fault == RenameFails {
        assert files == states[2];
        return false;
      }
      files := Files(Holds(files.temp.state), Missing);
      assert files == states[3];
      return true;
    }
  }
}
