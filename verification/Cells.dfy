/**
 One merged clock seen on its own.  All arcs of one kind happen in the same state, so a
 protocol over sync objects can be studied with one raw number per thread and per object.
 */
module Cells {
  import opened Clocks

  /** The critical value of one clock in a sync object. */
  datatype Cell = Cell(unused: bool, raw: real) {
    /** OmpHBefore */
    function Put(raw': real): Cell {
      Cell(false, if unused then raw' else Max(raw, raw'))
    }

    /** OmpHAfter, the object side */
    function Touch(): Cell {
      Cell(false, raw)
    }

    /** OmpHAfter, the thread side */
    function Get(raw': real): real {
      Max(raw', raw)
    }
  }

  /** OmpCReset */
  const EMPTY := Cell(true, 0.0)

  function CellOf(s: SyncValue, c: ClockType): Cell {
    Cell(s.state == Init, s.clocks[c].critical)
  }

  /** Each merged clock of a sync clock and a thread clock behaves like its cell. */
  lemma CellsRefineClocks(s: SyncValue, t: ThreadValue, c: ClockType)
    requires t.Valid() && t.State() != Init && c < 3
    ensures CellOf(Deposited(true, s, t), c) == CellOf(s, c).Put(t.clocks[c].critical)
    ensures CellOf(Touched(true, s, t), c) == CellOf(s, c).Touch()
    ensures Acquired(true, s, t).clocks[c].critical == CellOf(s, c).Get(t.clocks[c].critical)
    ensures CellOf(Cleared(true, s), c) == EMPTY
  {
  }
}
