/** The replay run as a trace of the dialogs, clipboard writes and key presses
    it issues. Whether ESC is held before item i and whether the clipboard write
    of item i succeeds are given as functions of the item index. */
module Replay {

  datatype Action =
    | WarnNoImages     // "no images to copy" warning
    | AskConfirm       // the yes/no question before the run
    | Copy(item: nat)  // clipboard write of item `item` attempted
    | CopyError(item: nat)  // error dialog after that write failed
    | Paste            // ctrl+v
    | Right
    | Down
    | Left
    | Stop             // "stopped" dialog after ESC
    | Done             // "all images copied" dialog

  /** Columns of the target table; the source hard-codes it. */
  const GridWidth := 3

  /** Cursor moves after item i (0-based) was pasted. */
  function Advance(i: nat): seq<Action> {
    if (i + 1) % GridWidth == 0 then [Down, Left, Left] else [Right]
  }

  /** What item i issues once the ESC check has passed. */
  function ItemActions(i: nat, copied: bool): seq<Action> {
    if copied then [Copy(i), Paste] + Advance(i) else [Copy(i), CopyError(i)]
  }

  /** The loop from item i on, for a list of n images. */
  function Steps(i: nat, n: nat, escape: nat -> bool, copyOk: nat -> bool): seq<Action>
    decreases n - i
  {
    if i >= n then []
    else if escape(i) then [Stop]
    else ItemActions(i, copyOk(i)) + Steps(i + 1, n, escape, copyOk)
  }

  /** Everything a click on the viewer does, for a list of n images. */
  function ReplayTrace(n: nat, answerYes: bool, escape: nat -> bool, copyOk: nat -> bool): seq<Action> {
    if n == 0 then [WarnNoImages]
    else if !answerYes then [AskConfirm]
    else [AskConfirm] + Steps(0, n, escape, copyOk) + [Done]
  }

  /** The first item before which ESC is held, or n when it never is. */
  function FirstEscape(escape: nat -> bool, i: nat, n: nat): (m: nat)
    requires i <= n
    ensures i <= m <= n
    ensures m < n ==> escape(m)
    ensures forall j :: i <= j < m ==> !escape(j)
    decreases n - i
  {
    if i == n || escape(i) then i else FirstEscape(escape, i + 1, n)
  }

  predicate IsKeyOrClipboard(a: Action) {
    a.Copy? || a.Paste? || a.Right? || a.Down? || a.Left?
  }

  /** An empty list, or any answer but yes, leaves the clipboard and keyboard alone;
      the question is asked exactly when there are images. */
  lemma NoReplayWithoutImagesOrConsent(n: nat, answerYes: bool, escape: nat -> bool, copyOk: nat -> bool)
    requires n == 0 || !answerYes
    ensures forall a :: a in ReplayTrace(n, answerYes, escape, copyOk) ==> !IsKeyOrClipboard(a)
    ensures AskConfirm in ReplayTrace(n, answerYes, escape, copyOk) <==> n > 0
  {
  }

  /** Running items i .. k-1 and then k .. n-1 is running i .. n-1, when ESC is not held before i .. k-1. */
  lemma {:induction false} StepsSplit(i: nat, k: nat, n: nat, escape: nat -> bool, copyOk: nat -> bool)
    requires i <= k <= n
    requires forall j :: i <= j < k ==> !escape(j)
    ensures Steps(i, n, escape, copyOk) == Steps(i, k, escape, copyOk) + Steps(k, n, escape, copyOk)
    decreases k - i
  {
    if i < k {
      StepsSplit(i + 1, k, n, escape, copyOk);
    }
  }

  /** Item i, when reached, issues exactly its own actions between the earlier
      items and the rest of the run: on a failed copy that is the copy and the
      error dialog, with no paste and no cursor move, and the run goes on with
      item i + 1. */
  lemma ItemBlock(n: nat, escape: nat -> bool, copyOk: nat -> bool, i: nat)
    requires i < FirstEscape(escape, 0, n)
    ensures Steps(0, n, escape, copyOk) ==
            Steps(0, i, escape, copyOk) + ItemActions(i, copyOk(i)) + Steps(i + 1, n, escape, copyOk)
    ensures !copyOk(i) ==> Paste !in ItemActions(i, copyOk(i)) && Moves(ItemActions(i, copyOk(i))) == []
  {
    var front, item, rest := Steps(0, i, escape, copyOk), ItemActions(i, copyOk(i)), Steps(i + 1, n, escape, copyOk);
    StepsSplit(0, i, n, escape, copyOk);
    StepAt(i, n, escape, copyOk);
    AppendAssoc(front, item, rest);
    if !copyOk(i) {
      assert Moves(item) == [] by {
        assert Moves([CopyError(i)]) == [] by { assert [CopyError(i)][1..] == []; }
        assert item[1..] == [CopyError(i)];
      }
    }
  }

  /** One unfolding of the loop at an item where ESC is not held. */
  lemma StepAt(i: nat, n: nat, escape: nat -> bool, copyOk: nat -> bool)
    requires i < n && !escape(i)
    ensures Steps(i, n, escape, copyOk) == ItemActions(i, copyOk(i)) + Steps(i + 1, n, escape, copyOk)
  {
  }

  lemma AppendAssoc(a: seq<Action>, b: seq<Action>, c: seq<Action>)
    ensures a + (b + c) == a + b + c
  {
  }

  /** ESC held before item m (and not before): the run ends with the "stopped"
      and "done" dialogs right after item m - 1, and items m .. n-1 get nothing. */
  lemma EscapeStops(n: nat, escape: nat -> bool, copyOk: nat -> bool)
    requires FirstEscape(escape, 0, n) < n
    ensures ReplayTrace(n, true, escape, copyOk) ==
            [AskConfirm] + Steps(0, FirstEscape(escape, 0, n), escape, copyOk) + [Stop, Done]
  {
    var m := FirstEscape(escape, 0, n);
    StepsSplit(0, m, n, escape, copyOk);
  }

  /** The items whose copy is attempted, in trace order. */
  function CopiedItems(t: seq<Action>): seq<nat> {
    if t == [] then [] else CopyOf(t[0]) + CopiedItems(t[1..])
  }

  function CopyOf(a: Action): seq<nat> {
    if a.Copy? then [a.item] else []
  }

  lemma {:induction false} CopiedItemsAppend(a: seq<Action>, b: seq<Action>)
    ensures CopiedItems(a + b) == CopiedItems(a) + CopiedItems(b)
  {
    if a == [] {
      assert a + b == b;
    } else {
      assert (a + b)[0] == a[0] && (a + b)[1..] == a[1..] + b;
      calc {
        CopiedItems(a + b);
        CopyOf(a[0]) + CopiedItems(a[1..] + b);
        { CopiedItemsAppend(a[1..], b); }
        CopyOf(a[0]) + (CopiedItems(a[1..]) + CopiedItems(b));
        (CopyOf(a[0]) + CopiedItems(a[1..])) + CopiedItems(b);
        CopiedItems(a) + CopiedItems(b);
      }
    }
  }

  lemma CopiedItemsOfItem(i: nat, copied: bool)
    ensures CopiedItems(ItemActions(i, copied)) == [i]
  {
    var t := ItemActions(i, copied);
    assert t == [Copy(i)] + t[1..];
    if !copied {
      assert CopiedItems([CopyError(i)]) == [] by { assert [CopyError(i)][1..] == []; }
    } else if (i + 1) % GridWidth == 0 {
      assert CopiedItems([Left]) == [] by { assert [Left][1..] == []; }
      assert CopiedItems([Left, Left]) == [] by { assert [Left, Left][1..] == [Left]; }
      assert CopiedItems([Down, Left, Left]) == [] by { assert [Down, Left, Left][1..] == [Left, Left]; }
      assert CopiedItems([Paste, Down, Left, Left]) == [] by { assert [Paste, Down, Left, Left][1..] == [Down, Left, Left]; }
    } else {
      assert CopiedItems([Right]) == [] by { assert [Right][1..] == []; }
      assert CopiedItems([Paste, Right]) == [] by { assert [Paste, Right][1..] == [Right]; }
    }
  }

  /** The item indices lo .. hi-1, in order. */
  function Range(lo: nat, hi: nat): seq<nat>
    decreases hi - lo
  {
    if lo >= hi then [] else [lo] + Range(lo + 1, hi)
  }

  lemma {:induction false} RangeIsSeq(lo: nat, hi: nat)
    requires lo <= hi
    ensures Range(lo, hi) == seq(hi - lo, j => lo + j)
    decreases hi - lo
  {
    if lo < hi {
      RangeIsSeq(lo + 1, hi);
      assert [lo] + seq(hi - (lo + 1), j => lo + 1 + j) == seq(hi - lo, j => lo + j);
    }
  }

  lemma {:induction false} StepsCopies(i: nat, n: nat, escape: nat -> bool, copyOk: nat -> bool)
    requires i <= n
    ensures CopiedItems(Steps(i, n, escape, copyOk)) == Range(i, FirstEscape(escape, i, n))
    decreases n - i
  {
    if i < n && !escape(i) {
      var item := ItemActions(i, copyOk(i));
      var rest := Steps(i + 1, n, escape, copyOk);
      assert Steps(i, n, escape, copyOk) == item + rest;
      StepsCopies(i + 1, n, escape, copyOk);
      CopiedItemsAppend(item, rest);
      CopiedItemsOfItem(i, copyOk(i));
    } else {
      assert CopiedItems([Stop]) == [] by { assert [Stop][1..] == []; }
    }
  }

  /** Exactly the items before the first ESC are attempted, each once, in order. */
  lemma ReplayCopiesPrefix(n: nat, escape: nat -> bool, copyOk: nat -> bool)
    requires n > 0
    ensures CopiedItems(ReplayTrace(n, true, escape, copyOk)) ==
            seq(FirstEscape(escape, 0, n), j => j)
  {
    var steps := Steps(0, n, escape, copyOk);
    StepsCopies(0, n, escape, copyOk);
    RangeIsSeq(0, FirstEscape(escape, 0, n));
    CopiedItemsAppend([AskConfirm], steps);
    CopiedItemsAppend([AskConfirm] + steps, [Done]);
  }

  /** A cell of the target table: the paste cursor's position. */
  datatype Cell = Cell(row: int, col: int)

  function Move(c: Cell, a: Action): Cell {
    match a
    case Right => Cell(c.row, c.col + 1)
    case Left => Cell(c.row, c.col - 1)
    case Down => Cell(c.row + 1, c.col)
    case _ => c
  }

  function EndCell(t: seq<Action>, c: Cell): Cell {
    if t == [] then c else EndCell(t[1..], Move(c, t[0]))
  }

  /** The cells that receive a paste when the trace runs from cell c. */
  function PasteCells(t: seq<Action>, c: Cell): seq<Cell> {
    if t == [] then [] else PasteAt(t[0], c) + PasteCells(t[1..], Move(c, t[0]))
  }

  function PasteAt(a: Action, c: Cell): seq<Cell> {
    if a == Paste then [c] else []
  }

  lemma {:induction false} EndCellAppend(a: seq<Action>, b: seq<Action>, c: Cell)
    ensures EndCell(a + b, c) == EndCell(b, EndCell(a, c))
  {
    if a == [] {
      assert a + b == b;
    } else {
      var ab := a + b;
      assert ab[0] == a[0] && ab[1..] == a[1..] + b;
      EndCellAppend(a[1..], b, Move(c, a[0]));
    }
  }

  lemma {:induction false} PasteCellsAppend(a: seq<Action>, b: seq<Action>, c: Cell)
    ensures PasteCells(a + b, c) == PasteCells(a, c) + PasteCells(b, EndCell(a, c))
  {
    if a == [] {
      assert a + b == b;
    } else {
      var c' := Move(c, a[0]);
      assert (a + b)[0] == a[0] && (a + b)[1..] == a[1..] + b;
      calc {
        PasteCells(a + b, c);
        PasteAt(a[0], c) + PasteCells(a[1..] + b, c');
        { PasteCellsAppend(a[1..], b, c'); }
        PasteAt(a[0], c) + (PasteCells(a[1..], c') + PasteCells(b, EndCell(a[1..], c')));
        (PasteAt(a[0], c) + PasteCells(a[1..], c')) + PasteCells(b, EndCell(a[1..], c'));
        PasteCells(a, c) + PasteCells(b, EndCell(a, c));
      }
    }
  }

  function GridCell(i: int): Cell {
    Cell(i / GridWidth, i % GridWidth)
  }

  /** Item i, pasted at its grid cell, leaves the cursor on the cell of item i + 1. */
  lemma ItemAdvancesCursor(i: nat)
    ensures PasteCells(ItemActions(i, true), GridCell(i)) == [GridCell(i)]
    ensures EndCell(ItemActions(i, true), GridCell(i)) == GridCell(i + 1)
  {
    var c := GridCell(i);
    var t := ItemActions(i, true);
    assert t == [Copy(i)] + t[1..];
    if (i + 1) % GridWidth == 0 {
      var d := Cell(c.row + 1, c.col);
      var l1 := Cell(c.row + 1, c.col - 1);
      var l2 := Cell(c.row + 1, c.col - 2);
      assert PasteCells([Left], l1) == [] && EndCell([Left], l1) == l2 by { assert [Left][1..] == []; }
      assert PasteCells([Left, Left], d) == [] && EndCell([Left, Left], d) == l2 by { assert [Left, Left][1..] == [Left]; }
      assert PasteCells([Down, Left, Left], c) == [] && EndCell([Down, Left, Left], c) == l2 by { assert [Down, Left, Left][1..] == [Left, Left]; }
      assert PasteCells([Paste, Down, Left, Left], c) == [c] && EndCell([Paste, Down, Left, Left], c) == l2 by { assert [Paste, Down, Left, Left][1..] == [Down, Left, Left]; }
      assert t[1..] == [Paste, Down, Left, Left];
      assert i % GridWidth == 2 && (i + 1) / GridWidth == i / GridWidth + 1;
    } else {
      var r := Cell(c.row, c.col + 1);
      assert PasteCells([Right], c) == [] && EndCell([Right], c) == r by { assert [Right][1..] == []; }
      assert PasteCells([Paste, Right], c) == [c] && EndCell([Paste, Right], c) == r by { assert [Paste, Right][1..] == [Right]; }
      assert t[1..] == [Paste, Right];
      assert (i + 1) % GridWidth == i % GridWidth + 1 && (i + 1) / GridWidth == i / GridWidth;
    }
  }

  /** The grid cells of items lo .. hi-1, in order. */
  function GridCells(lo: nat, hi: nat): seq<Cell>
    decreases hi - lo
  {
    if lo >= hi then [] else [GridCell(lo)] + GridCells(lo + 1, hi)
  }

  lemma {:induction false} GridCellsIsSeq(lo: nat, hi: nat)
    requires lo <= hi
    ensures GridCells(lo, hi) == seq(hi - lo, j => GridCell(lo + j))
    decreases hi - lo
  {
    if lo < hi {
      GridCellsIsSeq(lo + 1, hi);
      assert [GridCell(lo)] + seq(hi - (lo + 1), j => GridCell(lo + 1 + j)) == seq(hi - lo, j => GridCell(lo + j));
    }
  }

  lemma {:induction false} StepsFillGrid(i: nat, n: nat, escape: nat -> bool, copyOk: nat -> bool)
    requires i <= n
    requires forall j :: i <= j < n ==> !escape(j) && copyOk(j)
    ensures PasteCells(Steps(i, n, escape, copyOk), GridCell(i)) == GridCells(i, n)
    decreases n - i
  {
    if i < n {
      var item := ItemActions(i, true);
      var rest := Steps(i + 1, n, escape, copyOk);
      assert Steps(i, n, escape, copyOk) == item + rest;
      StepsFillGrid(i + 1, n, escape, copyOk);
      ItemAdvancesCursor(i);
      PasteCellsAppend(item, rest, GridCell(i));
    }
  }

  /** With no ESC and every copy succeeding, the k-th paste lands in row k / 3,
      column k % 3 of the table, counted from the cell selected at the start. */
  lemma ReplayFillsGridRowMajor(n: nat, escape: nat -> bool, copyOk: nat -> bool)
    requires n > 0
    requires forall j: nat :: j < n ==> !escape(j) && copyOk(j)
    ensures PasteCells(ReplayTrace(n, true, escape, copyOk), Cell(0, 0)) == seq(n, k => GridCell(k))
  {
    var steps := Steps(0, n, escape, copyOk);
    StepsFillGrid(0, n, escape, copyOk);
    GridCellsIsSeq(0, n);
    PasteCellsAppend([AskConfirm], steps, Cell(0, 0));
    EndCellAppend([AskConfirm], steps, Cell(0, 0));
    PasteCellsAppend([AskConfirm] + steps, [Done], Cell(0, 0));
    assert [AskConfirm][1..] == [];
    assert [Done][1..] == [];
  }

  /** The cursor moves of a trace, in order. */
  function Moves(t: seq<Action>): seq<Action> {
    if t == [] then [] else MoveOf(t[0]) + Moves(t[1..])
  }

  function MoveOf(a: Action): seq<Action> {
    if a.Right? || a.Down? || a.Left? then [a] else []
  }

  lemma {:induction false} MovesAppend(a: seq<Action>, b: seq<Action>)
    ensures Moves(a + b) == Moves(a) + Moves(b)
  {
    if a == [] {
      assert a + b == b;
    } else {
      assert (a + b)[0] == a[0] && (a + b)[1..] == a[1..] + b;
      calc {
        Moves(a + b);
        MoveOf(a[0]) + Moves(a[1..] + b);
        { MovesAppend(a[1..], b); }
        MoveOf(a[0]) + (Moves(a[1..]) + Moves(b));
        (MoveOf(a[0]) + Moves(a[1..])) + Moves(b);
        Moves(a) + Moves(b);
      }
    }
  }

  lemma {:induction false} MovesOfMoves(t: seq<Action>)
    requires forall k :: 0 <= k < |t| ==> t[k].Right? || t[k].Down? || t[k].Left?
    ensures Moves(t) == t
  {
    if t != [] {
      MovesOfMoves(t[1..]);
      assert t == [t[0]] + t[1..];
    }
  }

  lemma MovesOfItem(i: nat)
    ensures Moves(ItemActions(i, true)) == Advance(i)
  {
    var head := [Copy(i), Paste];
    assert ItemActions(i, true) == head + Advance(i);
    assert Moves(head) == [] by {
      assert Moves([Paste]) == [] by { assert [Paste][1..] == []; }
      assert head[1..] == [Paste];
    }
    MovesOfMoves(Advance(i));
    MovesAppend(head, Advance(i));
  }

  /** The cursor moves of items lo .. hi-1 when each is pasted. */
  function Advances(lo: nat, hi: nat): seq<Action>
    decreases hi - lo
  {
    if lo >= hi then [] else Advance(lo) + Advances(lo + 1, hi)
  }

  lemma {:induction false} StepsMoves(i: nat, n: nat, escape: nat -> bool, copyOk: nat -> bool)
    requires i <= n
    requires forall j :: i <= j < n ==> !escape(j) && copyOk(j)
    ensures Moves(Steps(i, n, escape, copyOk)) == Advances(i, n)
    decreases n - i
  {
    if i < n {
      var item := ItemActions(i, true);
      var rest := Steps(i + 1, n, escape, copyOk);
      assert Steps(i, n, escape, copyOk) == item + rest;
      StepsMoves(i + 1, n, escape, copyOk);
      MovesOfItem(i);
      MovesAppend(item, rest);
    } else {
      assert Steps(i, n, escape, copyOk) == [];
    }
  }

  /** With consent and a non-empty list, the cursor moves are those of the loop. */
  lemma ReplayMoves(n: nat, escape: nat -> bool, copyOk: nat -> bool)
    requires n > 0
    ensures Moves(ReplayTrace(n, true, escape, copyOk)) == Moves(Steps(0, n, escape, copyOk))
  {
    var s0 := Steps(0, n, escape, copyOk);
    assert ReplayTrace(n, true, escape, copyOk) == [AskConfirm] + s0 + [Done];
    MovesAppend([AskConfirm], s0);
    MovesAppend([AskConfirm] + s0, [Done]);
    assert Moves([AskConfirm]) == [] by { assert [AskConfirm][1..] == []; }
    assert Moves([Done]) == [] by { assert [Done][1..] == []; }
  }

  /** Five images, no ESC, every copy succeeds: right, right, down-left-left, right, right. */
  lemma FiveItemMoves(escape: nat -> bool, copyOk: nat -> bool)
    requires forall j: nat :: j < 5 ==> !escape(j) && copyOk(j)
    ensures Moves(ReplayTrace(5, true, escape, copyOk)) ==
            [Right, Right, Down, Left, Left, Right, Right]
  {
    ReplayMoves(5, escape, copyOk);
    StepsMoves(0, 5, escape, copyOk);
    assert Advances(0, 5) == [Right, Right, Down, Left, Left, Right, Right];
  }
}
