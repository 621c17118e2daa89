/**
 * The type score of a parsed table (`type_score`, ccsv/detect_type.py:299-325)
 * and the per-cell generator `gen_known_type` (ccsv/detect_type.py:289-296).
 * Both build a detector with the default settings, so cells are stripped of
 * spaces before they are classified.
 */
module Scoring {
  import Text
  import CellTypes
  import Detector

  /** DEFAULT_EPS_TYPE = 1e-10: the smallest score a table can get. */
  const DefaultEps: real := 0.0000000001

  /** The number of cells in the table. */
  function CellCount(rows: seq<seq<string>>): nat
  {
    if rows == [] then 0 else CellCount(rows[..|rows| - 1]) + |rows[|rows| - 1]|
  }

  /** Whether a cell counts as typed: `is_known_type` of a detector that
      strips spaces. */
  predicate Known(cell: string)
  {
    CellTypes.IsKnown(true, cell)
  }

  /** The answers of a cell test `test` for the cells, in order; with
      `Known` as the test, what gen_known_type yields. */
  function Flags(cells: seq<string>, test: string -> bool): (flags: seq<bool>)
    ensures |flags| == |cells|
  {
    if cells == [] then [] else Flags(cells[..|cells| - 1], test) + [test(cells[|cells| - 1])]
  }

  /** The number of `true` entries. */
  function CountTrue(flags: seq<bool>): nat
  {
    if flags == [] then 0 else CountTrue(flags[..|flags| - 1]) + (if flags[|flags| - 1] then 1 else 0)
  }

  /** The number of cells of the table that pass `test`, added up row by
      row. */
  function PassCount(rows: seq<seq<string>>, test: string -> bool): nat
  {
    if rows == [] then 0 else PassCount(rows[..|rows| - 1], test) + CountTrue(Flags(rows[|rows| - 1], test))
  }

  function Max(a: real, b: real): real
  {
    if a >= b then a else b
  }

  /** The score of a table under a cell test: `eps` for a table without
      cells, otherwise the share of cells that pass, but never less than
      `eps`. */
  function Ratio(rows: seq<seq<string>>, eps: real, test: string -> bool): real
  {
    var total := CellCount(rows);
    if total == 0 then eps else Max(eps, PassCount(rows, test) as real / total as real)
  }

  /** type_score: the score under `is_known_type`. */
  function Score(rows: seq<seq<string>>, eps: real): real
  {
    Ratio(rows, eps, Known)
  }

  /** type_score over rows already split into cells: counts every cell and
      every cell of a known type, row by row. */
  method TypeScore(rows: seq<seq<string>>, eps: real) returns (score: real)
    ensures score == Score(rows, eps)
  {
    var total := 0;
    var known := 0;
    var td := new Detector.TypeDetector(true);
    for r := 0 to |rows|
      invariant td.Valid() && td.stripWhitespace
      invariant total == CellCount(rows[..r]) && known == PassCount(rows[..r], Known)
    {
      var row := rows[r];
      for c := 0 to |row|
        invariant td.Valid() && td.stripWhitespace
        invariant total == CellCount(rows[..r]) + c
        invariant known == PassCount(rows[..r], Known) + CountTrue(Flags(row[..c], Known))
      {
        total := total + 1;
        var isKnown := td.IsKnownType(row[c]);
        FlagsSnoc(row, c, Known);
        CountTrueSnoc(Flags(row[..c], Known), isKnown);
        if isKnown {
          known := known + 1;
        }
      }
      assert row[..|row|] == row;
      assert rows[..r + 1][..r] == rows[..r];
    }
    assert rows[..|rows|] == rows;
    if total == 0 {
      return eps;
    }
    score := Max(eps, known as real / total as real);
  }

  /** gen_known_type: whether each cell has a known type, in order. */
  method GenKnownType(cells: seq<string>) returns (known: seq<bool>)
    ensures known == Flags(cells, Known)
  {
    var td := new Detector.TypeDetector(true);
    known := [];
    for i := 0 to |cells|
      invariant td.Valid() && td.stripWhitespace
      invariant known == Flags(cells[..i], Known)
    {
      var isKnown := td.IsKnownType(cells[i]);
      FlagsSnoc(cells, i, Known);
      known := known + [isKnown];
    }
    assert cells[..|cells|] == cells;
  }

  lemma FlagsSnoc(cells: seq<string>, i: nat, test: string -> bool)
    requires i < |cells|
    ensures Flags(cells[..i + 1], test) == Flags(cells[..i], test) + [test(cells[i])]
  {
    assert cells[..i + 1][..i] == cells[..i];
  }

  lemma CountTrueSnoc(flags: seq<bool>, b: bool)
    ensures CountTrue(flags + [b]) == CountTrue(flags) + (if b then 1 else 0)
  {
    assert (flags + [b])[..|flags|] == flags;
  }

  /** Entry `i` of the flags is the test's answer for cell `i`. */
  lemma {:induction false} FlagsAt(cells: seq<string>, test: string -> bool, i: nat)
    requires i < |cells|
    ensures Flags(cells, test)[i] == test(cells[i])
  {
    var n := |cells| - 1;
    if i < n {
      FlagsAt(cells[..n], test, i);
      assert cells[..n][i] == cells[i];
    }
  }

  /** At most every flag is set; all are exactly when the count is the
      length, none exactly when it is zero. */
  lemma {:induction false} CountTrueBounds(flags: seq<bool>)
    ensures CountTrue(flags) <= |flags|
    ensures CountTrue(flags) == |flags| <==> forall i | 0 <= i < |flags| :: flags[i]
    ensures CountTrue(flags) == 0 <==> forall i | 0 <= i < |flags| :: !flags[i]
  {
    if flags != [] {
      var n := |flags| - 1;
      var init := flags[..n];
      CountTrueBounds(init);
      assert forall i | 0 <= i < n :: init[i] == flags[i];
    }
  }

  /** No more cells pass than there are cells. */
  lemma {:induction false} PassAtMostCells(rows: seq<seq<string>>, test: string -> bool)
    ensures PassCount(rows, test) <= CellCount(rows)
  {
    if rows != [] {
      PassAtMostCells(rows[..|rows| - 1], test);
      CountTrueBounds(Flags(rows[|rows| - 1], test));
    }
  }

  lemma RatioAtMostOne(k: nat, t: nat)
    requires k <= t && t > 0
    ensures k as real / t as real <= 1.0
  {
  }

  /** The score lies between `eps` and 1 whenever `eps` does. */
  lemma RatioBounds(rows: seq<seq<string>>, eps: real, test: string -> bool)
    ensures eps <= Ratio(rows, eps, test)
    ensures eps <= 1.0 ==> Ratio(rows, eps, test) <= 1.0
  {
    if CellCount(rows) > 0 {
      PassAtMostCells(rows, test);
      RatioAtMostOne(PassCount(rows, test), CellCount(rows));
    }
  }

  /** With the default `eps` of `type_score`, the score of any table lies
      between 1e-10 and 1. */
  lemma DefaultScoreBounds(rows: seq<seq<string>>)
    ensures DefaultEps <= Score(rows, DefaultEps) <= 1.0
  {
    RatioBounds(rows, DefaultEps, Known);
  }

  /** A row whose cells all pass counts every cell; one none of whose cells
      pass counts none. */
  lemma RowExtremes(row: seq<string>, test: string -> bool)
    ensures (forall c | 0 <= c < |row| :: test(row[c])) ==> CountTrue(Flags(row, test)) == |row|
    ensures (forall c | 0 <= c < |row| :: !test(row[c])) ==> CountTrue(Flags(row, test)) == 0
  {
    var flags := Flags(row, test);
    forall c | 0 <= c < |row| ensures flags[c] == test(row[c]) {
      FlagsAt(row, test, c);
    }
    CountTrueBounds(flags);
  }

  /** When every cell passes, all of them are counted. */
  lemma {:induction false} AllPassCount(rows: seq<seq<string>>, test: string -> bool)
    requires forall r, c | 0 <= r < |rows| && 0 <= c < |rows[r]| :: test(rows[r][c])
    ensures PassCount(rows, test) == CellCount(rows)
  {
    if rows != [] {
      AllPassCount(rows[..|rows| - 1], test);
      RowExtremes(rows[|rows| - 1], test);
    }
  }

  /** When no cell passes, none is counted. */
  lemma {:induction false} NonePassCount(rows: seq<seq<string>>, test: string -> bool)
    requires forall r, c | 0 <= r < |rows| && 0 <= c < |rows[r]| :: !test(rows[r][c])
    ensures PassCount(rows, test) == 0
  {
    if rows != [] {
      NonePassCount(rows[..|rows| - 1], test);
      RowExtremes(rows[|rows| - 1], test);
    }
  }

  /** A table whose cells all pass scores 1, or `eps` if that is larger. */
  lemma AllPassRatio(rows: seq<seq<string>>, eps: real, test: string -> bool)
    requires CellCount(rows) > 0
    requires forall r, c | 0 <= r < |rows| && 0 <= c < |rows[r]| :: test(rows[r][c])
    ensures Ratio(rows, eps, test) == Max(eps, 1.0)
  {
    AllPassCount(rows, test);
    RatioOfWhole(CellCount(rows));
  }

  lemma RatioOfWhole(t: nat)
    requires t > 0
    ensures t as real / t as real == 1.0
  {
  }

  /** A table none of whose cells pass scores `eps` when `eps` is not
      negative. */
  lemma NonePassRatio(rows: seq<seq<string>>, eps: real, test: string -> bool)
    requires CellCount(rows) > 0
    requires forall r, c | 0 <= r < |rows| && 0 <= c < |rows[r]| :: !test(rows[r][c])
    ensures Ratio(rows, eps, test) == Max(eps, 0.0)
  {
    NonePassCount(rows, test);
  }

  /** Empty cells are of a known type (empty), so a table of empty cells
      scores 1 for any `eps` up to 1. */
  lemma EmptyCellsScoreOne(rows: seq<seq<string>>, eps: real)
    requires CellCount(rows) > 0 && eps <= 1.0
    requires forall r, c | 0 <= r < |rows| && 0 <= c < |rows[r]| :: rows[r][c] == ""
    ensures Score(rows, eps) == 1.0
  {
    assert Known("") by { assert CellTypes.Detect(true, "") == Text.Some(CellTypes.Empty); }
    AllPassRatio(rows, eps, Known);
  }
}
