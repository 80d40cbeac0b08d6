/**
 * The missing-value helpers of the backend: the NaN mask of a column and
 * the fraction of true entries in a boolean column.
 */
module Calculations {
  import opened Wrappers
  import opened DataFrame

  // ----- check_missing_values -----

  /** Whether some cell is NaN (`iter().any(is_nan)`). */
  function AnyNaN(column: seq<Cell>): bool
    decreases |column|
  {
    column != [] && (CellIsNaN(column[0]) || AnyNaN(column[1..]))
  }

  /** The element-wise NaN test (`iter().map(is_nan)`). */
  function NaNMask(column: seq<Cell>): seq<bool>
    decreases |column|
  {
    if column == [] then [] else [CellIsNaN(column[0])] + NaNMask(column[1..])
  }

  lemma {:induction false} AnyNaNExists(column: seq<Cell>)
    ensures AnyNaN(column) <==> exists i :: 0 <= i < |column| && CellIsNaN(column[i])
    decreases |column|
  {
    if column != [] {
      AnyNaNExists(column[1..]);
      if AnyNaN(column[1..]) {
        var i :| 0 <= i < |column[1..]| && CellIsNaN(column[1..][i]);
        assert CellIsNaN(column[i + 1]);
      }
      if exists i :: 0 <= i < |column| && CellIsNaN(column[i]) {
        var i :| 0 <= i < |column| && CellIsNaN(column[i]);
        if i > 0 {
          assert CellIsNaN(column[1..][i - 1]);
        }
      }
    }
  }

  lemma {:induction false} NaNMaskAt(column: seq<Cell>)
    ensures |NaNMask(column)| == |column|
    ensures forall i :: 0 <= i < |column| ==> NaNMask(column)[i] == CellIsNaN(column[i])
    decreases |column|
  {
    if column != [] {
      NaNMaskAt(column[1..]);
      forall i | 1 <= i < |column| ensures NaNMask(column)[i] == CellIsNaN(column[i]) {
        assert column[1..][i - 1] == column[i];
      }
    }
  }

  /**
   * `check_missing_values`: nothing when no cell is NaN, and otherwise the
   * mask saying, cell by cell, whether it is NaN.
   */
  function CheckMissingValues(column: seq<Cell>): (r: Option<seq<bool>>)
    ensures r.None? <==> forall i :: 0 <= i < |column| ==> !CellIsNaN(column[i])
    ensures r.Some? ==> |r.value| == |column| && forall i :: 0 <= i < |column| ==> r.value[i] == CellIsNaN(column[i])
  {
    AnyNaNExists(column);
    NaNMaskAt(column);
    if AnyNaN(column) then Some(NaNMask(column)) else None
  }

  // ----- missing_percentage -----

  /** The sum of a boolean column cast to `u32`: true counts 1, false 0, and a null is skipped. */
  function CountTrue(column: seq<Option<bool>>): nat
    decreases |column|
  {
    if column == [] then 0 else (if column[0] == Some(true) then 1 else 0) + CountTrue(column[1..])
  }

  /** The count never exceeds the length; it is the length exactly when every entry is true, and 0 when none is. */
  lemma {:induction false} CountTrueBounds(column: seq<Option<bool>>)
    ensures CountTrue(column) <= |column|
    ensures CountTrue(column) == |column| <==> forall i :: 0 <= i < |column| ==> column[i] == Some(true)
    ensures CountTrue(column) == 0 <==> forall i :: 0 <= i < |column| ==> column[i] != Some(true)
    decreases |column|
  {
    if column != [] {
      var tail := column[1..];
      CountTrueBounds(tail);
      assert forall i :: 1 <= i < |column| ==> column[i] == tail[i - 1];
    }
  }

  /**
   * `missing_percentage`: the number of true entries divided by the
   * length, and 0 for an empty column; a fraction, not a percentage.
   */
  function MissingPercentage(column: seq<Option<bool>>): (r: real)
    ensures 0.0 <= r <= 1.0
    ensures column == [] ==> r == 0.0
    ensures column != [] ==> r * (|column| as real) == CountTrue(column) as real
  {
    CountTrueBounds(column);
    var missingCount := CountTrue(column) as real;
    var total := |column| as real;
    if total == 0.0 then 0.0
    else
      Fraction(missingCount, total);
      missingCount / total
  }

  /** A count over a larger positive total is a fraction in [0, 1] that, times the total, gives the count back. */
  lemma Fraction(count: real, total: real)
    requires 0.0 <= count <= total && total > 0.0
    ensures 0.0 <= count / total <= 1.0 && (count / total) * total == count
  {
    var r := count / total;
    assert r * total == count;
    Scale(r, total);
  }

  /** Scaling by a positive total keeps the sign and moves a value above 1 above the total. */
  lemma Scale(r: real, total: real)
    requires total > 0.0
    ensures r < 0.0 ==> r * total < 0.0
    ensures r > 1.0 ==> r * total > total
  {
    if r < 0.0 {
      assert r * total < 0.0;
    }
    if r > 1.0 {
      assert (r - 1.0) * total > 0.0;
    }
  }

  /** The mask as the boolean column `missing_percentage` reads: no nulls. */
  function MaskColumn(mask: seq<bool>): (r: seq<Option<bool>>)
    ensures |r| == |mask| && forall i :: 0 <= i < |mask| ==> r[i] == Some(mask[i])
  {
    seq(|mask|, i requires 0 <= i < |mask| => Some(mask[i]))
  }

  /** How many cells are NaN, counted directly on the column. */
  function CountNaN(column: seq<Cell>): nat
    decreases |column|
  {
    if column == [] then 0 else (if CellIsNaN(column[0]) then 1 else 0) + CountNaN(column[1..])
  }

  lemma {:induction false} CountMask(column: seq<Cell>)
    ensures CountTrue(MaskColumn(NaNMask(column))) == CountNaN(column)
    decreases |column|
  {
    if column != [] {
      CountMask(column[1..]);
      NaNMaskAt(column);
      NaNMaskAt(column[1..]);
      var m := MaskColumn(NaNMask(column));
      assert m[1..] == MaskColumn(NaNMask(column[1..]));
    }
  }

  /**
   * The two helpers together: the mask of a column has one entry per cell
   * and as many true entries as there are NaN cells, so its missing
   * fraction is the NaN count over the cell count, and it is positive.
   */
  lemma MaskPercentage(column: seq<Cell>)
    requires CheckMissingValues(column).Some?
    ensures var mask := MaskColumn(CheckMissingValues(column).value);
      |mask| == |column| && CountTrue(mask) == CountNaN(column) && MissingPercentage(mask) > 0.0
  {
    NaNMaskAt(column);
    assert CheckMissingValues(column) == Some(NaNMask(column));
    var m := MaskColumn(NaNMask(column));
    var i :| 0 <= i < |column| && CellIsNaN(column[i]);
    assert m[i] == Some(true);
    CountMask(column);
    SomeTruePositive(m, i);
  }

  /** One true entry makes the fraction positive. */
  lemma SomeTruePositive(column: seq<Option<bool>>, i: nat)
    requires i < |column| && column[i] == Some(true)
    ensures MissingPercentage(column) > 0.0
  {
    CountTrueBounds(column);
    Ratio(CountTrue(column) as real, |column| as real, MissingPercentage(column));
  }

  /** A ratio `r = c / n` with `n > 0`: 1 exactly when `c = n`, 0 exactly when `c = 0`, positive when `c` is. */
  lemma Ratio(c: real, n: real, r: real)
    requires n > 0.0 && r * n == c
    ensures r == 1.0 <==> c == n
    ensures r == 0.0 <==> c == 0.0
    ensures c > 0.0 ==> r > 0.0
  {
    if r < 0.0 {
      assert r * n < 0.0;
    }
    if r > 0.0 && r != 1.0 {
      assert r * n != 1.0 * n;
    }
  }

  /** All-NaN columns give 1, columns with a NaN give more than 0. */
  lemma PercentageExtremes(column: seq<Option<bool>>)
    requires column != []
    ensures MissingPercentage(column) == 1.0 <==> forall i :: 0 <= i < |column| ==> column[i] == Some(true)
    ensures MissingPercentage(column) == 0.0 <==> forall i :: 0 <= i < |column| ==> column[i] != Some(true)
  {
    CountTrueBounds(column);
    Ratio(CountTrue(column) as real, |column| as real, MissingPercentage(column));
  }
}
