/**
 The flat table of `diff_children`, filled in place row by row.
 */
module EditTable {
  import opened EditDistance

  /** Position of the cell for the first `i` old and the first `j` new children. */
  function Cell(width: nat, i: nat, j: nat): nat {
    j * width + i
  }

  lemma CellInside(width: nat, height: nat, i: nat, j: nat)
    requires i < width && j < height
    ensures Cell(width, i, j) < width * height
  {
    assert j * width + width == (j + 1) * width <= height * width;
  }

  lemma CellInjective(width: nat, i: nat, j: nat, i': nat, j': nat)
    requires i < width && i' < width && (i, j) != (i', j')
    ensures Cell(width, i, j) != Cell(width, i', j')
  {
    if j < j' {
      assert (j + 1) * width <= j' * width;
    } else if j' < j {
      assert (j' + 1) * width <= j * width;
    }
  }

  /** The table entry for the first `i` old and the first `j` new children. */
  function At(mat: array<nat>, width: nat, height: nat, i: nat, j: nat): nat
    requires mat.Length == width * height && i < width && j < height
    reads mat
  {
    CellInside(width, height, i, j);
    mat[Cell(width, i, j)]
  }

  method SetAt(mat: array<nat>, width: nat, height: nat, i: nat, j: nat, value: nat)
    requires mat.Length == width * height && i < width && j < height
    modifies mat
    ensures At(mat, width, height, i, j) == value
    ensures forall i': nat, j': nat | i' < width && j' < height && (i', j') != (i, j) ::
              At(mat, width, height, i', j') == old(At(mat, width, height, i', j'))
  {
    CellInside(width, height, i, j);
    mat[Cell(width, i, j)] := value;
    forall i': nat, j': nat | i' < width && j' < height && (i', j') != (i, j)
      ensures At(mat, width, height, i', j') == old(At(mat, width, height, i', j'))
    {
      CellInjective(width, i, j, i', j');
    }
  }

  /** The borders, and every cell before `(i, j)` in the filling order, hold their cost. */
  ghost predicate FilledUpTo<T>(mat: array<nat>, olds: seq<T>, news: seq<T>, i: nat, j: nat)
    reads mat
  {
    && mat.Length == (|olds| + 1) * (|news| + 1)
    && forall i': nat, j': nat
         | i' <= |olds| && j' <= |news| && (i' == 0 || j' == 0 || j' < j || (j' == j && i' < i)) ::
         At(mat, |olds| + 1, |news| + 1, i', j') == Cost(olds, news, i', j')
  }

  ghost predicate Filled<T>(mat: array<nat>, olds: seq<T>, news: seq<T>)
    reads mat
  {
    && mat.Length == (|olds| + 1) * (|news| + 1)
    && forall i: nat, j: nat | i <= |olds| && j <= |news| ::
         At(mat, |olds| + 1, |news| + 1, i, j) == Cost(olds, news, i, j)
  }

  method InitBorders(width: nat, height: nat) returns (mat: array<nat>)
    requires width > 0 && height > 0
    ensures fresh(mat) && mat.Length == width * height
    ensures forall i: nat | i < width :: At(mat, width, height, i, 0) == i
    ensures forall j: nat | j < height :: At(mat, width, height, 0, j) == j
  {
    mat := new nat[width * height](_ => 0);
    CellInside(width, height, 0, 0);
    for i := 1 to width
      invariant forall i': nat | i' < i :: At(mat, width, height, i', 0) == i'
    {
      SetAt(mat, width, height, i, 0, i);
    }
    for j := 1 to height
      invariant forall i: nat | i < width :: At(mat, width, height, i, 0) == i
      invariant forall j': nat | j' < j :: At(mat, width, height, 0, j') == j'
    {
      SetAt(mat, width, height, 0, j, j);
    }
  }

  /** The table of `diff_children`: every cell holds the cost of its two prefixes. */
  method FillTable<T(==)>(olds: seq<T>, news: seq<T>) returns (mat: array<nat>)
    ensures fresh(mat)
    ensures Filled(mat, olds, news)
  {
    var width, height := |olds| + 1, |news| + 1;
    mat := InitBorders(width, height);
    for j := 1 to height
      invariant FilledUpTo(mat, olds, news, 1, j)
    {
      for i := 1 to width
        invariant FilledUpTo(mat, olds, news, i, j)
      {
        FillCell(mat, olds, news, i, j);
      }
    }
  }

  /** One cell from its three neighbours. */
  method FillCell<T(==)>(mat: array<nat>, olds: seq<T>, news: seq<T>, i: nat, j: nat)
    requires 0 < i <= |olds| && 0 < j <= |news| && FilledUpTo(mat, olds, news, i, j)
    modifies mat
    ensures FilledUpTo(mat, olds, news, i + 1, j)
  {
    var width, height := |olds| + 1, |news| + 1;
    var value := if olds[i - 1] == news[j - 1] then
      At(mat, width, height, i - 1, j - 1)
    else
      Min(Min(At(mat, width, height, i, j - 1) + 1, At(mat, width, height, i - 1, j) + 1),
          At(mat, width, height, i - 1, j - 1) + 1);
    assert value == Cost(olds, news, i, j);
    SetAt(mat, width, height, i, j, value);
  }
}
