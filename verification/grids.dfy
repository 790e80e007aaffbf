/** Rectangular two-dimensional arrays as sequences of rows, the shape
    every numpy array in the model has. */
module Grids {

  /** One pixel with a red, green and blue plane (index 0, 1, 2). */
  datatype Rgb<T> = Rgb(r: T, g: T, b: T) {
    function At(k: nat): T
      requires k < 3
    {
      if k == 0 then r else if k == 1 then g else b
    }
  }

  /** `g` has exactly `rows` rows of exactly `cols` entries. */
  predicate IsGrid<T>(g: seq<seq<T>>, rows: nat, cols: nat) {
    |g| == rows && forall r :: 0 <= r < rows ==> |g[r]| == cols
  }

  /** Row-major concatenation of the rows, as `ndarray.tobytes()` lays them out. */
  function Flatten<T>(g: seq<seq<T>>): seq<T> {
    if |g| == 0 then [] else g[0] + Flatten(g[1..])
  }

  /** `g[:rows, :cols]` for a grid at least that large. */
  function Crop<T>(g: seq<seq<T>>, rows: nat, cols: nat): (r: seq<seq<T>>)
    requires |g| >= rows && forall i :: 0 <= i < rows ==> |g[i]| >= cols
    ensures IsGrid(r, rows, cols)
    ensures forall i, j :: 0 <= i < rows && 0 <= j < cols ==> r[i][j] == g[i][j]
  {
    seq(rows, i requires 0 <= i < rows => g[i][..cols])
  }

  lemma MulStep(r: nat, cols: nat, c: nat)
    requires c < cols
    ensures r * cols + c < (r + 1) * cols
  {
  }

  /** Index arithmetic: row r, column c of a grid sits at r*cols + c. */
  lemma IndexInRange(r: nat, c: nat, rows: nat, cols: nat)
    requires r < rows && c < cols
    ensures r * cols + c < rows * cols
  {
    MulStep(r, cols, c);
    assert (r + 1) * cols <= rows * cols;
  }

  lemma {:induction false} FlattenLength<T>(g: seq<seq<T>>, rows: nat, cols: nat)
    requires IsGrid(g, rows, cols)
    ensures |Flatten(g)| == rows * cols
  {
    if rows > 0 {
      assert IsGrid(g[1..], rows - 1, cols);
      FlattenLength(g[1..], rows - 1, cols);
    }
  }

  lemma RowShift(r: nat, cols: nat, c: nat)
    requires r > 0
    ensures r * cols + c == cols + ((r - 1) * cols + c)
  {
  }

  /** Entry `(r, c)` of a grid is entry `r * cols + c` of its flattening. */
  lemma {:induction false} FlattenAt<T>(g: seq<seq<T>>, rows: nat, cols: nat, r: nat, c: nat)
    requires IsGrid(g, rows, cols) && r < rows && c < cols
    ensures r * cols + c < rows * cols == |Flatten(g)|
    ensures Flatten(g)[r * cols + c] == g[r][c]
  {
    FlattenLength(g, rows, cols);
    IndexInRange(r, c, rows, cols);
    var i := r * cols + c;
    assert Flatten(g) == g[0] + Flatten(g[1..]);
    if r == 0 {
      assert i == c;
    } else {
      var tail := g[1..];
      assert IsGrid(tail, rows - 1, cols);
      FlattenAt(tail, rows - 1, cols, r - 1, c);
      RowShift(r, cols, c);
      assert i == |g[0]| + ((r - 1) * cols + c);
    }
  }
}
