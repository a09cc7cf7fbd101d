/** Bit matrices (argumatrix::bitmatrix): a vector of equally long bit-vector
    rows. In an attack matrix row i holds the attackers of argument i. */
module Bitmatrix {
  import opened Bitvector

  type Rows = seq<Bitvec>

  /** r rows, each of length c. */
  predicate IsShaped(m: Rows, r: nat, c: nat)
  {
    |m| == r && forall i :: 0 <= i < |m| ==> |m[i]| == c
  }

  predicate IsSquare(m: Rows)
  {
    IsShaped(m, |m|, |m|)
  }

  /** Matrix times vector: bit i is set iff row i intersects v. */
  function Product(m: Rows, v: Bitvec): (r: Bitvec)
    requires forall i :: 0 <= i < |m| ==> |m[i]| == |v|
    ensures |r| == |m|
    ensures forall i {:trigger r[i]} :: 0 <= i < |m| ==> (r[i] <==> exists j :: 0 <= j < |v| && m[i][j] && v[j])
  {
    seq(|m|, i requires 0 <= i < |m| => Intersects(m[i], v))
  }

  /** The transpose of an r x c matrix: c rows of length r. */
  function Transposed(m: Rows, c: nat): (t: Rows)
    requires IsShaped(m, |m|, c)
    ensures IsShaped(t, c, |m|)
  {
    seq(c, i requires 0 <= i < c => seq(|m|, j requires 0 <= j < |m| => m[j][i]))
  }

  /** Transposing twice gives the matrix back. */
  lemma TransposeInvolutive(m: Rows, c: nat)
    requires IsShaped(m, |m|, c)
    ensures Transposed(Transposed(m, c), |m|) == m
  {
    var t := Transposed(Transposed(m, c), |m|);
    forall i | 0 <= i < |m|
      ensures t[i] == m[i]
    {
      assert |t[i]| == |m[i]|;
    }
  }

  class BitMatrix {
    var rows: Rows
    var nRow: nat
    var nCol: nat

    ghost predicate Valid()
      reads this
    {
      IsShaped(rows, nRow, nCol)
    }

    /** The default constructor: no rows, no columns. */
    constructor Empty()
      ensures Valid() && nRow == 0 && nCol == 0
    {
      rows, nRow, nCol := [], 0, 0;
    }

    /** `bitmatrix(num_rows, num_columns)`: every bit false. */
    constructor (r: nat, c: nat)
      ensures Valid() && nRow == r && nCol == c
      ensures forall i :: 0 <= i < r ==> IsEmptySet(rows[i])
    {
      var data: Rows := [];
      for i := 0 to r
        invariant IsShaped(data, i, c)
        invariant forall k :: 0 <= k < i ==> IsEmptySet(data[k])
      {
        data := data + [EmptySet(c)];
      }
      rows, nRow, nCol := data, r, c;
    }

    /** `bitmatrix(num_size)`: the n x n zero matrix. */
    constructor Square(n: nat)
      ensures Valid() && nRow == n && nCol == n && IsSquare(rows)
      ensures forall i :: 0 <= i < n ==> IsEmptySet(rows[i])
    {
      var data: Rows := [];
      for i := 0 to n
        invariant IsShaped(data, i, n)
        invariant forall k :: 0 <= k < i ==> IsEmptySet(data[k])
      {
        data := data + [EmptySet(n)];
      }
      rows, nRow, nCol := data, n, n;
    }

    /** `bm[i][j] = b` through the row reference returned by operator[]. */
    method SetBit(i: nat, j: nat, b: bool)
      requires Valid() && i < nRow && j < nCol
      modifies this
      ensures Valid() && nRow == old(nRow) && nCol == old(nCol)
      ensures rows == old(rows)[i := old(rows)[i][j := b]]
    {
      rows := rows[i := rows[i][j := b]];
    }

    /** `operator*(bitvector)`: the loop runs over the first nCol rows, so the
        matrix needs at least as many rows as columns; for a square matrix the
        result is the attack propagation Product. */
    method MulVec(v: Bitvec) returns (r: Bitvec)
      requires Valid() && |v| == nCol && nCol <= nRow
      ensures |r| == |v|
      ensures forall i :: 0 <= i < |v| ==> (r[i] <==> exists j :: 0 <= j < |v| && rows[i][j] && v[j])
      ensures nRow == nCol ==> r == Product(rows, v)
    {
      r := EmptySet(|v|);
      for i := 0 to nCol
        invariant |r| == |v|
        invariant forall k :: 0 <= k < i ==> r[k] == Intersects(rows[k], v)
      {
        r := r[i := Intersects(rows[i], v)];
      }
    }

    /** `transpose()`: both dimensions must be positive (the assertions). */
    method Transpose() returns (t: BitMatrix)
      requires Valid() && nRow > 0 && nCol > 0
      ensures fresh(t) && t.Valid() && t.nRow == nCol && t.nCol == nRow
      ensures t.rows == Transposed(rows, nCol)
    {
      t := new BitMatrix(nCol, nRow);
      for i := 0 to nCol
        invariant t.Valid() && t.nRow == nCol && t.nCol == nRow
        invariant forall a, b :: 0 <= a < i && 0 <= b < nRow ==> t.rows[a][b] == rows[b][a]
      {
        for j := 0 to nRow
          invariant t.Valid() && t.nRow == nCol && t.nCol == nRow
          invariant forall a, b :: 0 <= a < i && 0 <= b < nRow ==> t.rows[a][b] == rows[b][a]
          invariant forall b :: 0 <= b < j ==> t.rows[i][b] == rows[b][i]
        {
          t.SetBit(i, j, rows[j][i]);
        }
      }
      forall a | 0 <= a < nCol
        ensures t.rows[a] == Transposed(rows, nCol)[a]
      {
      }
    }

    /** `operator*(bitmatrix)`: entry [i][j] is set iff row i of this matrix
        meets column j of the other. The other matrix is transposed first, so
        both of its dimensions must be positive. */
    method MulMat(o: BitMatrix) returns (p: BitMatrix)
      requires Valid() && o.Valid() && nCol == o.nRow && o.nRow > 0 && o.nCol > 0
      ensures fresh(p) && p.Valid() && p.nRow == nRow && p.nCol == o.nCol
      ensures forall i, j :: 0 <= i < nRow && 0 <= j < o.nCol ==>
        (p.rows[i][j] <==> exists k :: 0 <= k < nCol && rows[i][k] && o.rows[k][j])
    {
      p := new BitMatrix(nRow, o.nCol);
      var t := o.Transpose();
      for i := 0 to nRow
        invariant p.Valid() && p.nRow == nRow && p.nCol == o.nCol && p != t
        invariant t.Valid() && t.nRow == o.nCol && t.nCol == nCol && t.rows == Transposed(o.rows, o.nCol)
        invariant forall a, b :: 0 <= a < i && 0 <= b < o.nCol ==> p.rows[a][b] == Intersects(rows[a], t.rows[b])
      {
        for j := 0 to t.nRow
          invariant p.Valid() && p.nRow == nRow && p.nCol == o.nCol && p != t
          invariant t.Valid() && t.nRow == o.nCol && t.nCol == nCol && t.rows == Transposed(o.rows, o.nCol)
          invariant forall a, b :: 0 <= a < i && 0 <= b < o.nCol ==> p.rows[a][b] == Intersects(rows[a], t.rows[b])
          invariant forall b :: 0 <= b < j ==> p.rows[i][b] == Intersects(rows[i], t.rows[b])
        {
          p.SetBit(i, j, Intersects(rows[i], t.rows[j]));
        }
      }
      forall i, j | 0 <= i < nRow && 0 <= j < o.nCol
        ensures p.rows[i][j] <==> exists k :: 0 <= k < nCol && rows[i][k] && o.rows[k][j]
      {
        assert forall k :: 0 <= k < nCol ==> t.rows[j][k] == o.rows[k][j];
      }
    }

    /** `setBitvector(bv, pos)`: replaces row pos; every other row is kept. */
    method SetBitvector(v: Bitvec, pos: nat)
      requires Valid() && pos < nRow && |v| == nCol
      modifies this
      ensures Valid() && nRow == old(nRow) && nCol == old(nCol)
      ensures rows == old(rows)[pos := v]
    {
      rows := rows[pos := v];
    }

    /** `getBitvector(pos)`: a copy of row pos. */
    method GetBitvector(pos: nat) returns (v: Bitvec)
      requires Valid() && pos < nRow
      ensures |v| == nCol && v == rows[pos]
    {
      v := rows[pos];
    }

    /** `push_back(bv)`: bv must be non-empty; the first row fixes the number
        of columns, later rows must match it. */
    method PushBack(v: Bitvec)
      requires Valid() && |v| > 0 && (nRow == 0 || |v| == nCol)
      modifies this
      ensures Valid() && nRow == old(nRow) + 1 && nCol == |v|
      ensures rows == old(rows) + [v]
    {
      if nRow == 0 {
        nCol := |v|;
      }
      rows := rows + [v];
      nRow := nRow + 1;
    }

    /** `diag()`: the diagonal, as long as the shorter dimension. */
    method Diag() returns (d: Bitvec)
      requires Valid()
      ensures |d| == if nRow < nCol then nRow else nCol
      ensures forall i :: 0 <= i < |d| ==> d[i] == rows[i][i]
    {
      var size := if nRow < nCol then nRow else nCol;
      d := EmptySet(size);
      for i := 0 to size
        invariant |d| == size
        invariant forall k :: 0 <= k < i ==> d[k] == rows[k][k]
      {
        d := d[i := rows[i][i]];
      }
    }
  }
}
