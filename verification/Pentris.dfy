/** Counting the occupied squares of a pit given as rows of flags. */
module Pits {
  import opened Sequences

  type Row = seq<bool>

  ghost function Ones(r: Row): nat {
    if r == [] then 0 else Ones(r[..|r| - 1]) + if r[|r| - 1] then 1 else 0
  }

  ghost function Occupied(rows: seq<Row>): nat {
    if rows == [] then 0 else Occupied(rows[..|rows| - 1]) + Ones(rows[|rows| - 1])
  }

  ghost function Blank(columns: nat): Row {
    seq(columns, _ => false)
  }

  ghost predicate Full(r: Row) {
    forall j :: 0 <= j < |r| ==> r[j]
  }

  ghost const NOT_FULL := (r: Row) => !Full(r)

  ghost predicate Wide(rows: seq<Row>, columns: nat) {
    forall k :: 0 <= k < |rows| ==> |rows[k]| == columns
  }

  /** The rows that are not full, moved down, and blank rows above them. */
  ghost function Crunched(rows: seq<Row>, columns: nat): (r: seq<Row>)
    ensures |r| == |rows|
  {
    FilterLength(rows, NOT_FULL);
    Filter(rows, NOT_FULL) + seq(|rows| - |Filter(rows, NOT_FULL)|, _ => Blank(columns))
  }

  lemma {:induction false} OnesFull(r: Row)
    ensures Ones(r) <= |r| && (Full(r) <==> Ones(r) == |r|)
    decreases |r|
  {
    if r == [] {
    } else {
      var front := r[..|r| - 1];
      OnesFull(front);
      if Full(front) && r[|r| - 1] {
        assert forall j :: 0 <= j < |r| - 1 ==> r[j] == front[j];
      }
      if Full(r) {
        assert forall j :: 0 <= j < |front| ==> front[j] == r[j];
      }
    }
  }

  lemma {:induction false} OnesBlank(columns: nat)
    ensures Ones(Blank(columns)) == 0
    decreases columns
  {
    if columns == 0 {
    } else {
      assert Blank(columns)[..columns - 1] == Blank(columns - 1);
      OnesBlank(columns - 1);
    }
  }

  lemma {:induction false} OnesUpdate(r: Row, j: nat)
    requires j < |r| && !r[j]
    ensures Ones(r[j := true]) == Ones(r) + 1
    decreases |r|
  {
    var front := r[..|r| - 1];
    if j < |r| - 1 {
      OnesUpdate(front, j);
      assert r[j := true][..|r| - 1] == front[j := true];
    } else {
      assert r[j := true][..|r| - 1] == front;
    }
  }

  lemma {:induction false} OccupiedUpdate(rows: seq<Row>, i: nat, r: Row)
    requires i < |rows|
    ensures Occupied(rows[i := r]) == Occupied(rows) - Ones(rows[i]) + Ones(r)
    decreases |rows|
  {
    var front := rows[..|rows| - 1];
    if i < |rows| - 1 {
      OccupiedUpdate(front, i, r);
      assert rows[i := r][..|rows| - 1] == front[i := r];
    } else {
      assert rows[i := r][..|rows| - 1] == front;
    }
  }

  lemma {:induction false} OccupiedBlank(rows: seq<Row>, n: nat, columns: nat)
    ensures Occupied(rows + seq(n, _ => Blank(columns))) == Occupied(rows)
    decreases n
  {
    var all := rows + seq(n, _ => Blank(columns));
    if n > 0 {
      OccupiedBlank(rows, n - 1, columns);
      OnesBlank(columns);
      assert all[..|all| - 1] == rows + seq(n - 1, _ => Blank(columns));
    } else {
      assert all == rows;
    }
  }

  lemma MulNext(c: int, n: int)
    ensures c * (n + 1) == c * n + c
  {}

  lemma {:induction false} OccupiedKept(rows: seq<Row>, columns: nat)
    requires Wide(rows, columns)
    ensures Occupied(Filter(rows, NOT_FULL)) + columns * (|rows| - |Filter(rows, NOT_FULL)|) == Occupied(rows)
    decreases |rows|
  {
    if rows == [] {
    } else {
      var front, last := rows[..|rows| - 1], rows[|rows| - 1];
      OccupiedKept(front, columns);
      OnesFull(last);
      var n := |front| - |Filter(front, NOT_FULL)|;
      if NOT_FULL(last) {
        assert Filter(rows, NOT_FULL)[..|Filter(front, NOT_FULL)|] == Filter(front, NOT_FULL);
      } else {
        assert Filter(rows, NOT_FULL) == Filter(front, NOT_FULL) && Ones(last) == columns;
        MulNext(columns, n);
      }
    }
  }

  /** Crunching takes away exactly the squares of the full rows, and leaves no full row. */
  lemma CrunchedCount(rows: seq<Row>, columns: nat)
    requires Wide(rows, columns) && columns > 0
    ensures Occupied(Crunched(rows, columns)) + columns * (|rows| - |Filter(rows, NOT_FULL)|) == Occupied(rows)
    ensures Wide(Crunched(rows, columns), columns) && forall k :: 0 <= k < |rows| ==> !Full(Crunched(rows, columns)[k])
  {
    OccupiedKept(rows, columns);
    FilterLength(rows, NOT_FULL);
    OccupiedBlank(Filter(rows, NOT_FULL), |rows| - |Filter(rows, NOT_FULL)|, columns);
    forall k | 0 <= k < |rows| ensures |Crunched(rows, columns)[k]| == columns && !Full(Crunched(rows, columns)[k]) {
      if k < |Filter(rows, NOT_FULL)| {
        FilterMember(rows, NOT_FULL, k);
      } else {
        assert !Blank(columns)[0];
      }
    }
  }

  /** How many of the rows below the k-th are full. */
  ghost function FullBelow(rows: seq<Row>, k: nat): nat
    requires k <= |rows|
  {
    if k == 0 then 0 else FullBelow(rows, k - 1) + if Full(rows[k - 1]) then 1 else 0
  }

  lemma {:induction false} KeptBelow(rows: seq<Row>, k: nat)
    requires k <= |rows|
    ensures |Filter(rows[..k], NOT_FULL)| == k - FullBelow(rows, k)
    decreases k
  {
    if k == 0 {
      assert rows[..0] == [];
    } else {
      KeptBelow(rows, k - 1);
      FilterNext(rows, k - 1, NOT_FULL);
    }
  }

  /** Crunching, row by row: a row that is not full falls by as many rows as there were full ones below it, and the
    * rows that come free at the top are blank. */
  lemma CrunchedRow(rows: seq<Row>, columns: nat, k: nat)
    requires k < |rows|
    ensures !Full(rows[k]) ==> 0 <= k - FullBelow(rows, k) && Crunched(rows, columns)[k - FullBelow(rows, k)] == rows[k]
    ensures k >= |rows| - FullBelow(rows, |rows|) ==> Crunched(rows, columns)[k] == Blank(columns)
  {
    KeptBelow(rows, k);
    FilterNext(rows, k, NOT_FULL);
    KeptBelow(rows, |rows|);
    assert rows[..|rows|] == rows;
    FilterLength(rows, NOT_FULL);
  }
}

/** Pieces of five squares, drawn in a grid of five by five for each of four orientations. */
module Pieces {
  type Grid = seq<string>

  predicate Square(g: Grid, i: int, j: int) {
    0 <= i < |g| && 0 <= j < |g[i]| && g[i][j] == '1'
  }

  /** The squares among the first k places, row by row. */
  function Count(g: Grid, k: nat): nat {
    if k == 0 then 0 else Count(g, k - 1) + if Square(g, (k - 1) / 5, (k - 1) % 5) then 1 else 0
  }

  predicate Pentomino(g: Grid) {
    |g| == 5 && (forall i :: 0 <= i < 5 ==> |g[i]| == 5) && Count(g, 25) == 5
  }

  /** The four orientations of a piece. */
  predicate FourPieces(s: seq<Grid>) {
    |s| == 4 && forall o :: 0 <= o < 4 ==> Pentomino(s[o])
  }

  predicate Playable(shapes: seq<seq<Grid>>) {
    |shapes| > 0 && forall sh :: 0 <= sh < |shapes| ==> FourPieces(shapes[sh])
  }

  lemma CountNext(g: Grid, i: nat, j: nat)
    requires j < 5
    ensures Count(g, 5 * i + j + 1) == Count(g, 5 * i + j) + if Square(g, i, j) then 1 else 0
  {
    assert (5 * i + j) / 5 == i && (5 * i + j) % 5 == j;
  }

  function InRow(r: string): nat
    requires |r| == 5
  {
    (if r[0] == '1' then 1 else 0) + (if r[1] == '1' then 1 else 0) + (if r[2] == '1' then 1 else 0)
    + (if r[3] == '1' then 1 else 0) + if r[4] == '1' then 1 else 0
  }

  lemma CountRow(g: Grid, i: nat)
    requires i < |g| && |g[i]| == 5
    ensures Count(g, 5 * i + 5) == Count(g, 5 * i) + InRow(g[i])
  {
    CountNext(g, i, 0); CountNext(g, i, 1); CountNext(g, i, 2); CountNext(g, i, 3); CountNext(g, i, 4);
  }

  /** Five rows of five places, with five squares in all. */
  predicate Drawing(g: Grid) {
    && |g| == 5 && |g[0]| == |g[1]| == |g[2]| == |g[3]| == |g[4]| == 5
    && InRow(g[0]) + InRow(g[1]) + InRow(g[2]) + InRow(g[3]) + InRow(g[4]) == 5
  }

  lemma FiveSquares(g: Grid)
    requires Drawing(g)
    ensures Pentomino(g)
  {
    CountRow(g, 0);
    CountRow(g, 1);
    CountRow(g, 2);
    CountRow(g, 3);
    CountRow(g, 4);
  }

  lemma {:induction false} SomeSquare(g: Grid, k: nat)
    requires Count(g, k) > 0 && k <= 25
    ensures exists i, j :: 0 <= i < 5 && 0 <= j < 5 && Square(g, i, j)
  {
    if !Square(g, (k - 1) / 5, (k - 1) % 5) {
      SomeSquare(g, k - 1);
    }
  }
}
