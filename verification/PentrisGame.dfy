/** The falling-block game: the tests, the freezing of a piece, and the two callbacks as steps of a state machine. */
module PentrisGame {
  import opened Sequences
  import opened Pits
  import opened Pieces

  datatype Key = Left | Right | Space | Up | Return | Quit | Other

  datatype Event = Tick(next: nat) | Press(key: Key)

  /** A square of the piece has room, if the well is taken to be infinite on top. */
  ghost predicate Room(rows: seq<Row>, columns: nat, ln: int, cl: int)
    requires Wide(rows, columns)
  {
    0 <= ln && 0 <= cl < columns && (ln < |rows| ==> !rows[ln][cl])
  }

  ghost predicate FitsNoTop(rows: seq<Row>, columns: nat, g: Grid, ln: int, cl: int)
    requires Wide(rows, columns)
  {
    forall i, j :: 0 <= i < 5 && 0 <= j < 5 && Square(g, i, j) ==> Room(rows, columns, ln + i, cl + j)
  }

  /** The piece does not stick out of the top. */
  ghost predicate Inside(lines: nat, g: Grid, ln: int) {
    forall i, j :: 0 <= i < 5 && 0 <= j < 5 && Square(g, i, j) ==> ln + i < lines
  }

  /** The place (a, b) of the pit lies under a square of the piece that comes before (i, j). */
  ghost predicate Covers(g: Grid, ln: int, cl: int, i: int, j: int, a: int, b: int) {
    0 <= a - ln < 5 && 0 <= b - cl < 5 && Square(g, a - ln, b - cl) && (a - ln < i || (a - ln == i && b - cl < j))
  }

  /** `after` is `before` with the squares of the piece before (i, j) filled in. */
  ghost predicate Painted(before: seq<Row>, after: seq<Row>, columns: nat, g: Grid, ln: int, cl: int, i: int, j: int)
    requires Wide(before, columns) && Wide(after, columns) && |before| == |after|
  {
    forall a, b :: 0 <= a < |before| && 0 <= b < columns ==>
      (after[a][b] <==> before[a][b] || Covers(g, ln, cl, i, j, a, b))
  }

  /** The state of do_place when it stands at (i, j). */
  ghost predicate Started(R: seq<Row>, rows: seq<Row>, lines: nat, columns: nat, g: Grid, ln: int, cl: int, i: nat,
                          j: nat, fits: bool) {
    && Wide(R, columns) && Wide(rows, columns) && |R| == |rows| == lines && Painted(R, rows, columns, g, ln, cl, i, j)
    && (fits ==>
        FitsNoTop(R, columns, g, ln, cl) && Inside(lines, g, ln) && Occupied(rows) == Occupied(R) + Count(g, 5 * i + j))
  }

  lemma PaintNext(R: seq<Row>, rows: seq<Row>, lines: nat, columns: nat, g: Grid, ln: int, cl: int, i: nat, j: nat,
                  fits: bool)
    requires Started(R, rows, lines, columns, g, ln, cl, i, j, fits) && i < 5 && j < 5
    ensures var inside := 0 <= ln + i < lines && 0 <= cl + j < columns;
      if Square(g, i, j) && inside then
        Started(R, rows[ln + i := rows[ln + i][cl + j := true]], lines, columns, g, ln, cl, i, j + 1, fits)
      else
        Started(R, rows, lines, columns, g, ln, cl, i, j + 1, fits)
  {
    CountNext(g, i, j);
    if Square(g, i, j) && fits {
      assert Room(R, columns, ln + i, cl + j) && !rows[ln + i][cl + j];
      OnesUpdate(rows[ln + i], cl + j);
      OccupiedUpdate(rows, ln + i, rows[ln + i][cl + j := true]);
    }
  }

  lemma RowPainted(R: seq<Row>, rows: seq<Row>, lines: nat, columns: nat, g: Grid, ln: int, cl: int, i: nat, fits: bool)
    requires Started(R, rows, lines, columns, g, ln, cl, i, 5, fits)
    ensures Started(R, rows, lines, columns, g, ln, cl, i + 1, 0, fits)
  {}

  /** The state of crunch_lines: lines below i are done, and the lines of R below i0 have been looked at. */
  ghost predicate Moved(R: seq<Row>, rows: seq<Row>, columns: nat, i: int, i0: int, crunched: int) {
    && 0 <= i <= |R| == |rows| && 0 <= i0 <= |R|
    && var F := Filter(R[..i0], NOT_FULL);
       && |F| <= i && (i0 < |R| ==> |F| == i <= i0) && crunched == i0 - |F|
       && (forall k :: 0 <= k < i ==> rows[k] == if k < |F| then F[k] else Blank(columns))
       && (forall k :: i <= k < |R| ==> rows[k] == R[k])
  }

  /** A full line is passed over. */
  lemma SkipFull(R: seq<Row>, rows: seq<Row>, columns: nat, i: int, i0: int, crunched: int)
    requires Moved(R, rows, columns, i, i0, crunched) && i < |R| && i0 < |R|
    ensures rows[i0] == R[i0] && (Full(R[i0]) ==> Moved(R, rows, columns, i, i0 + 1, crunched + 1))
  {
    FilterNext(R, i0, NOT_FULL);
  }

  /** The next line that is not full moves down to i; if there is none, line i becomes blank. */
  lemma TakeLine(R: seq<Row>, rows: seq<Row>, columns: nat, i: int, i0: int, crunched: int)
    requires Moved(R, rows, columns, i, i0, crunched) && i < |R| && (i0 == |R| || !Full(R[i0]))
    ensures i0 == |R| ==> Moved(R, rows[i := Blank(columns)], columns, i + 1, i0, crunched)
    ensures i0 < |R| ==> Moved(R, rows[i := rows[i0]], columns, i + 1, i0 + 1, crunched) && rows[i0] == R[i0]
    ensures i0 == i ==> rows[i := rows[i0]] == rows
  {
    if i0 < |R| {
      FilterNext(R, i0, NOT_FULL);
    }
  }

  lemma AllMoved(R: seq<Row>, rows: seq<Row>, columns: nat, i0: int, crunched: int)
    requires Moved(R, rows, columns, |R|, i0, crunched)
    ensures rows == Crunched(R, columns) && crunched == |R| - |Filter(R, NOT_FULL)|
  {
    assert R[..|R|] == R;
  }

  /** Every square of a frozen piece is still in the pit, or went away in a full line that was scored. */
  ghost predicate Balanced(frozen: nat, rows: seq<Row>, columns: nat, score: int) {
    5 * frozen == Occupied(rows) + columns * score
  }

  /** The pit with the squares of the piece filled in, as far as they lie in it. */
  ghost function WithPiece(rows: seq<Row>, columns: nat, g: Grid, ln: int, cl: int): (r: seq<Row>)
    requires Wide(rows, columns)
    ensures |r| == |rows| && Wide(r, columns)
  {
    seq(|rows|, a requires 0 <= a < |rows| => seq(columns, b requires 0 <= b < columns =>
      rows[a][b] || Covers(g, ln, cl, 5, 0, a, b)))
  }

  lemma PaintedIs(before: seq<Row>, after: seq<Row>, columns: nat, g: Grid, ln: int, cl: int)
    requires Wide(before, columns) && Wide(after, columns) && |before| == |after|
      && Painted(before, after, columns, g, ln, cl, 5, 0)
    ensures after == WithPiece(before, columns, g, ln, cl)
  {
    var r := WithPiece(before, columns, g, ln, cl);
    forall a | 0 <= a < |before| ensures after[a] == r[a] {
      assert forall b :: 0 <= b < columns ==> after[a][b] == r[a][b];
    }
  }

  /** `after` is `before` with the piece and without the full lines, of which there were as many as crunched says. */
  ghost predicate FrozenTo(before: seq<Row>, after: seq<Row>, crunched: int, columns: nat, g: Grid, ln: int, cl: int) {
    Wide(before, columns) &&
    var placed := WithPiece(before, columns, g, ln, cl);
    after == Crunched(placed, columns) && crunched == |placed| - |Filter(placed, NOT_FULL)|
  }

  ghost predicate NoneFull(rows: seq<Row>) {
    forall k :: 0 <= k < |rows| ==> !Full(rows[k])
  }

  ghost function Blanks(lines: nat, columns: nat): seq<Row> {
    seq(lines, _ => Blank(columns))
  }

  lemma EmptyPit(lines: nat, columns: nat)
    requires columns > 0
    ensures Occupied(Blanks(lines, columns)) == 0 && NoneFull(Blanks(lines, columns))
      && Balanced(0, Blanks(lines, columns), columns, 0)
  {
    OccupiedBlank([], lines, columns);
    assert [] + seq(lines, _ => Blank(columns)) == Blanks(lines, columns);
    assert !Blank(columns)[0];
  }

  /** Five squares more, and the squares of the full lines gone: what the pit holds then. */
  lemma Freeze(before: seq<Row>, placed: seq<Row>, after: seq<Row>, columns: nat, crunched: int)
    requires Wide(placed, columns) && columns > 0 && Occupied(placed) == Occupied(before) + 5
    requires after == Crunched(placed, columns) && crunched == |placed| - |Filter(placed, NOT_FULL)|
    ensures crunched >= 0 && NoneFull(after) && Occupied(after) + columns * crunched == Occupied(before) + 5
  {
    CrunchedCount(placed, columns);
    FilterLength(placed, NOT_FULL);
  }

  /** The balance is kept when a frozen piece is counted and its full lines are scored. */
  lemma FreezeBalanced(before: seq<Row>, after: seq<Row>, columns: nat, frozen: nat, score: int, crunched: int)
    requires Occupied(after) + columns * crunched == Occupied(before) + 5
    ensures Balanced(frozen, before, columns, score) ==> Balanced(frozen + 1, after, columns, score + crunched)
  {
    AddScore(columns, score, crunched);
  }

  lemma AddScore(columns: int, score: int, crunched: int)
    ensures columns * (score + crunched) == columns * score + columns * crunched
  {}

  /** Above the pit there is always room, in the middle columns. */
  lemma RoomOnTop(rows: seq<Row>, columns: nat, g: Grid, ln: int)
    requires Wide(rows, columns) && columns >= 5
    ensures ln >= |rows| ==> FitsNoTop(rows, columns, g, ln, (columns - 5) / 2)
  {}

  // ----- Room, counted

  /** The k-th place of the grid, row by row, has a square that lies in the pit where it is empty. */
  ghost predicate NewAt(R: seq<Row>, columns: nat, g: Grid, ln: int, cl: int, k: nat)
    requires Wide(R, columns)
  {
    var i, j := k / 5, k % 5;
    Square(g, i, j) && 0 <= ln + i < |R| && 0 <= cl + j < columns && !R[ln + i][cl + j]
  }

  ghost function CountNew(R: seq<Row>, columns: nat, g: Grid, ln: int, cl: int, k: nat): nat
    requires Wide(R, columns)
  {
    if k == 0 then 0 else CountNew(R, columns, g, ln, cl, k - 1) + if NewAt(R, columns, g, ln, cl, k - 1) then 1 else 0
  }

  /** The pit with the squares before (i, j) filled in: each new one counts. */
  lemma {:induction false} FilledCount(R: seq<Row>, columns: nat, g: Grid, ln: int, cl: int, i: nat, j: nat, k: nat)
    returns (rows: seq<Row>)
    requires Wide(R, columns) && k == 5 * i + j && i <= 5 && (if i < 5 then j <= 5 else j == 0)
    ensures Wide(rows, columns) && |rows| == |R| && Painted(R, rows, columns, g, ln, cl, i, j)
    ensures Occupied(rows) == Occupied(R) + CountNew(R, columns, g, ln, cl, k)
    decreases i, j
  {
    if j > 0 {
      rows := FilledCount(R, columns, g, ln, cl, i, j - 1, k - 1);
      rows := FillOne(R, rows, columns, g, ln, cl, i, j - 1, k);
    } else if i > 0 {
      rows := FilledCount(R, columns, g, ln, cl, i - 1, 5, k);
      RowPainted(R, rows, |R|, columns, g, ln, cl, i - 1, false);
    } else {
      rows := R;
    }
  }

  /** One square more: it is new exactly if the place was empty from the start. */
  lemma FillOne(R: seq<Row>, before: seq<Row>, columns: nat, g: Grid, ln: int, cl: int, i: nat, j: nat, k: nat)
    returns (rows: seq<Row>)
    requires Wide(R, columns) && Wide(before, columns) && |before| == |R| && i < 5 && j < 5 && k == 5 * i + j + 1
    requires Painted(R, before, columns, g, ln, cl, i, j)
    ensures Wide(rows, columns) && |rows| == |R| && Painted(R, rows, columns, g, ln, cl, i, j + 1)
    ensures Occupied(rows) - Occupied(before)
      == CountNew(R, columns, g, ln, cl, k) - CountNew(R, columns, g, ln, cl, k - 1)
  {
    NextNew(R, columns, g, ln, cl, i, j, k);
    if Square(g, i, j) && 0 <= ln + i < |R| && 0 <= cl + j < columns {
      rows := before[ln + i := before[ln + i][cl + j := true]];
      PaintedMore(R, before, columns, g, ln, cl, i, j);
      OneMore(before, ln + i, cl + j);
    } else {
      rows := before;
      PaintedSame(R, before, columns, g, ln, cl, i, j);
    }
  }

  lemma NextNew(R: seq<Row>, columns: nat, g: Grid, ln: int, cl: int, i: nat, j: nat, k: nat)
    requires Wide(R, columns) && j < 5 && k == 5 * i + j + 1
    ensures CountNew(R, columns, g, ln, cl, k) == CountNew(R, columns, g, ln, cl, k - 1)
      + if Square(g, i, j) && 0 <= ln + i < |R| && 0 <= cl + j < columns && !R[ln + i][cl + j] then 1 else 0
  {
    assert (k - 1) / 5 == i && (k - 1) % 5 == j;
  }

  lemma PaintedMore(R: seq<Row>, rows: seq<Row>, columns: nat, g: Grid, ln: int, cl: int, i: nat, j: nat)
    requires Wide(R, columns) && Wide(rows, columns) && |R| == |rows| && Painted(R, rows, columns, g, ln, cl, i, j)
    requires j < 5 && i < 5 && Square(g, i, j) && 0 <= ln + i < |R| && 0 <= cl + j < columns
    ensures Painted(R, rows[ln + i := rows[ln + i][cl + j := true]], columns, g, ln, cl, i, j + 1)
    ensures rows[ln + i][cl + j] == R[ln + i][cl + j]
  {
    PaintNext(R, rows, |R|, columns, g, ln, cl, i, j, false);
  }

  lemma PaintedSame(R: seq<Row>, rows: seq<Row>, columns: nat, g: Grid, ln: int, cl: int, i: nat, j: nat)
    requires Wide(R, columns) && Wide(rows, columns) && |R| == |rows| && Painted(R, rows, columns, g, ln, cl, i, j)
    requires !(Square(g, i, j) && 0 <= ln + i < |R| && 0 <= cl + j < columns)
    ensures Painted(R, rows, columns, g, ln, cl, i, j + 1)
  {}

  lemma OneMore(rows: seq<Row>, a: nat, b: nat)
    requires a < |rows| && b < |rows[a]|
    ensures Occupied(rows[a := rows[a][b := true]]) == Occupied(rows) + if rows[a][b] then 0 else 1
  {
    if rows[a][b] {
      assert rows[a][b := true] == rows[a] && rows[a := rows[a]] == rows;
    } else {
      OnesUpdate(rows[a], b);
      OccupiedUpdate(rows, a, rows[a][b := true]);
    }
  }

  /** At most as many places are new as there are squares, and as many only if all squares are in empty places. */
  lemma {:induction false} NewOrLess(R: seq<Row>, columns: nat, g: Grid, ln: int, cl: int, k: nat)
    requires Wide(R, columns)
    ensures CountNew(R, columns, g, ln, cl, k) <= Count(g, k)
    ensures CountNew(R, columns, g, ln, cl, k) == Count(g, k)
      <==> forall m :: 0 <= m < k && Square(g, m / 5, m % 5) ==> NewAt(R, columns, g, ln, cl, m)
    decreases k
  {
    if k == 0 {
    } else {
      NewOrLess(R, columns, g, ln, cl, k - 1);
    }
  }

  lemma AllNew(R: seq<Row>, columns: nat, g: Grid, ln: int, cl: int)
    requires Wide(R, columns)
    ensures FitsNoTop(R, columns, g, ln, cl) && Inside(|R|, g, ln)
      <==> forall m :: 0 <= m < 25 && Square(g, m / 5, m % 5) ==> NewAt(R, columns, g, ln, cl, m)
  {
    if forall m :: 0 <= m < 25 && Square(g, m / 5, m % 5) ==> NewAt(R, columns, g, ln, cl, m) {
      forall i, j | 0 <= i < 5 && 0 <= j < 5 && Square(g, i, j)
        ensures Room(R, columns, ln + i, cl + j) && ln + i < |R|
      {
        var m := 5 * i + j;
        assert m / 5 == i && m % 5 == j && NewAt(R, columns, g, ln, cl, m);
      }
    }
    if FitsNoTop(R, columns, g, ln, cl) && Inside(|R|, g, ln) {
      forall m | 0 <= m < 25 && Square(g, m / 5, m % 5) ensures NewAt(R, columns, g, ln, cl, m) {
        assert Room(R, columns, ln + m / 5, cl + m % 5);
      }
    }
  }

  lemma FitsAllPlaces(R: seq<Row>, columns: nat, g: Grid, ln: int, cl: int, k: nat)
    requires Wide(R, columns) && k == 25
    ensures Occupied(WithPiece(R, columns, g, ln, cl)) == Occupied(R) + CountNew(R, columns, g, ln, cl, k)
    ensures FitsNoTop(R, columns, g, ln, cl) && Inside(|R|, g, ln)
      <==> CountNew(R, columns, g, ln, cl, k) == Count(g, k)
  {
    var rows := FilledCount(R, columns, g, ln, cl, 5, 0, k);
    PaintedIs(R, rows, columns, g, ln, cl);
    NewOrLess(R, columns, g, ln, cl, k);
    AllNew(R, columns, g, ln, cl);
  }

  /** A piece has room inside the pit exactly if filling it in makes five squares more. */
  lemma FitsExactly(R: seq<Row>, columns: nat, g: Grid, ln: int, cl: int)
    requires Wide(R, columns) && Pentomino(g)
    ensures FitsNoTop(R, columns, g, ln, cl) && Inside(|R|, g, ln)
      <==> Occupied(WithPiece(R, columns, g, ln, cl)) == Occupied(R) + 5
  {
    var k: nat :| k == 25;
    FitsAllPlaces(R, columns, g, ln, cl, k);
  }

  /** What expose_callback draws at a place of the pit. */
  datatype Colour = Background | Frozen | Falling

  function Drawn(rows: seq<Row>, columns: nat, g: Grid, line: int, column: int, i: nat, j: nat): Colour
    requires Wide(rows, columns) && i < |rows| && j < columns
  {
    if rows[i][j] then Frozen
    else if i - line >= 0 && j - column >= 0 && i - line < 5 && j - column < 5 && Square(g, i - line, j - column)
    then Falling
    else Background
  }

  /** A piece is frozen where it is drawn. */
  lemma FrozenAsDrawn(rows: seq<Row>, columns: nat, g: Grid, line: int, column: int, i: nat, j: nat)
    requires Wide(rows, columns) && i < |rows| && j < columns
    ensures WithPiece(rows, columns, g, line, column)[i][j]
      <==> Drawn(rows, columns, g, line, column, i, j) != Background
  {}

  // ----- Whole states, and what an event makes of them

  /** What does not change during a game. */
  datatype Rules = Rules(lines: nat, columns: nat, shapes: seq<seq<Grid>>)

  /** Everything that does change. */
  datatype State = State(rows: seq<Row>, falling: int, orient: int, line: int, column: int, next: int, orientNext: int,
                         score: int, frozen: nat, paused: bool, quit: bool, dead: bool)

  /** The falling piece has room at this place. */
  ghost predicate RoomAt(r: Rules, s: State, o: int, ln: int, cl: int) {
    && Playable(r.shapes) && 0 <= s.falling < |r.shapes| && 0 <= o < 4 && Wide(s.rows, r.columns)
    && FitsNoTop(s.rows, r.columns, r.shapes[s.falling][o], ln, cl)
  }

  ghost predicate InsidePit(r: Rules, s: State) {
    && Playable(r.shapes) && 0 <= s.falling < |r.shapes| && 0 <= s.orient < 4
    && Inside(r.lines, r.shapes[s.falling][s.orient], s.line)
  }

  /** `to` is `from` with the promised piece falling, in the middle, from the lowest line from the top with room. */
  ghost predicate Begun(r: Rules, from: State, next: int, to: State) {
    && to == from.(falling := from.next, orient := from.orientNext, next := next, orientNext := 0,
                   column := (r.columns - 5) / 2, line := to.line)
    && to.line >= r.lines - 4 && RoomAt(r, to, to.orient, to.line, to.column)
    && forall l :: r.lines - 4 <= l < to.line ==> !RoomAt(r, to, to.orient, l, to.column)
  }

  lemma BegunIs(r: Rules, from: State, next: int, to: State)
    requires to == from.(falling := from.next, orient := from.orientNext, next := next, orientNext := 0,
                         column := (r.columns - 5) / 2, line := to.line)
    requires Playable(r.shapes) && 0 <= to.falling < |r.shapes| && 0 <= to.orient < 4 && Wide(to.rows, r.columns)
    requires var g := r.shapes[to.falling][to.orient];
      && to.line >= r.lines - 4 && FitsNoTop(to.rows, r.columns, g, to.line, to.column)
      && forall l :: r.lines - 4 <= l < to.line ==> !FitsNoTop(to.rows, r.columns, g, l, to.column)
    ensures Begun(r, from, next, to)
  {}

  /** The piece is filled in where it stands, and the full lines go, each for a point. */
  ghost predicate Froze(r: Rules, from: State, mid: State) {
    && RoomAt(r, from, from.orient, from.line, from.column)
    && mid == from.(rows := mid.rows, score := mid.score, frozen := from.frozen + 1)
    && FrozenTo(from.rows, mid.rows, mid.score - from.score, r.columns, r.shapes[from.falling][from.orient], from.line,
                from.column)
  }

  /** The piece is filled in where it stands, the full lines go, each for a point, and the next piece begins. */
  ghost predicate Landed(r: Rules, from: State, next: int, to: State) {
    var mid := from.(rows := to.rows, score := to.score, frozen := from.frozen + 1);
    Froze(r, from, mid) && Begun(r, mid, next, to)
  }

  /** `to` is what a tick makes of `from`: the piece falls by a line, or lands, or the game is over. */
  ghost predicate Ticked(r: Rules, from: State, next: int, to: State) {
    if RoomAt(r, from, from.orient, from.line - 1, from.column) then to == from.(line := from.line - 1)
    else if InsidePit(r, from) then Landed(r, from, next, to)
    else to == from.(quit := true, dead := true)
  }

  lemma FallTicked(r: Rules, from: State, next: int, to: State)
    requires RoomAt(r, from, from.orient, from.line - 1, from.column) && to == from.(line := from.line - 1)
    ensures Ticked(r, from, next, to)
  {}

  lemma OverTicked(r: Rules, from: State, next: int, to: State)
    requires !RoomAt(r, from, from.orient, from.line - 1, from.column) && !InsidePit(r, from)
    requires to == from.(quit := true, dead := true)
    ensures Ticked(r, from, next, to)
  {}

  lemma LandTicked(r: Rules, from: State, mid: State, next: int, to: State)
    requires !RoomAt(r, from, from.orient, from.line - 1, from.column) && InsidePit(r, from)
    requires Froze(r, from, mid) && Begun(r, mid, next, to)
    ensures Ticked(r, from, next, to)
  {}

  lemma DropIs(r: Rules, from: State, g: Grid, to: State)
    requires to == from.(line := to.line) && to.line <= from.line && !from.paused
    requires RoomAt(r, from, from.orient, from.line, from.column) && g == r.shapes[from.falling][from.orient]
    requires !FitsNoTop(from.rows, r.columns, g, to.line - 1, from.column)
    requires forall l :: to.line <= l <= from.line ==> FitsNoTop(from.rows, r.columns, g, l, from.column)
    ensures Dropped(r, from, to)
  {}

  /** The piece has come down as far as it has room all the way. */
  ghost predicate Dropped(r: Rules, from: State, to: State) {
    && to == from.(paused := false, line := to.line) && to.line <= from.line
    && !RoomAt(r, from, from.orient, to.line - 1, from.column)
    && forall l :: to.line <= l <= from.line ==> RoomAt(r, from, from.orient, l, from.column)
  }

  /** `to` is what a key makes of `from`. */
  ghost predicate Pressed(r: Rules, from: State, key: Key, to: State) {
    match key
    case Left =>
      to == from.(paused := false, column := from.column
        - if RoomAt(r, from, from.orient, from.line, from.column - 1) then 1 else 0)
    case Right =>
      to == from.(paused := false, column := from.column
        + if RoomAt(r, from, from.orient, from.line, from.column + 1) then 1 else 0)
    case Up =>
      to == from.(paused := false, orient := if RoomAt(r, from, (from.orient + 1) % 4, from.line, from.column)
        then (from.orient + 1) % 4 else from.orient)
    case Space => Dropped(r, from, to)
    case Return => to == from.(paused := !from.paused)
    case Quit => to == from.(quit := true)
    case Other => to == from
  }

  /** Where the piece would be after one of the keys that move or turn it. */
  ghost function Asked(from: State, key: Key): (int, int, int) {
    if key.Left? then (from.orient, from.line, from.column - 1)
    else if key.Right? then (from.orient, from.line, from.column + 1)
    else ((from.orient + 1) % 4, from.line, from.column)
  }

  lemma MovePressed(r: Rules, from: State, key: Key, fits: bool, to: State)
    requires key.Left? || key.Right? || key.Up?
    requires var (o, ln, cl) := Asked(from, key); var s := from.(paused := false);
      && fits == RoomAt(r, s, o, ln, cl) && to == if fits then s.(orient := o, line := ln, column := cl) else s
    ensures Pressed(r, from, key, to)
  {
    var (o, ln, cl) := Asked(from, key);
    assert RoomAt(r, from.(paused := false), o, ln, cl) <==> RoomAt(r, from, o, ln, cl);
  }

  lemma DropPressed(r: Rules, from: State, to: State)
    requires Dropped(r, from.(paused := false), to)
    ensures Pressed(r, from, Space, to)
  {
    var s := from.(paused := false);
    forall l ensures RoomAt(r, from, from.orient, l, from.column) <==> RoomAt(r, s, s.orient, l, s.column) {}
  }

  ghost predicate Follows(r: Rules, from: State, event: Event, to: State) {
    match event
    case Tick(next) => Ticked(r, from, next, to)
    case Press(key) => Pressed(r, from, key, to)
  }

  /** Before the first piece: an empty pit, and the first piece promised. */
  ghost function Opened(lines: nat, columns: nat, first: int): State {
    State(Blanks(lines, columns), 0, 0, 0, 0, first, 0, 0, 0, false, false, false)
  }

  lemma FrozenGrows(r: Rules, from: State, event: Event, to: State)
    requires Follows(r, from, event, to)
    ensures from.frozen <= to.frozen
  {}

  /** The states of a run up to now: each follows from the one before by its event, and none but the last has quit. */
  ghost predicate RunUpTo(r: Rules, states: seq<State>, events: seq<Event>) {
    && 1 <= |states| <= |events| + 1
    && forall k :: 0 <= k < |states| - 1 ==> !states[k].quit && Follows(r, states[k], events[k], states[k + 1])
  }

  /** The states of a whole run: if the last has not quit, all events have happened. */
  ghost predicate IsRun(r: Rules, states: seq<State>, events: seq<Event>) {
    RunUpTo(r, states, events) && (|states| <= |events| ==> states[|states| - 1].quit)
  }

  lemma RunOn(r: Rules, states: seq<State>, events: seq<Event>, to: State)
    requires RunUpTo(r, states, events) && |states| <= |events| && !states[|states| - 1].quit
    requires Follows(r, states[|states| - 1], events[|states| - 1], to)
    ensures RunUpTo(r, states + [to], events)
  {}

  lemma BegunLowest(r: Rules, from: State, next: int, to: State, l: int)
    requires Begun(r, from, next, to) && r.lines - 4 <= l && RoomAt(r, to, to.orient, l, to.column)
    ensures to.line <= l
  {}

  lemma BegunOnce(r: Rules, from: State, next: int, a: State, b: State)
    requires Begun(r, from, next, a) && Begun(r, from, next, b)
    ensures a == b
  {
    assert RoomAt(r, a, a.orient, b.line, a.column) && RoomAt(r, b, b.orient, a.line, b.column);
    BegunLowest(r, from, next, a, b.line);
    BegunLowest(r, from, next, b, a.line);
  }

  /** An event has one outcome only. */
  lemma OneOutcome(r: Rules, from: State, event: Event, a: State, b: State)
    requires Follows(r, from, event, a) && Follows(r, from, event, b)
    ensures a == b
  {
    if event.Tick? {
      if !RoomAt(r, from, from.orient, from.line - 1, from.column) && InsidePit(r, from) {
        BegunOnce(r, from.(rows := a.rows, score := a.score, frozen := from.frozen + 1), event.next, a, b);
      }
    } else if event.key.Space? {
      assert a.line - 1 >= b.line ==> RoomAt(r, from, from.orient, a.line - 1, from.column);
      assert b.line - 1 >= a.line ==> RoomAt(r, from, from.orient, b.line - 1, from.column);
    }
  }

  /** The first state and the events determine the run. */
  lemma {:induction false} OneRun(r: Rules, a: seq<State>, b: seq<State>, events: seq<Event>, k: nat)
    requires IsRun(r, a, events) && IsRun(r, b, events) && a[0] == b[0] && k < |a|
    ensures k < |b| && a[k] == b[k]
    decreases k
  {
    if k == 0 {
    } else {
      OneRun(r, a, b, events, k - 1);
      assert !a[k - 1].quit;
      OneOutcome(r, a[k - 1], events[k - 1], a[k], b[k]);
    }
  }

  class Game {
    const lines: nat
    const columns: nat
    const shapes: seq<seq<Grid>>
    const board: array2<bool>
    var shapeFalling: int
    var orient: int
    var line: int
    var column: int
    var shapeNext: int
    var orientNext: int
    var score: int
    var paused: bool
    var quit: bool
    ghost var dead: bool
    ghost var frozen: nat

    /** The pit as rows, from the bottom up. */
    ghost var rows: seq<Row>

    ghost predicate Ready()
      reads this`rows, board
    {
      && board.Length0 == lines == |rows| && board.Length1 == columns && Wide(rows, columns)
      && forall a, b :: 0 <= a < lines && 0 <= b < columns ==> board[a, b] == rows[a][b]
    }

    /** can_place. */
    method CanPlace(g: Grid, ln: int, cl: int) returns (r: bool)
      requires Ready()
      ensures r <==> FitsNoTop(rows, columns, g, ln, cl) && Inside(lines, g, ln)
    {
      var i := 0;
      while i < 5
        invariant 0 <= i <= 5
        invariant forall a, b :: 0 <= a < i && 0 <= b < 5 && Square(g, a, b) ==>
          Room(rows, columns, ln + a, cl + b) && ln + a < lines
      {
        var j := 0;
        while j < 5
          invariant 0 <= j <= 5
          invariant forall b :: 0 <= b < j && Square(g, i, b) ==> Room(rows, columns, ln + i, cl + b) && ln + i < lines
        {
          if Square(g, i, j) {
            if ln + i < 0 || cl + j < 0 || ln + i >= lines || cl + j >= columns || board[ln + i, cl + j] {
              assert !(Room(rows, columns, ln + i, cl + j) && ln + i < lines);
              return false;
            }
          }
          j := j + 1;
        }
        i := i + 1;
      }
      return true;
    }

    /** can_place_notop. */
    method CanPlaceNoTop(g: Grid, ln: int, cl: int) returns (r: bool)
      requires Ready()
      ensures r <==> FitsNoTop(rows, columns, g, ln, cl)
    {
      var i := 0;
      while i < 5
        invariant 0 <= i <= 5
        invariant forall a, b :: 0 <= a < i && 0 <= b < 5 && Square(g, a, b) ==> Room(rows, columns, ln + a, cl + b)
      {
        var j := 0;
        while j < 5
          invariant 0 <= j <= 5
          invariant forall b :: 0 <= b < j && Square(g, i, b) ==> Room(rows, columns, ln + i, cl + b)
        {
          if Square(g, i, j) {
            if ln + i < 0 || cl + j < 0 || cl + j >= columns || (ln + i < lines && board[ln + i, cl + j]) {
              assert !Room(rows, columns, ln + i, cl + j);
              return false;
            }
          }
          j := j + 1;
        }
        i := i + 1;
      }
      return true;
    }

    /** One square of the pit is filled. */
    method SetSquare(a: int, b: int, ghost after: seq<Row>)
      requires Ready() && 0 <= a < lines && 0 <= b < columns && after == rows[a := rows[a][b := true]]
      modifies board, this`rows
      ensures Ready() && rows == after
    {
      board[a, b] := true;
      rows := after;
    }

    /** One line of do_place. */
    method PlaceRow(g: Grid, ln: int, cl: int, i: nat, ghost R: seq<Row>, ghost fits: bool)
      requires Ready() && i < 5 && Started(R, rows, lines, columns, g, ln, cl, i, 0, fits)
      modifies board, this`rows
      ensures Ready() && Started(R, rows, lines, columns, g, ln, cl, i, 5, fits)
    {
      var j := 0;
      while j < 5
        invariant 0 <= j <= 5 && Ready() && Started(R, rows, lines, columns, g, ln, cl, i, j, fits)
      {
        ghost var after := rows;
        PaintNext(R, rows, lines, columns, g, ln, cl, i, j, fits);
        if Square(g, i, j) {
          if ln + i >= 0 && cl + j >= 0 && ln + i < lines && cl + j < columns {
            after := rows[ln + i := rows[ln + i][cl + j := true]];
            SetSquare(ln + i, cl + j, after);
          }
        }
        assert rows == after && Started(R, after, lines, columns, g, ln, cl, i, j + 1, fits);
        j := j + 1;
      }
    }

    /** do_place: exactly the squares of the piece that lie in the pit are filled; if it fits, these are five more. */
    method DoPlace(g: Grid, ln: int, cl: int)
      requires Ready() && Pentomino(g)
      modifies board, this`rows
      ensures Ready() && rows == WithPiece(old(rows), columns, g, ln, cl)
      ensures FitsNoTop(old(rows), columns, g, ln, cl) && Inside(lines, g, ln) ==>
        Occupied(rows) == Occupied(old(rows)) + 5
    {
      ghost var R, fits := rows, FitsNoTop(rows, columns, g, ln, cl) && Inside(lines, g, ln);
      var i := 0;
      while i < 5
        invariant 0 <= i <= 5 && Ready() && Started(R, rows, lines, columns, g, ln, cl, i, 0, fits)
      {
        PlaceRow(g, ln, cl, i, R, fits);
        RowPainted(R, rows, lines, columns, g, ln, cl, i, fits);
        i := i + 1;
      }
      PaintedIs(R, rows, columns, g, ln, cl);
    }

    // ----- Crunching

    /** fl: whether the line is full. */
    method LineFull(i: int) returns (fl: bool)
      requires Ready() && 0 <= i < lines
      ensures fl <==> Full(rows[i])
    {
      var j := 0;
      while j < columns
        invariant 0 <= j <= columns && forall k :: 0 <= k < j ==> rows[i][k]
      {
        if !board[i, j] {
          assert !rows[i][j];
          return false;
        }
        j := j + 1;
      }
      return true;
    }

    /** A line becomes blank. */
    method ClearLine(i: int)
      requires Ready() && 0 <= i < lines
      modifies board, this`rows
      ensures Ready() && rows == old(rows)[i := Blank(columns)]
    {
      forall j | 0 <= j < columns { board[i, j] := false; }
      rows := rows[i := Blank(columns)];
    }

    /** A line becomes a copy of another. */
    method CopyLine(i: int, i0: int)
      requires Ready() && 0 <= i < lines && 0 <= i0 < lines
      modifies board, this`rows
      ensures Ready() && rows == old(rows)[i := old(rows)[i0]]
    {
      forall j | 0 <= j < columns { board[i, j] := board[i0, j]; }
      rows := rows[i := rows[i0]];
    }

    /** crunch_lines: the full lines disappear in place, those above move down, and blank lines come in at the top. */
    method CrunchLines() returns (crunched: int)
      requires Ready()
      modifies board, this`rows
      ensures Ready() && rows == Crunched(old(rows), columns) && crunched == lines - |Filter(old(rows), NOT_FULL)|
    {
      ghost var R := rows;
      crunched := 0;
      var i0, i := 0, 0;
      while i < lines
        invariant 0 <= i <= lines && Ready() && Moved(R, rows, columns, i, i0, crunched)
      {
        var fl := true;
        while fl
          invariant Ready() && Moved(R, rows, columns, i, i0, crunched)
          invariant !fl ==> i0 == lines || !Full(R[i0])
          decreases lines - i0, fl
        {
          if i0 < lines {
            SkipFull(R, rows, columns, i, i0, crunched);
            fl := LineFull(i0);
          } else {
            fl := false;
          }
          if fl {
            i0 := i0 + 1;
            crunched := crunched + 1;
          }
        }
        TakeLine(R, rows, columns, i, i0, crunched);
        if i0 >= lines {
          ClearLine(i);
        } else {
          if i0 > i {
            CopyLine(i, i0);
          }
          i0 := i0 + 1;
        }
        i := i + 1;
      }
      AllMoved(R, rows, columns, i0, crunched);
    }

    // ----- The state machine

    ghost predicate Orientation(sh: int, o: int) {
      0 <= sh < |shapes| && 0 <= o < 4
    }

    ghost function TheRules(): Rules {
      Rules(lines, columns, shapes)
    }

    ghost function Now(): State
      reads this
    {
      State(rows, shapeFalling, orient, line, column, shapeNext, orientNext, score, frozen, paused, quit, dead)
    }

    /** Between two pieces: no line is full, and every square of a frozen piece is in the pit or has been scored. */
    ghost predicate Settled()
      reads this`rows, this`shapeFalling, this`orient, this`shapeNext, this`orientNext, this`frozen, this`score, board
    {
      && Ready() && columns >= 5 && Playable(shapes) && Orientation(shapeFalling, orient)
      && Orientation(shapeNext, orientNext)
      && NoneFull(rows) && Balanced(frozen, rows, columns, score)
    }

    /** The falling piece has room at this place. */
    ghost predicate HasRoom(o: int, ln: int, cl: int)
      reads this`rows, this`shapeFalling
    {
      Playable(shapes) && Orientation(shapeFalling, o) && Wide(rows, columns)
        && FitsNoTop(rows, columns, shapes[shapeFalling][o], ln, cl)
    }

    ghost predicate InPit()
      reads this`shapeFalling, this`orient, this`line
    {
      Playable(shapes) && Orientation(shapeFalling, orient) && Inside(lines, shapes[shapeFalling][orient], line)
    }

    /** While a piece falls it has room where it is; a dead game is over because the piece sticks out of the top. */
    ghost predicate Valid()
      reads this, board
    {
      Settled() && HasRoom(orient, line, column) && (dead ==> quit && !InPit())
    }

    /** main up to gtk_main: the first piece is in place. */
    constructor (lines: nat, columns: nat, shapes: seq<seq<Grid>>, first: nat, next: nat)
      requires columns >= 5 && Playable(shapes) && first < |shapes| && next < |shapes|
      ensures Valid() && !quit && frozen == 0 && score == 0 && Occupied(rows) == 0 && fresh(board)
      ensures this.lines == lines && this.columns == columns && this.shapes == shapes
      ensures Begun(TheRules(), Opened(lines, columns, first), next, Now())
    {
      this.lines, this.columns, this.shapes := lines, columns, shapes;
      board := new bool[lines, columns]((_, _) => false);
      rows := Blanks(lines, columns);
      shapeNext, orientNext, score, frozen := first, 0, 0, 0;
      paused, quit, dead := false, false, false;
      shapeFalling, orient := 0, 0;
      new;
      EmptyPit(lines, columns);
      InitiateShape(next);
    }

    /** finalize_shape: a piece inside the pit is frozen; one that sticks out ends the game, and nothing changes. */
    method FinalizeShape() returns (done: bool)
      requires Valid() && !dead
      modifies board, this`rows, this`score, this`frozen
      ensures done == old(InPit())
      ensures done ==> Settled() && Froze(TheRules(), old(Now()), Now())
      ensures !done ==> Valid() && Now() == old(Now())
    {
      var g := shapes[shapeFalling][orient];
      done := CanPlace(g, line, column);
      if done {
        PlaceAndScore(g, rows, score);
      }
    }

    method PlaceAndScore(g: Grid, ghost before: seq<Row>, ghost points: int)
      requires Ready() && columns > 0 && Pentomino(g) && Balanced(frozen, rows, columns, score)
      requires FitsNoTop(rows, columns, g, line, column) && Inside(lines, g, line) && before == rows && points == score
      modifies board, this`rows, this`score, this`frozen
      ensures Ready() && NoneFull(rows) && Balanced(frozen, rows, columns, score) && frozen == old(frozen) + 1
      ensures FrozenTo(before, rows, score - points, columns, g, line, column)
    {
      var crunched := PlaceAndCrunch(g, before);
      FreezeBalanced(before, rows, columns, frozen, score, crunched);
      AddToScore(crunched);
      assert score - points == crunched;
    }

    /** One more piece is frozen, and the lines that it filled are scored. */
    method AddToScore(crunched: int)
      requires Balanced(frozen + 1, rows, columns, score + crunched)
      modifies this`score, this`frozen
      ensures Balanced(frozen, rows, columns, score) && frozen == old(frozen) + 1 && score == old(score) + crunched
    {
      score := score + crunched;
      frozen := frozen + 1;
    }

    method PlaceAndCrunch(g: Grid, ghost before: seq<Row>) returns (crunched: int)
      requires Ready() && columns > 0 && Pentomino(g) && before == rows
      requires FitsNoTop(rows, columns, g, line, column) && Inside(lines, g, line)
      modifies board, this`rows
      ensures Ready() && NoneFull(rows) && Occupied(rows) + columns * crunched == Occupied(before) + 5
      ensures FrozenTo(before, rows, crunched, columns, g, line, column)
    {
      DoPlace(g, line, column);
      ghost var placed := rows;
      crunched := CrunchLines();
      Freeze(before, placed, rows, columns, crunched);
    }

    /** initiate_shape: the next piece starts at the lowest line from the top where it has room; `next` is drawn. */
    method InitiateShape(next: nat)
      requires Settled() && next < |shapes| && !dead
      modifies this`shapeFalling, this`orient, this`shapeNext, this`orientNext, this`line, this`column
      ensures Valid() && Begun(TheRules(), old(Now()), next, Now())
    {
      ghost var r, from := TheRules(), Now();
      shapeFalling := shapeNext;
      orient := orientNext;
      orientNext := 0;
      shapeNext := next;
      column := (columns - 5) / 2;
      FindLine(rows, shapes[shapeFalling][orient], column);
      BegunIs(r, from, next, Now());
    }

    /** The loop of initiate_shape. */
    method FindLine(ghost R: seq<Row>, ghost g: Grid, ghost c: int)
      requires Ready() && columns >= 5 && Playable(shapes) && Orientation(shapeFalling, orient)
      requires R == rows && g == shapes[shapeFalling][orient] && c == column == (columns - 5) / 2
      modifies this`line
      ensures line >= lines - 4 && FitsNoTop(R, columns, g, line, c)
      ensures forall l :: lines - 4 <= l < line ==> !FitsNoTop(R, columns, g, l, c)
    {
      line := lines - 5 + 1;
      while true
        modifies this`line
        invariant lines - 4 <= line <= lines
        invariant forall l :: lines - 4 <= l < line ==> !FitsNoTop(R, columns, g, l, c)
        decreases lines - line
      {
        var fits := CanPlaceNoTop(shapes[shapeFalling][orient], line, column);
        if fits {
          break;
        }
        RoomOnTop(R, columns, g, line);
        line := line + 1;
      }
    }

    /** What fall_callback does with a piece that cannot fall: it is frozen and the next starts, or the game is over. */
    method Land(next: nat)
      requires Valid() && !quit && next < |shapes| && !HasRoom(orient, line - 1, column)
      modifies board, this`rows, this`score, this`frozen, this`quit, this`dead
      modifies this`shapeFalling, this`orient, this`shapeNext, this`orientNext, this`line, this`column
      ensures Valid() && Ticked(TheRules(), old(Now()), next, Now())
    {
      ghost var r, from := TheRules(), Now();
      var done := FinalizeShape();
      if !done {
        quit, dead := true, true;
        OverTicked(r, from, next, Now());
      } else {
        StartNext(next, r, from);
      }
    }

    /** The next piece starts after one has been frozen. */
    method StartNext(next: nat, ghost r: Rules, ghost from: State)
      requires Settled() && next < |shapes| && !dead && r == TheRules() && Froze(r, from, Now())
      requires !RoomAt(r, from, from.orient, from.line - 1, from.column) && InsidePit(r, from)
      modifies this`shapeFalling, this`orient, this`shapeNext, this`orientNext, this`line, this`column
      ensures Valid() && Ticked(r, from, next, Now())
    {
      ghost var mid := Now();
      InitiateShape(next);
      LandTicked(r, from, mid, next, Now());
    }

    /** fall_callback: the piece falls by one line, or lands. */
    method FallCallback(next: nat)
      requires Valid() && !quit && next < |shapes|
      modifies board, this
      ensures Valid() && Ticked(TheRules(), old(Now()), next, Now())
    {
      ghost var r, from := TheRules(), Now();
      var fits := Try(orient, line - 1, column);
      if fits {
        FallTicked(r, from, next, Now());
      } else {
        Land(next);
      }
    }

    /** The test that goes before every move, and the move. */
    method Try(o: int, ln: int, cl: int) returns (fits: bool)
      requires Valid() && !quit && 0 <= o < 4
      modifies this`line, this`column, this`orient
      ensures Valid() && fits == RoomAt(TheRules(), old(Now()), o, ln, cl)
      ensures Now() == if fits then old(Now()).(orient := o, line := ln, column := cl) else old(Now())
    {
      fits := CanPlaceNoTop(shapes[shapeFalling][o], ln, cl);
      if fits {
        orient, line, column := o, ln, cl;
      }
    }

    /** unpause. */
    method Unpause()
      requires Valid() && !quit
      modifies this`paused
      ensures Valid() && Now() == old(Now()).(paused := false)
    {
      if paused {
        paused := false;
      }
    }

    /** A key that moves or turns the piece. */
    method MovePiece(key: Key, o: int, ln: int, cl: int)
      requires Valid() && !quit && (key.Left? || key.Right? || key.Up?) && (o, ln, cl) == Asked(Now(), key)
      modifies this`paused, this`line, this`column, this`orient
      ensures Valid() && Pressed(TheRules(), old(Now()), key, Now())
    {
      ghost var r, from := TheRules(), Now();
      Unpause();
      var fits := Try(o, ln, cl);
      MovePressed(r, from, key, fits, Now());
    }

    /** The space key. */
    method DropPiece()
      requires Valid() && !quit
      modifies this`paused, this`line, this`column, this`orient
      ensures Valid() && Pressed(TheRules(), old(Now()), Space, Now())
    {
      ghost var r, from := TheRules(), Now();
      Unpause();
      Drop();
      DropPressed(r, from, Now());
    }

    /** key_press_callback: a key moves or turns the piece only where it has room, and never touches the pit. */
    method KeyPress(key: Key)
      requires Valid() && !quit
      modifies this`paused, this`line, this`column, this`orient, this`quit
      ensures Valid() && Pressed(TheRules(), old(Now()), key, Now())
    {
      match key {
        case Left =>
          MovePiece(key, orient, line, column - 1);
        case Right =>
          MovePiece(key, orient, line, column + 1);
        case Space =>
          DropPiece();
        case Up =>
          MovePiece(key, (orient + 1) % 4, line, column);
        case Return =>
          paused := !paused;
        case Quit =>
          quit := true;
        case Other =>
      }
    }

    /** The loop of the space key: the piece falls as far as it can. */
    method Drop()
      requires Valid() && !quit && !paused
      modifies this`line, this`column, this`orient
      ensures Valid() && Dropped(TheRules(), old(Now()), Now())
    {
      ghost var r, from, R, g, c := TheRules(), Now(), rows, shapes[shapeFalling][orient], column;
      var fits := true;
      while fits
        invariant Valid() && Now() == from.(line := line) && line <= from.line
        invariant !fits ==> !FitsNoTop(R, columns, g, line - 1, c)
        invariant forall l :: line <= l <= from.line ==> FitsNoTop(R, columns, g, l, c)
        decreases line + 5, fits
      {
        AboveGround(R, columns, g, line, c);
        fits := Try(orient, line - 1, column);
      }
      DropIs(r, from, g, Now());
    }

    /** What one event does. */
    method Do(event: Event)
      requires Valid() && !quit && (event.Tick? ==> event.next < |shapes|)
      modifies this, board
      ensures Valid() && Follows(TheRules(), old(Now()), event, Now())
    {
      match event {
        case Tick(next) => FallCallback(next);
        case Press(key) => KeyPress(key);
      }
    }

    /** gtk_main: any run of ticks and key presses. All happen in their order, each with its effect, unless the game
      * has ended; and at its end, however it ends, every square is accounted for. */
    method Run(events: seq<Event>) returns (ghost states: seq<State>)
      requires Valid() && !quit && forall k :: 0 <= k < |events| && events[k].Tick? ==> events[k].next < |shapes|
      modifies this, board
      ensures Valid() && Balanced(frozen, rows, columns, score) && frozen >= old(frozen)
      ensures IsRun(TheRules(), states, events) && states[0] == old(Now()) && states[|states| - 1] == Now()
    {
      ghost var r, first := TheRules(), Now();
      states := [first];
      var k := 0;
      while k < |events| && !quit
        invariant 0 <= k <= |events| && Valid() && |states| == k + 1 && states[0] == first && states[k] == Now()
        invariant RunUpTo(r, states, events) && first.frozen <= frozen
      {
        ghost var from := Now();
        Do(events[k]);
        FrozenGrows(r, from, events[k], Now());
        RunOn(r, states, events, Now());
        states := states + [Now()];
        k := k + 1;
      }
    }
  }

  /** A piece that has room is not below the ground by its whole height. */
  lemma AboveGround(rows: seq<Row>, columns: nat, g: Grid, ln: int, cl: int)
    requires Wide(rows, columns) && Pentomino(g) && FitsNoTop(rows, columns, g, ln, cl)
    ensures ln >= -4
  {
    SomeSquare(g, 25);
    var i, j :| 0 <= i < 5 && 0 <= j < 5 && Square(g, i, j);
    assert Room(rows, columns, ln + i, cl + j);
  }
}
