/** The table of the eighteen pieces, each in four orientations, line 0 of the grid being its lowest. */
module PieceTable {
  import opened Pieces

  function ShapeP(): seq<Grid> {
    [
      ["00000", "00100", "00110", "00110", "00000"],
      ["00000", "00000", "01110", "01100", "00000"],
      ["00000", "01100", "01100", "00100", "00000"],
      ["00000", "00110", "01110", "00000", "00000"]
    ]
  }

  function ShapeQ(): seq<Grid> {
    [
      ["00000", "00100", "01100", "01100", "00000"],
      ["00000", "01100", "01110", "00000", "00000"],
      ["00000", "00110", "00110", "00100", "00000"],
      ["00000", "00000", "01110", "00110", "00000"]
    ]
  }

  function ShapeI(): seq<Grid> {
    [
      ["00000", "00000", "11111", "00000", "00000"],
      ["00100", "00100", "00100", "00100", "00100"],
      ["00000", "00000", "11111", "00000", "00000"],
      ["00100", "00100", "00100", "00100", "00100"]
    ]
  }

  function ShapeX(): seq<Grid> {
    [
      ["00000", "00100", "01110", "00100", "00000"],
      ["00000", "00100", "01110", "00100", "00000"],
      ["00000", "00100", "01110", "00100", "00000"],
      ["00000", "00100", "01110", "00100", "00000"]
    ]
  }

  function ShapeC(): seq<Grid> {
    [
      ["00000", "00000", "01010", "01110", "00000"],
      ["00000", "01100", "01000", "01100", "00000"],
      ["00000", "01110", "01010", "00000", "00000"],
      ["00000", "00110", "00010", "00110", "00000"]
    ]
  }

  function ShapeW(): seq<Grid> {
    [
      ["00000", "01100", "00110", "00010", "00000"],
      ["00000", "00010", "00110", "01100", "00000"],
      ["00000", "01000", "01100", "00110", "00000"],
      ["00000", "00110", "01100", "01000", "00000"]
    ]
  }

  function ShapeT(): seq<Grid> {
    [
      ["00000", "00100", "00100", "01110", "00000"],
      ["00000", "01000", "01110", "01000", "00000"],
      ["00000", "01110", "00100", "00100", "00000"],
      ["00000", "00010", "01110", "00010", "00000"]
    ]
  }

  function ShapeS(): seq<Grid> {
    [
      ["00000", "00010", "01110", "01000", "00000"],
      ["00000", "01100", "00100", "00110", "00000"],
      ["00000", "00010", "01110", "01000", "00000"],
      ["00000", "01100", "00100", "00110", "00000"]
    ]
  }

  function ShapeZ(): seq<Grid> {
    [
      ["00000", "01000", "01110", "00010", "00000"],
      ["00000", "00110", "00100", "01100", "00000"],
      ["00000", "01000", "01110", "00010", "00000"],
      ["00000", "00110", "00100", "01100", "00000"]
    ]
  }

  function ShapeV(): seq<Grid> {
    [
      ["00000", "01000", "01000", "01110", "00000"],
      ["00000", "01110", "01000", "01000", "00000"],
      ["00000", "01110", "00010", "00010", "00000"],
      ["00000", "00010", "00010", "01110", "00000"]
    ]
  }

  function ShapeL(): seq<Grid> {
    [
      ["00000", "01000", "01111", "00000", "00000"],
      ["00000", "00110", "00100", "00100", "00100"],
      ["00000", "00000", "11110", "00010", "00000"],
      ["00100", "00100", "00100", "01100", "00000"]
    ]
  }

  function SmallL(): seq<Grid> {
    [
      ["00000", "00100", "01111", "00000", "00000"],
      ["00000", "00100", "00110", "00100", "00100"],
      ["00000", "00000", "11110", "00100", "00000"],
      ["00100", "00100", "01100", "00100", "00000"]
    ]
  }

  function ShapeJ(): seq<Grid> {
    [
      ["00000", "00010", "11110", "00000", "00000"],
      ["00100", "00100", "00100", "00110", "00000"],
      ["00000", "00000", "01111", "01000", "00000"],
      ["00000", "01100", "00100", "00100", "00100"]
    ]
  }

  function SmallJ(): seq<Grid> {
    [
      ["00000", "00100", "11110", "00000", "00000"],
      ["00100", "00100", "00110", "00100", "00000"],
      ["00000", "00000", "01111", "00100", "00000"],
      ["00000", "00100", "01100", "00100", "00100"]
    ]
  }

  function ShapeK(): seq<Grid> {
    [
      ["00000", "00100", "01110", "01000", "00000"],
      ["00000", "01100", "00110", "00100", "00000"],
      ["00000", "00010", "01110", "00100", "00000"],
      ["00000", "00100", "01100", "00110", "00000"]
    ]
  }

  function SmallK(): seq<Grid> {
    [
      ["00000", "00100", "01110", "00010", "00000"],
      ["00000", "00100", "00110", "01100", "00000"],
      ["00000", "01000", "01110", "00100", "00000"],
      ["00000", "00110", "01100", "00100", "00000"]
    ]
  }

  function SmallS(): seq<Grid> {
    [
      ["00000", "01100", "00111", "00000", "00000"],
      ["00000", "00010", "00110", "00100", "00100"],
      ["00000", "00000", "11100", "00110", "00000"],
      ["00100", "00100", "01100", "01000", "00000"]
    ]
  }

  function SmallZ(): seq<Grid> {
    [
      ["00000", "00110", "11100", "00000", "00000"],
      ["00100", "00100", "00110", "00010", "00000"],
      ["00000", "00000", "00111", "01100", "00000"],
      ["00000", "01000", "01100", "00100", "00100"]
    ]
  }

  function FirstThree(): seq<seq<Grid>> {
    [ShapeP(), ShapeQ(), ShapeI()]
  }

  function SecondThree(): seq<seq<Grid>> {
    [ShapeX(), ShapeC(), ShapeW()]
  }

  function ThirdThree(): seq<seq<Grid>> {
    [ShapeT(), ShapeS(), ShapeZ()]
  }

  function FourthThree(): seq<seq<Grid>> {
    [ShapeV(), ShapeL(), SmallL()]
  }

  function FifthThree(): seq<seq<Grid>> {
    [ShapeJ(), SmallJ(), ShapeK()]
  }

  function SixthThree(): seq<seq<Grid>> {
    [SmallK(), SmallS(), SmallZ()]
  }

  function Shapes(): seq<seq<Grid>> {
    FirstThree() + SecondThree() + ThirdThree() + FourthThree() + FifthThree() + SixthThree()
  }

  /** Four grids, each of five rows of five places, with five squares in all. */
  predicate FourDrawings(s: seq<Grid>) {
    |s| == 4 && Drawing(s[0]) && Drawing(s[1]) && Drawing(s[2]) && Drawing(s[3])
  }

  lemma FourPentominoes(s: seq<Grid>)
    requires FourDrawings(s)
    ensures FourPieces(s)
  {
    FiveSquares(s[0]);
    FiveSquares(s[1]);
    FiveSquares(s[2]);
    FiveSquares(s[3]);
  }

  lemma ThreePlayable(a: seq<Grid>, b: seq<Grid>, c: seq<Grid>)
    requires FourDrawings(a) && FourDrawings(b) && FourDrawings(c)
    ensures Playable([a, b, c])
  {
    FourPentominoes(a);
    FourPentominoes(b);
    FourPentominoes(c);
  }

  lemma JoinPlayable(a: seq<seq<Grid>>, b: seq<seq<Grid>>)
    requires Playable(a) && Playable(b)
    ensures Playable(a + b)
  {}

  lemma FirstPlayable()
    ensures Playable(FirstThree()) && |FirstThree()| == 3
  {
    ThreePlayable(ShapeP(), ShapeQ(), ShapeI());
  }

  lemma SecondPlayable()
    ensures Playable(SecondThree()) && |SecondThree()| == 3
  {
    ThreePlayable(ShapeX(), ShapeC(), ShapeW());
  }

  lemma ThirdPlayable()
    ensures Playable(ThirdThree()) && |ThirdThree()| == 3
  {
    ThreePlayable(ShapeT(), ShapeS(), ShapeZ());
  }

  lemma FourthPlayable()
    ensures Playable(FourthThree()) && |FourthThree()| == 3
  {
    ThreePlayable(ShapeV(), ShapeL(), SmallL());
  }

  lemma FifthPlayable()
    ensures Playable(FifthThree()) && |FifthThree()| == 3
  {
    ThreePlayable(ShapeJ(), SmallJ(), ShapeK());
  }

  lemma SixthPlayable()
    ensures Playable(SixthThree()) && |SixthThree()| == 3
  {
    ThreePlayable(SmallK(), SmallS(), SmallZ());
  }

  /** Every orientation of every piece has exactly five squares, so the game can be played with the table. */
  lemma TablePlayable()
    ensures Playable(Shapes()) && |Shapes()| == 18
  {
    FirstPlayable();
    SecondPlayable();
    ThirdPlayable();
    FourthPlayable();
    FifthPlayable();
    SixthPlayable();
    JoinPlayable(FirstThree(), SecondThree());
    JoinPlayable(FirstThree() + SecondThree(), ThirdThree());
    JoinPlayable(FirstThree() + SecondThree() + ThirdThree(), FourthThree());
    JoinPlayable(FirstThree() + SecondThree() + ThirdThree() + FourthThree(), FifthThree());
    JoinPlayable(FirstThree() + SecondThree() + ThirdThree() + FourthThree() + FifthThree(), SixthThree());
  }

  // ----- The orientations are quarter turns, and the pieces hang together

  /** `h` is `g` turned by a quarter: the square at (i, j) comes to (j, 4 - i). */
  ghost predicate TurnOf(g: Grid, h: Grid) {
    forall i, j :: 0 <= i < 5 && 0 <= j < 5 ==> (Square(g, i, j) <==> Square(h, j, 4 - i))
  }

  predicate FiveByFive(g: Grid) {
    |g| == 5 && |g[0]| == |g[1]| == |g[2]| == |g[3]| == |g[4]| == 5
  }

  /** Row a of the turned grid is column a of the other, from its last row. */
  predicate TurnedRow(g: Grid, h: Grid, a: int)
    requires FiveByFive(g) && FiveByFive(h) && 0 <= a < 5
  {
    h[a][0] == g[4][a] && h[a][1] == g[3][a] && h[a][2] == g[2][a] && h[a][3] == g[1][a] && h[a][4] == g[0][a]
  }

  predicate Turned(g: Grid, h: Grid) {
    FiveByFive(g) && FiveByFive(h)
      && TurnedRow(g, h, 0) && TurnedRow(g, h, 1) && TurnedRow(g, h, 2) && TurnedRow(g, h, 3) && TurnedRow(g, h, 4)
  }

  lemma RowsTurned(g: Grid, h: Grid)
    requires Turned(g, h)
    ensures TurnOf(g, h)
  {
    forall i, j | 0 <= i < 5 && 0 <= j < 5 ensures Square(g, i, j) <==> Square(h, j, 4 - i) {
      assert TurnedRow(g, h, j) && |g[i]| == 5 && |h[j]| == 5;
    }
  }

  predicate Touch(a: (int, int), b: (int, int)) {
    (a.0 == b.0 && (a.1 == b.1 + 1 || b.1 == a.1 + 1)) || (a.1 == b.1 && (a.0 == b.0 + 1 || b.0 == a.0 + 1))
  }

  /** Five squares, each but the first touching one before it. */
  datatype Five = Five(a: (int, int), b: (int, int), c: (int, int), d: (int, int), e: (int, int))

  predicate Hangs(p: Five) {
    && Touch(p.a, p.b) && (Touch(p.a, p.c) || Touch(p.b, p.c))
    && (Touch(p.a, p.d) || Touch(p.b, p.d) || Touch(p.c, p.d))
    && (Touch(p.a, p.e) || Touch(p.b, p.e) || Touch(p.c, p.e) || Touch(p.d, p.e))
  }

  predicate Among(p: Five, i: int, j: int) {
    p.a == (i, j) || p.b == (i, j) || p.c == (i, j) || p.d == (i, j) || p.e == (i, j)
  }

  /** The squares of the grid hang together. */
  ghost predicate Connected(g: Grid) {
    exists p :: Hangs(p) && forall i, j :: Square(g, i, j) <==> Among(p, i, j)
  }

  predicate RowListed(g: Grid, p: Five, i: int)
    requires FiveByFive(g) && 0 <= i < 5
  {
    (g[i][0] == '1' <==> Among(p, i, 0)) && (g[i][1] == '1' <==> Among(p, i, 1)) && (g[i][2] == '1' <==> Among(p, i, 2))
    && (g[i][3] == '1' <==> Among(p, i, 3)) && (g[i][4] == '1' <==> Among(p, i, 4))
  }

  predicate InGrid(a: (int, int)) {
    0 <= a.0 < 5 && 0 <= a.1 < 5
  }

  /** These are the squares of the grid. */
  predicate Listed(g: Grid, p: Five) {
    && FiveByFive(g) && InGrid(p.a) && InGrid(p.b) && InGrid(p.c) && InGrid(p.d) && InGrid(p.e)
    && RowListed(g, p, 0) && RowListed(g, p, 1) && RowListed(g, p, 2) && RowListed(g, p, 3) && RowListed(g, p, 4)
  }

  lemma SquareListed(g: Grid, p: Five, i: int, j: int)
    requires Listed(g, p)
    ensures Square(g, i, j) <==> Among(p, i, j)
  {
    Within(g, i, j);
    if 0 <= i < 5 && 0 <= j < 5 {
      assert RowListed(g, p, i) && |g[i]| == 5;
      assert j == 0 || j == 1 || j == 2 || j == 3 || j == 4;
    }
  }

  lemma ListConnects(g: Grid, p: Five)
    requires Listed(g, p) && Hangs(p)
    ensures Connected(g)
  {
    forall i, j ensures Square(g, i, j) <==> Among(p, i, j) {
      SquareListed(g, p, i, j);
    }
  }

  function TurnedPlace(a: (int, int)): (int, int) {
    (a.1, 4 - a.0)
  }

  lemma TurnedHangs(p: Five)
    requires Hangs(p)
    ensures Hangs(Five(TurnedPlace(p.a), TurnedPlace(p.b), TurnedPlace(p.c), TurnedPlace(p.d), TurnedPlace(p.e)))
  {}

  /** A turned piece hangs together like the piece. */
  lemma TurnConnected(g: Grid, h: Grid)
    requires FiveByFive(g) && FiveByFive(h) && TurnOf(g, h) && Connected(g)
    ensures Connected(h)
  {
    var p :| Hangs(p) && forall i, j :: Square(g, i, j) <==> Among(p, i, j);
    var q := Five(TurnedPlace(p.a), TurnedPlace(p.b), TurnedPlace(p.c), TurnedPlace(p.d), TurnedPlace(p.e));
    TurnedHangs(p);
    forall i, j ensures Square(h, i, j) <==> Among(q, i, j) {
      SquareTurned(g, h, i, j);
      assert Among(q, i, j) <==> Among(p, 4 - j, i);
    }
  }

  lemma SquareTurned(g: Grid, h: Grid, i: int, j: int)
    requires FiveByFive(g) && FiveByFive(h) && TurnOf(g, h)
    ensures Square(h, i, j) <==> Square(g, 4 - j, i)
  {
    Within(h, i, j);
    Within(g, 4 - j, i);
    if 0 <= i < 5 && 0 <= j < 5 {
      assert Square(g, 4 - j, i) <==> Square(h, i, 4 - (4 - j));
    }
  }

  lemma Within(g: Grid, i: int, j: int)
    requires FiveByFive(g)
    ensures Square(g, i, j) ==> 0 <= i < 5 && 0 <= j < 5
  {
    if Square(g, i, j) {
      assert i == 0 || i == 1 || i == 2 || i == 3 || i == 4;
    }
  }

  /** Four orientations, each a quarter turn of the one before, and the first of the last; all hang together. */
  ghost predicate FourTurns(s: seq<Grid>) {
    |s| == 4 && TurnOf(s[0], s[1]) && TurnOf(s[1], s[2]) && TurnOf(s[2], s[3]) && TurnOf(s[3], s[0])
      && Connected(s[0]) && Connected(s[1]) && Connected(s[2]) && Connected(s[3])
  }

  lemma PieceTurns(s: seq<Grid>, p: Five)
    requires |s| == 4 && Turned(s[0], s[1]) && Turned(s[1], s[2]) && Turned(s[2], s[3]) && Turned(s[3], s[0])
    requires Listed(s[0], p) && Hangs(p)
    ensures FourTurns(s)
  {
    RowsTurned(s[0], s[1]);
    RowsTurned(s[1], s[2]);
    RowsTurned(s[2], s[3]);
    RowsTurned(s[3], s[0]);
    ListConnects(s[0], p);
    TurnConnected(s[0], s[1]);
    TurnConnected(s[1], s[2]);
    TurnConnected(s[2], s[3]);
  }

  ghost predicate AllTurn(shapes: seq<seq<Grid>>) {
    forall k :: 0 <= k < |shapes| ==> FourTurns(shapes[k])
  }

  lemma JoinTurns(a: seq<seq<Grid>>, b: seq<seq<Grid>>)
    requires AllTurn(a) && AllTurn(b)
    ensures AllTurn(a + b)
  {}

  lemma ThreeTurn(a: seq<Grid>, b: seq<Grid>, c: seq<Grid>)
    requires FourTurns(a) && FourTurns(b) && FourTurns(c)
    ensures AllTurn([a, b, c])
  {}

  lemma ShapePTurns()
    ensures FourTurns(ShapeP())
  {
    PieceTurns(ShapeP(), Five((1, 2), (2, 2), (2, 3), (3, 2), (3, 3)));
  }

  lemma ShapeQTurns()
    ensures FourTurns(ShapeQ())
  {
    PieceTurns(ShapeQ(), Five((1, 2), (2, 2), (2, 1), (3, 1), (3, 2)));
  }

  lemma ShapeITurns()
    ensures FourTurns(ShapeI())
  {
    PieceTurns(ShapeI(), Five((2, 0), (2, 1), (2, 2), (2, 3), (2, 4)));
  }

  lemma ShapeXTurns()
    ensures FourTurns(ShapeX())
  {
    PieceTurns(ShapeX(), Five((1, 2), (2, 2), (2, 1), (2, 3), (3, 2)));
  }

  lemma ShapeCTurns()
    ensures FourTurns(ShapeC())
  {
    PieceTurns(ShapeC(), Five((2, 1), (3, 1), (3, 2), (3, 3), (2, 3)));
  }

  lemma ShapeWTurns()
    ensures FourTurns(ShapeW())
  {
    PieceTurns(ShapeW(), Five((1, 1), (1, 2), (2, 2), (2, 3), (3, 3)));
  }

  lemma ShapeTTurns()
    ensures FourTurns(ShapeT())
  {
    PieceTurns(ShapeT(), Five((1, 2), (2, 2), (3, 2), (3, 1), (3, 3)));
  }

  lemma ShapeSTurns()
    ensures FourTurns(ShapeS())
  {
    PieceTurns(ShapeS(), Five((1, 3), (2, 3), (2, 2), (2, 1), (3, 1)));
  }

  lemma ShapeZTurns()
    ensures FourTurns(ShapeZ())
  {
    PieceTurns(ShapeZ(), Five((1, 1), (2, 1), (2, 2), (2, 3), (3, 3)));
  }

  lemma ShapeVTurns()
    ensures FourTurns(ShapeV())
  {
    PieceTurns(ShapeV(), Five((1, 1), (2, 1), (3, 1), (3, 2), (3, 3)));
  }

  lemma ShapeLTurns()
    ensures FourTurns(ShapeL())
  {
    PieceTurns(ShapeL(), Five((1, 1), (2, 1), (2, 2), (2, 3), (2, 4)));
  }

  lemma SmallLTurns()
    ensures FourTurns(SmallL())
  {
    PieceTurns(SmallL(), Five((1, 2), (2, 2), (2, 1), (2, 3), (2, 4)));
  }

  lemma ShapeJTurns()
    ensures FourTurns(ShapeJ())
  {
    PieceTurns(ShapeJ(), Five((1, 3), (2, 3), (2, 2), (2, 1), (2, 0)));
  }

  lemma SmallJTurns()
    ensures FourTurns(SmallJ())
  {
    PieceTurns(SmallJ(), Five((1, 2), (2, 2), (2, 1), (2, 0), (2, 3)));
  }

  lemma ShapeKTurns()
    ensures FourTurns(ShapeK())
  {
    PieceTurns(ShapeK(), Five((1, 2), (2, 2), (2, 1), (2, 3), (3, 1)));
  }

  lemma SmallKTurns()
    ensures FourTurns(SmallK())
  {
    PieceTurns(SmallK(), Five((1, 2), (2, 2), (2, 1), (2, 3), (3, 3)));
  }

  lemma SmallSTurns()
    ensures FourTurns(SmallS())
  {
    PieceTurns(SmallS(), Five((1, 1), (1, 2), (2, 2), (2, 3), (2, 4)));
  }

  lemma SmallZTurns()
    ensures FourTurns(SmallZ())
  {
    PieceTurns(SmallZ(), Five((1, 2), (1, 3), (2, 2), (2, 1), (2, 0)));
  }

  lemma FirstTurns()
    ensures AllTurn(FirstThree())
  {
    ShapePTurns();
    ShapeQTurns();
    ShapeITurns();
    ThreeTurn(ShapeP(), ShapeQ(), ShapeI());
  }

  lemma SecondTurns()
    ensures AllTurn(SecondThree())
  {
    ShapeXTurns();
    ShapeCTurns();
    ShapeWTurns();
    ThreeTurn(ShapeX(), ShapeC(), ShapeW());
  }

  lemma ThirdTurns()
    ensures AllTurn(ThirdThree())
  {
    ShapeTTurns();
    ShapeSTurns();
    ShapeZTurns();
    ThreeTurn(ShapeT(), ShapeS(), ShapeZ());
  }

  lemma FourthTurns()
    ensures AllTurn(FourthThree())
  {
    ShapeVTurns();
    ShapeLTurns();
    SmallLTurns();
    ThreeTurn(ShapeV(), ShapeL(), SmallL());
  }

  lemma FifthTurns()
    ensures AllTurn(FifthThree())
  {
    ShapeJTurns();
    SmallJTurns();
    ShapeKTurns();
    ThreeTurn(ShapeJ(), SmallJ(), ShapeK());
  }

  lemma SixthTurns()
    ensures AllTurn(SixthThree())
  {
    SmallKTurns();
    SmallSTurns();
    SmallZTurns();
    ThreeTurn(SmallK(), SmallS(), SmallZ());
  }

  /** In the whole table, each orientation of a piece is a quarter turn of the one before, and the five squares hang
    * together. */
  lemma TableTurns()
    ensures AllTurn(Shapes())
  {
    FirstTurns();
    SecondTurns();
    ThirdTurns();
    FourthTurns();
    FifthTurns();
    SixthTurns();
    JoinTurns(FirstThree(), SecondThree());
    JoinTurns(FirstThree() + SecondThree(), ThirdThree());
    JoinTurns(FirstThree() + SecondThree() + ThirdThree(), FourthThree());
    JoinTurns(FirstThree() + SecondThree() + ThirdThree() + FourthThree(), FifthThree());
    JoinTurns(FirstThree() + SecondThree() + ThirdThree() + FourthThree() + FifthThree(), SixthThree());
  }
}
