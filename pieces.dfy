/** Pieces and their move generators (lib/piece.rb).

    A piece is a value: its colour, its kind and the square it believes it stands on.
    The generators read a grid snapshot and never change it; they produce the
    pseudo-legal destinations of a piece in the order the source appends them. */
module Pieces {

  datatype Option<T> = None | Some(value: T)

  /** How a call of the source ends: with a value, with find_king's "King not
      found" error, or with Ruby's NoMethodError (a method called on nil, or a
      method no class defines). */
  datatype Raised<T> = Returned(value: T) | KingNotFound | NoMethodError

  datatype Color = White | Black

  datatype Kind = Pawn | Knight | Bishop | Rook | Queen | King

  /** A square as [row, column]; row 0 is black's back rank. Generators may form
      squares off the board, so both coordinates are unbounded integers. */
  type Pos = (int, int)

  datatype Piece = Piece(color: Color, kind: Kind, position: Pos)

  predicate IsGrid(g: seq<seq<Option<Piece>>>) {
    |g| == 8 && forall r :: 0 <= r < 8 ==> |g[r]| == 8
  }

  /** The 8x8 grid of optional pieces, indexed g[row][column]. */
  type Grid = g: seq<seq<Option<Piece>>> | IsGrid(g)
    witness seq(8, _ => seq(8, _ => None))

  function Opponent(c: Color): Color {
    if c == White then Black else White
  }

  /** within_bounds?: both coordinates lie in 0..7, that is, the square is one
      of the 64 squares numbered 8 * row + column in row-major order. */
  predicate WithinBounds(pos: Pos)
    ensures WithinBounds(pos) <==> 0 <= 8 * pos.0 + pos.1 < 64 && 0 <= pos.1 < 8
  {
    0 <= pos.0 <= 7 && 0 <= pos.1 <= 7
  }

  /** get_piece_at: nothing off the board, otherwise the grid cell. */
  function PieceAt(g: Grid, pos: Pos): (x: Option<Piece>)
    ensures x.Some? ==> WithinBounds(pos)
  {
    if WithinBounds(pos) then g[pos.0][pos.1] else None
  }

  /** An on-board square with nothing on it. */
  predicate Vacant(g: Grid, pos: Pos) {
    WithinBounds(pos) && PieceAt(g, pos) == None
  }

  /** A square holding a piece of the colour other than `color`. */
  predicate Enemy(g: Grid, color: Color, pos: Pos) {
    PieceAt(g, pos).Some? && PieceAt(g, pos).value.color != color
  }

  /** valid_move?: on the board, and either empty or holding an enemy piece. */
  predicate ValidMove(g: Grid, color: Color, pos: Pos)
    ensures ValidMove(g, color, pos) <==> Vacant(g, pos) || Enemy(g, color, pos)
  {
    WithinBounds(pos) && (PieceAt(g, pos) == None || PieceAt(g, pos).value.color != color)
  }

  function Translate(pos: Pos, off: Pos): Pos {
    (pos.0 + off.0, pos.1 + off.1)
  }

  /** The square k steps from `pos` along `d`. */
  function Shift(pos: Pos, d: Pos, k: int): Pos {
    (pos.0 + k * d.0, pos.1 + k * d.1)
  }

  /** A unit step of a sliding piece: each component in -1..1, not both zero. */
  predicate IsDirection(d: Pos) {
    -1 <= d.0 <= 1 && -1 <= d.1 <= 1 && d != (0, 0)
  }

  predicate AreDirections(dirs: seq<Pos>) {
    forall i :: 0 <= i < |dirs| ==> IsDirection(dirs[i])
  }

  const KingOffsets: seq<Pos> := [(-1, 0), (1, 0), (0, -1), (0, 1), (-1, -1), (-1, 1), (1, -1), (1, 1)]
  const QueenDirections: seq<Pos> := [(-1, 0), (1, 0), (0, -1), (0, 1), (-1, -1), (-1, 1), (1, -1), (1, 1)]
  const RookDirections: seq<Pos> := [(-1, 0), (1, 0), (0, -1), (0, 1)]
  const BishopDirections: seq<Pos> := [(-1, -1), (-1, 1), (1, -1), (1, 1)]
  const KnightOffsets: seq<Pos> := [(-2, -1), (-2, 1), (2, -1), (2, 1), (-1, -2), (-1, 2), (1, -2), (1, 2)]

  /** How far a square on the board still is from the edge along d: a termination
      measure for the ray scan, zero off the board. */
  function Room(cur: Pos, d: Pos): nat {
    if WithinBounds(cur) then 1 + EdgeDistance(cur.0, d.0) + EdgeDistance(cur.1, d.1) else 0
  }

  function EdgeDistance(x: int, dx: int): int {
    if dx > 0 then 7 - x else if dx < 0 then x else 0
  }

  /** The scan of one direction in directional_moves, from the candidate square
      `cur` onwards: it keeps a valid square, stops after an occupied one and
      stops before an invalid one. */
  function Ray(g: Grid, color: Color, cur: Pos, d: Pos): (r: seq<Pos>)
    requires IsDirection(d)
    ensures forall q :: q in r ==> ValidMove(g, color, q)
    ensures forall i :: 0 <= i < |r| - 1 ==> Vacant(g, r[i])
    decreases Room(cur, d)
  {
    if !ValidMove(g, color, cur) then []
    else if PieceAt(g, cur).Some? then [cur]
    else [cur] + Ray(g, color, Translate(cur, d), d)
  }

  /** directional_moves: the rays of all directions, concatenated in list order.
      Each ray starts one step away from the piece's own position. */
  function DirectionalMoves(g: Grid, p: Piece, dirs: seq<Pos>): (r: seq<Pos>)
    requires AreDirections(dirs)
    ensures forall q :: q in r ==> ValidMove(g, p.color, q)
  {
    if dirs == [] then []
    else Ray(g, p.color, Translate(p.position, dirs[0]), dirs[0]) + DirectionalMoves(g, p, dirs[1..])
  }

  /** The fixed-offset generator of King and Knight: each offset square that
      passes valid_move?, in offset-list order. */
  function OffsetMoves(g: Grid, p: Piece, offsets: seq<Pos>): (r: seq<Pos>)
    ensures |r| <= |offsets|
    ensures forall q :: q in r ==> ValidMove(g, p.color, q)
  {
    if offsets == [] then []
    else
      var q := Translate(p.position, offsets[0]);
      (if ValidMove(g, p.color, q) then [q] else []) + OffsetMoves(g, p, offsets[1..])
  }

  function PawnDirection(c: Color): int {
    if c == White then -1 else 1
  }

  predicate OnPawnStartRow(p: Piece) {
    (p.color == White && p.position.0 == 6) || (p.color == Black && p.position.0 == 1)
  }

  function OneStep(p: Piece): Pos {
    (p.position.0 + PawnDirection(p.color), p.position.1)
  }

  function TwoStep(p: Piece): Pos {
    (p.position.0 + 2 * PawnDirection(p.color), p.position.1)
  }

  function DiagonalLeft(p: Piece): Pos {
    (p.position.0 + PawnDirection(p.color), p.position.1 - 1)
  }

  function DiagonalRight(p: Piece): Pos {
    (p.position.0 + PawnDirection(p.color), p.position.1 + 1)
  }

  /** Pawn#valid_moves: a quiet step forward, a double step from the start row,
      and a diagonal step forward onto an enemy piece. */
  function PawnMoves(g: Grid, p: Piece): (r: seq<Pos>)
    ensures |r| <= 4
  {
    var one, two := OneStep(p), TwoStep(p);
    var left, right := DiagonalLeft(p), DiagonalRight(p);
    var single := if PieceAt(g, one) == None && ValidMove(g, p.color, one) then [one] else [];
    var double :=
      if OnPawnStartRow(p) && PieceAt(g, one) == None && PieceAt(g, two) == None && ValidMove(g, p.color, two)
      then [two] else [];
    var captureLeft := if PieceAt(g, left).Some? && PieceAt(g, left).value.color != p.color then [left] else [];
    var captureRight := if PieceAt(g, right).Some? && PieceAt(g, right).value.color != p.color then [right] else [];
    single + double + captureLeft + captureRight
  }

  /** valid_moves(board), dispatched on the kind of the piece. No generator
      yields a square off the board or one holding a piece of the mover's own
      colour. */
  function ValidMoves(g: Grid, p: Piece): (r: seq<Pos>)
    ensures forall q :: q in r ==> ValidMove(g, p.color, q)
  {
    match p.kind
    case King => OffsetMoves(g, p, KingOffsets)
    case Queen => DirectionalMoves(g, p, QueenDirections)
    case Rook => DirectionalMoves(g, p, RookDirections)
    case Bishop => DirectionalMoves(g, p, BishopDirections)
    case Knight => OffsetMoves(g, p, KnightOffsets)
    case Pawn => PawnMoves(g, p)
  }

  // ---------------------------------------------------------------------------
  // The ray scan, characterised square by square

  /** The k-th square from `cur` along d can be reached by the scan: every square
      before it is on the board and empty, and it is itself a valid destination. */
  predicate Reachable(g: Grid, color: Color, cur: Pos, d: Pos, k: int) {
    (forall j :: 0 <= j < k ==> Vacant(g, Shift(cur, d, j))) && ValidMove(g, color, Shift(cur, d, k))
  }

  lemma ShiftFromNext(cur: Pos, d: Pos, j: int)
    ensures Shift(Translate(cur, d), d, j) == Shift(cur, d, j + 1)
  {
  }

  /** Reaching k + 1 squares from `cur` is reaching k squares from the next square,
      provided `cur` itself is empty. */
  lemma ReachableStep(g: Grid, color: Color, cur: Pos, d: Pos, k: int)
    requires k >= 1
    ensures Reachable(g, color, cur, d, k) <==>
              Vacant(g, cur) && Reachable(g, color, Translate(cur, d), d, k - 1)
  {
    var next := Translate(cur, d);
    ShiftFromNext(cur, d, k - 1);
    assert Shift(cur, d, 0) == cur;
    if Reachable(g, color, cur, d, k) {
      forall j | 0 <= j < k - 1 ensures Vacant(g, Shift(next, d, j)) {
        ShiftFromNext(cur, d, j);
      }
    }
    if Vacant(g, cur) && Reachable(g, color, next, d, k - 1) {
      forall j | 0 <= j < k ensures Vacant(g, Shift(cur, d, j)) {
        if j > 0 {
          ShiftFromNext(cur, d, j - 1);
        }
      }
    }
  }

  /** The scan from `cur` lists the squares cur, cur + d, cur + 2d, ... in order. */
  lemma {:induction false} RaySquares(g: Grid, color: Color, cur: Pos, d: Pos)
    requires IsDirection(d)
    ensures forall i :: 0 <= i < |Ray(g, color, cur, d)| ==> Ray(g, color, cur, d)[i] == Shift(cur, d, i)
    decreases Room(cur, d)
  {
    var r := Ray(g, color, cur, d);
    if ValidMove(g, color, cur) && PieceAt(g, cur).None? {
      var next := Translate(cur, d);
      RaySquares(g, color, next, d);
      assert r == [cur] + Ray(g, color, next, d);
      forall i | 1 <= i < |r| ensures r[i] == Shift(cur, d, i) {
        ShiftFromNext(cur, d, i - 1);
      }
    }
  }

  /** The length of the scan from `cur` is exactly the number of reachable
      squares: it stops before the edge and before a same-colour piece, and it
      includes the first enemy piece and nothing beyond it. */
  lemma {:induction false} RayLengthReachable(g: Grid, color: Color, cur: Pos, d: Pos)
    requires IsDirection(d)
    ensures forall k :: 0 <= k ==> (k < |Ray(g, color, cur, d)| <==> Reachable(g, color, cur, d, k))
    decreases Room(cur, d)
  {
    var r := Ray(g, color, cur, d);
    assert Shift(cur, d, 0) == cur;
    if !ValidMove(g, color, cur) || PieceAt(g, cur).Some? {
      forall k | 1 <= k ensures !Reachable(g, color, cur, d, k) {
        assert !Vacant(g, Shift(cur, d, 0));
      }
    } else {
      var next := Translate(cur, d);
      RayLengthReachable(g, color, next, d);
      assert |r| == 1 + |Ray(g, color, next, d)|;
      forall k | 1 <= k ensures k < |r| <==> Reachable(g, color, cur, d, k) {
        ReachableStep(g, color, cur, d, k);
      }
    }
  }

  /** From a square on the board a ray holds at most 7 squares. */
  lemma RayLength(g: Grid, color: Color, pos: Pos, d: Pos)
    requires WithinBounds(pos) && IsDirection(d)
    ensures |Ray(g, color, Translate(pos, d), d)| <= 7
  {
    var start := Translate(pos, d);
    var r := Ray(g, color, start, d);
    RaySquares(g, color, start, d);
    RayLengthReachable(g, color, start, d);
    if |r| > 0 {
      var n := |r|;
      ShiftFromNext(pos, d, n - 1);
      assert WithinBounds(Shift(pos, d, n)) by {
        assert Reachable(g, color, start, d, n - 1);
        assert r[n - 1] == Shift(pos, d, n);
      }
      ShiftStaysNear(pos, d, n);
    }
  }

  /** Both ends of a straight or diagonal walk on the board are at most 7 steps apart. */
  lemma ShiftStaysNear(pos: Pos, d: Pos, n: int)
    requires IsDirection(d) && n >= 0
    requires WithinBounds(pos) && WithinBounds(Shift(pos, d, n))
    ensures n <= 7
  {
    if d.0 == 1 {
      assert n * d.0 == n;
    } else if d.0 == -1 {
      assert n * d.0 == -n;
    } else if d.1 == 1 {
      assert n * d.1 == n;
    } else {
      assert n * d.1 == -n;
    }
  }

  /** A square is a destination of directional_moves iff it is reachable along
      one of the given directions, counting from the square next to the piece. */
  lemma {:induction false} DirectionalMovesExact(g: Grid, p: Piece, dirs: seq<Pos>, q: Pos)
    requires AreDirections(dirs)
    ensures q in DirectionalMoves(g, p, dirs) <==>
              exists i, k :: 0 <= i < |dirs| && 0 <= k &&
                q == Shift(Translate(p.position, dirs[i]), dirs[i], k) &&
                Reachable(g, p.color, Translate(p.position, dirs[i]), dirs[i], k)
  {
    if dirs != [] {
      var d := dirs[0];
      var start := Translate(p.position, d);
      var r := Ray(g, p.color, start, d);
      RaySquares(g, p.color, start, d);
      RayLengthReachable(g, p.color, start, d);
      DirectionalMovesExact(g, p, dirs[1..], q);
      if q in r {
        var k :| 0 <= k < |r| && r[k] == q;
        assert Reachable(g, p.color, start, d, k);
      }
      if exists k :: 0 <= k && q == Shift(start, d, k) && Reachable(g, p.color, start, d, k) {
        var k :| 0 <= k && q == Shift(start, d, k) && Reachable(g, p.color, start, d, k);
        assert r[k] == q;
      }
      if q in DirectionalMoves(g, p, dirs[1..]) {
        var i, k :| 0 <= i < |dirs[1..]| && 0 <= k &&
                q == Shift(Translate(p.position, dirs[1..][i]), dirs[1..][i], k) &&
                Reachable(g, p.color, Translate(p.position, dirs[1..][i]), dirs[1..][i], k);
        assert dirs[i + 1] == dirs[1..][i];
      }
      if exists i, k :: 1 <= i < |dirs| && 0 <= k &&
           q == Shift(Translate(p.position, dirs[i]), dirs[i], k) &&
           Reachable(g, p.color, Translate(p.position, dirs[i]), dirs[i], k) {
        var i, k :| 1 <= i < |dirs| && 0 <= k &&
                q == Shift(Translate(p.position, dirs[i]), dirs[i], k) &&
                Reachable(g, p.color, Translate(p.position, dirs[i]), dirs[i], k);
        assert dirs[1..][i - 1] == dirs[i];
      }
    }
  }

  /** directional_moves over a concatenation of direction lists is the
      concatenation of the two scans. */
  lemma {:induction false} DirectionalMovesAppend(g: Grid, p: Piece, a: seq<Pos>, b: seq<Pos>)
    requires AreDirections(a) && AreDirections(b)
    ensures AreDirections(a + b)
    ensures DirectionalMoves(g, p, a + b) == DirectionalMoves(g, p, a) + DirectionalMoves(g, p, b)
  {
    if a != [] {
      assert (a + b)[0] == a[0];
      assert (a + b)[1..] == a[1..] + b;
      DirectionalMovesAppend(g, p, a[1..], b);
    } else {
      assert a + b == b;
    }
  }

  // ---------------------------------------------------------------------------
  // Per-kind geometry

  /** A pawn's destinations: the square ahead iff it is on the board and empty;
      the square two ahead iff the pawn is on its start row and both squares
      ahead are on the board and empty; a forward diagonal iff it holds an enemy
      piece; and nothing else. */
  lemma PawnMovesExact(g: Grid, p: Piece)
    requires p.kind == Pawn
    ensures OneStep(p) in ValidMoves(g, p) <==> Vacant(g, OneStep(p))
    ensures TwoStep(p) in ValidMoves(g, p) <==>
              OnPawnStartRow(p) && Vacant(g, OneStep(p)) && Vacant(g, TwoStep(p))
    ensures DiagonalLeft(p) in ValidMoves(g, p) <==> Enemy(g, p.color, DiagonalLeft(p))
    ensures DiagonalRight(p) in ValidMoves(g, p) <==> Enemy(g, p.color, DiagonalRight(p))
    ensures forall q :: q in ValidMoves(g, p) ==>
              q == OneStep(p) || q == TwoStep(p) || q == DiagonalLeft(p) || q == DiagonalRight(p)
  {
  }

  /** The fixed-offset generator keeps exactly the offset squares that pass
      valid_move?; intervening squares play no part. */
  lemma {:induction false} OffsetMovesExact(g: Grid, p: Piece, offsets: seq<Pos>, q: Pos)
    ensures q in OffsetMoves(g, p, offsets) <==>
              exists i :: 0 <= i < |offsets| && q == Translate(p.position, offsets[i]) && ValidMove(g, p.color, q)
  {
    if offsets != [] {
      OffsetMovesExact(g, p, offsets[1..], q);
      if q in OffsetMoves(g, p, offsets[1..]) {
        var i :| 0 <= i < |offsets[1..]| && q == Translate(p.position, offsets[1..][i]);
        assert offsets[i + 1] == offsets[1..][i];
      }
      if exists i :: 1 <= i < |offsets| && q == Translate(p.position, offsets[i]) && ValidMove(g, p.color, q) {
        var i :| 1 <= i < |offsets| && q == Translate(p.position, offsets[i]) && ValidMove(g, p.color, q);
        assert offsets[1..][i - 1] == offsets[i];
      }
    }
  }

  /** A king moves to exactly the valid squares adjacent to it. */
  lemma KingMovesAdjacent(g: Grid, p: Piece, q: Pos)
    requires p.kind == King
    ensures q in ValidMoves(g, p) <==>
              ValidMove(g, p.color, q) && q != p.position &&
              -1 <= q.0 - p.position.0 <= 1 && -1 <= q.1 - p.position.1 <= 1
  {
    OffsetMovesExact(g, p, KingOffsets, q);
    var delta := (q.0 - p.position.0, q.1 - p.position.1);
    if ValidMove(g, p.color, q) && q != p.position && -1 <= delta.0 <= 1 && -1 <= delta.1 <= 1 {
      assert delta in KingOffsets;
      var i :| 0 <= i < |KingOffsets| && KingOffsets[i] == delta;
      assert q == Translate(p.position, KingOffsets[i]);
    }
  }

  /** A knight moves to exactly the valid squares an L-shape away, whatever
      stands in between. */
  lemma KnightMovesLShaped(g: Grid, p: Piece, q: Pos)
    requires p.kind == Knight
    ensures q in ValidMoves(g, p) <==>
              ValidMove(g, p.color, q) &&
              var dr, dc := q.0 - p.position.0, q.1 - p.position.1;
              (dr * dr == 4 && dc * dc == 1) || (dr * dr == 1 && dc * dc == 4)
  {
    OffsetMovesExact(g, p, KnightOffsets, q);
    var delta := (q.0 - p.position.0, q.1 - p.position.1);
    var dr, dc := delta.0, delta.1;
    if ValidMove(g, p.color, q) && ((dr * dr == 4 && dc * dc == 1) || (dr * dr == 1 && dc * dc == 4)) {
      SquareRoots(dr);
      SquareRoots(dc);
      assert delta in KnightOffsets;
      var i :| 0 <= i < |KnightOffsets| && KnightOffsets[i] == delta;
      assert q == Translate(p.position, KnightOffsets[i]);
    }
  }

  lemma SquareRoots(x: int)
    ensures x * x == 1 ==> x == 1 || x == -1
    ensures x * x == 4 ==> x == 2 || x == -2
  {
    if x > 2 || x < -2 {
      assert x * x > 4;
    }
  }

  /** Every destination of directional_moves is a whole number of steps away
      from the piece along one of the directions. */
  lemma DirectionalMovesOnLines(g: Grid, p: Piece, dirs: seq<Pos>, q: Pos)
    requires AreDirections(dirs) && q in DirectionalMoves(g, p, dirs)
    ensures exists i, m :: 0 <= i < |dirs| && 1 <= m && q == Shift(p.position, dirs[i], m)
  {
    DirectionalMovesExact(g, p, dirs, q);
    var i, k :| 0 <= i < |dirs| && 0 <= k && q == Shift(Translate(p.position, dirs[i]), dirs[i], k);
    ShiftFromNext(p.position, dirs[i], k);
  }

  lemma StraightShift(pos: Pos, d: Pos, m: int)
    requires IsDirection(d) && (d.0 == 0 || d.1 == 0) && m >= 1
    ensures var q := Shift(pos, d, m); q != pos && (q.0 == pos.0 || q.1 == pos.1)
  {
  }

  lemma DiagonalShift(pos: Pos, d: Pos, m: int)
    requires IsDirection(d) && d.0 != 0 && d.1 != 0 && m >= 1
    ensures var q := Shift(pos, d, m);
              q != pos && (q.0 - pos.0 == q.1 - pos.1 || q.0 - pos.0 == pos.1 - q.1)
  {
    if d.0 == d.1 {
      assert m * d.0 == m * d.1;
    } else {
      assert d.0 == -d.1;
      assert m * d.0 == -(m * d.1);
    }
  }

  /** Every destination of a rook shares its row or its column. */
  lemma RookMovesStraight(g: Grid, p: Piece, q: Pos)
    requires p.kind == Rook && q in ValidMoves(g, p)
    ensures q != p.position && (q.0 == p.position.0 || q.1 == p.position.1)
  {
    DirectionalMovesOnLines(g, p, RookDirections, q);
    var i, m :| 0 <= i < |RookDirections| && 1 <= m && q == Shift(p.position, RookDirections[i], m);
    StraightShift(p.position, RookDirections[i], m);
  }

  /** Every destination of a bishop lies on one of its diagonals. */
  lemma BishopMovesDiagonal(g: Grid, p: Piece, q: Pos)
    requires p.kind == Bishop && q in ValidMoves(g, p)
    ensures q != p.position
    ensures q.0 - p.position.0 == q.1 - p.position.1 || q.0 - p.position.0 == p.position.1 - q.1
  {
    DirectionalMovesOnLines(g, p, BishopDirections, q);
    var i, m :| 0 <= i < |BishopDirections| && 1 <= m && q == Shift(p.position, BishopDirections[i], m);
    DiagonalShift(p.position, BishopDirections[i], m);
  }

  /** The queen's scan is the rook's scan followed by the bishop's. */
  lemma QueenIsRookThenBishop(g: Grid, p: Piece)
    requires p.kind == Queen
    ensures ValidMoves(g, p) ==
              ValidMoves(g, p.(kind := Rook)) + ValidMoves(g, p.(kind := Bishop))
  {
    assert QueenDirections == RookDirections + BishopDirections;
    DirectionalMovesAppend(g, p, RookDirections, BishopDirections);
    assert DirectionalMoves(g, p.(kind := Rook), RookDirections) == DirectionalMoves(g, p, RookDirections) by {
      DirectionalMovesSameColor(g, p, p.(kind := Rook), RookDirections);
    }
    assert DirectionalMoves(g, p.(kind := Bishop), BishopDirections) == DirectionalMoves(g, p, BishopDirections) by {
      DirectionalMovesSameColor(g, p, p.(kind := Bishop), BishopDirections);
    }
  }

  /** The scan depends on the piece only through its colour and position. */
  lemma {:induction false} DirectionalMovesSameColor(g: Grid, p: Piece, p': Piece, dirs: seq<Pos>)
    requires AreDirections(dirs)
    requires p.color == p'.color && p.position == p'.position
    ensures DirectionalMoves(g, p, dirs) == DirectionalMoves(g, p', dirs)
  {
    if dirs != [] {
      DirectionalMovesSameColor(g, p, p', dirs[1..]);
    }
  }

  /** A sliding piece whose first square in every direction is off the board or
      holds a piece of its own colour generates no move at all. */
  lemma {:induction false} DirectionalMovesBlocked(g: Grid, p: Piece, dirs: seq<Pos>)
    requires AreDirections(dirs)
    requires forall d :: d in dirs ==> !ValidMove(g, p.color, Translate(p.position, d))
    ensures DirectionalMoves(g, p, dirs) == []
  {
    if dirs != [] {
      assert dirs[0] in dirs;
      DirectionalMovesBlocked(g, p, dirs[1..]);
    }
  }
}
