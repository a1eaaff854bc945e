/** The board (lib/board.rb): an 8x8 grid of optional pieces changed in place,
    king search, check detection by the opponent's generated moves, and the
    simulate-then-revert checkmate search.

    The first half states the board's behaviour on grid values; the class Board
    at the end holds the grid and is proved against those functions. */
module Boards {
  import opened Pieces

  // ---------------------------------------------------------------------------
  // Grid values

  /** The kind standing in column `col` of a back row: R, N, B, Q, K, B, N, R. */
  function BackRowKind(col: int): Kind {
    if col == 0 || col == 7 then Rook
    else if col == 1 || col == 6 then Knight
    else if col == 2 || col == 5 then Bishop
    else if col == 3 then Queen
    else King
  }

  /** What setup_pieces puts on square (r, col) of an empty grid. */
  function InitialSquare(r: int, col: int): Option<Piece> {
    if r == 0 then Some(Piece(Black, BackRowKind(col), (r, col)))
    else if r == 1 then Some(Piece(Black, Pawn, (r, col)))
    else if r == 6 then Some(Piece(White, Pawn, (r, col)))
    else if r == 7 then Some(Piece(White, BackRowKind(col), (r, col)))
    else None
  }

  /** The same square's contents seen from the other side of the board: the
      colour swapped and the row reflected. */
  function Mirror(x: Option<Piece>): Option<Piece> {
    if x.None? then None
    else Some(x.value.(color := Opponent(x.value.color), position := (7 - x.value.position.0, x.value.position.1)))
  }

  /** The grid after setup_pieces: every piece records its own square, and
      black's half is white's half reflected across the middle of the board. */
  function InitialGrid(): (g: Grid)
    ensures PositionsConsistent(g)
    ensures forall r, col :: 0 <= r < 8 && 0 <= col < 8 ==> g[7 - r][col] == Mirror(g[r][col])
  {
    seq(8, r => seq(8, col => InitialSquare(r, col)))
  }

  /** The board invariant: every piece's position is the square it is stored under. */
  ghost predicate PositionsConsistent(g: Grid) {
    forall r, col :: 0 <= r < 8 && 0 <= col < 8 && g[r][col].Some? ==> g[r][col].value.position == (r, col)
  }

  lemma GridExt(a: Grid, b: Grid)
    requires forall r, col :: 0 <= r < 8 && 0 <= col < 8 ==> a[r][col] == b[r][col]
    ensures a == b
  {
    forall r | 0 <= r < 8 ensures a[r] == b[r] {
    }
  }

  function SetCell(g: Grid, pos: Pos, x: Option<Piece>): (h: Grid)
    requires WithinBounds(pos)
  {
    g[pos.0 := g[pos.0][pos.1 := x]]
  }

  /** The effect of move_piece once its checks have passed, which is also the
      temporary move of move_removes_check?: the piece lands on `to` with its
      position updated, then `from` is cleared. Whatever stood on `to` is gone,
      and with from == to the piece itself disappears. */
  function ApplyMove(g: Grid, from: Pos, to: Pos): (h: Grid)
    requires WithinBounds(from) && WithinBounds(to) && g[from.0][from.1].Some?
    ensures from != to ==> h[to.0][to.1] == Some(g[from.0][from.1].value.(position := to))
    ensures h[from.0][from.1] == None
    ensures forall r, col :: 0 <= r < 8 && 0 <= col < 8 && (r, col) != from && (r, col) != to ==>
              h[r][col] == g[r][col]
    ensures PositionsConsistent(g) ==> PositionsConsistent(h)
  {
    var p := g[from.0][from.1].value;
    SetCell(SetCell(g, to, Some(p.(position := to))), from, None)
  }

  // ---------------------------------------------------------------------------
  // Finding the king

  predicate IsKingAt(g: Grid, c: Color, r: int, col: int)
    requires 0 <= r < 8 && 0 <= col < 8
  {
    g[r][col].Some? && g[r][col].value.kind == King && g[r][col].value.color == c
  }

  ghost predicate HasKing(g: Grid, c: Color) {
    exists r, col :: 0 <= r < 8 && 0 <= col < 8 && IsKingAt(g, c, r, col)
  }

  /** Square a comes strictly before square b in row-major order. */
  predicate Before(a: Pos, b: Pos) {
    a.0 < b.0 || (a.0 == b.0 && a.1 < b.1)
  }

  /** k is the first square in row-major order holding a king of colour c. */
  ghost predicate FirstKing(g: Grid, c: Color, k: Pos) {
    WithinBounds(k) && IsKingAt(g, c, k.0, k.1) &&
    forall r, col :: 0 <= r < 8 && 0 <= col < 8 && Before((r, col), k) ==> !IsKingAt(g, c, r, col)
  }

  /** Among the kings of colour c there is a first one in row-major order. */
  lemma {:induction false} FirstKingExists(g: Grid, c: Color, k: Pos)
    requires WithinBounds(k) && IsKingAt(g, c, k.0, k.1)
    ensures exists first :: FirstKing(g, c, first)
    decreases 8 * k.0 + k.1
  {
    if !FirstKing(g, c, k) {
      var r, col :| 0 <= r < 8 && 0 <= col < 8 && Before((r, col), k) && IsKingAt(g, c, r, col);
      FirstKingExists(g, c, (r, col));
    }
  }

  /** find_king: the first square in row-major order holding a king of colour c;
      None where the source raises "King not found". */
  ghost function FindKingSpec(g: Grid, c: Color): (k: Option<Pos>)
    ensures k.Some? ==> FirstKing(g, c, k.value)
    ensures k.None? <==> !HasKing(g, c)
  {
    if HasKing(g, c) then
      var r, col :| 0 <= r < 8 && 0 <= col < 8 && IsKingAt(g, c, r, col);
      FirstKingExists(g, c, (r, col));
      var first :| FirstKing(g, c, first);
      Some(first)
    else None
  }

  // ---------------------------------------------------------------------------
  // Check and checkmate

  /** The piece on (r, col) belongs to the other side and its generated moves
      include `target`. */
  predicate Attacks(g: Grid, c: Color, r: int, col: int, target: Pos)
    requires 0 <= r < 8 && 0 <= col < 8
  {
    g[r][col].Some? && g[r][col].value.color != c && target in ValidMoves(g, g[r][col].value)
  }

  /** Some square before (r, col) in row-major order holds a piece of the other
      colour with `target` among its generated moves; (r, 8) and (r + 1, 0)
      denote the same point of the scan. */
  ghost predicate ThreatBefore(g: Grid, c: Color, target: Pos, r: int, col: int)
    requires 0 <= r <= 8 && 0 <= col <= 8
    decreases r, col
  {
    if col == 0 then r > 0 && ThreatBefore(g, c, target, r - 1, 8)
    else ThreatBefore(g, c, target, r, col - 1) || (r < 8 && Attacks(g, c, r, col - 1, target))
  }

  /** The scan of in_check? over the whole grid finds an attacker of `target`. */
  ghost predicate Threatened(g: Grid, c: Color, target: Pos) {
    ThreatBefore(g, c, target, 8, 0)
  }

  /** The scan up to (r, col) finds an attacker exactly when one stands on a
      square before (r, col). */
  lemma {:induction false} ThreatBeforeExact(g: Grid, c: Color, target: Pos, r: int, col: int)
    requires 0 <= r <= 8 && 0 <= col <= 8
    ensures ThreatBefore(g, c, target, r, col) <==>
              exists r', col' :: 0 <= r' < 8 && 0 <= col' < 8 && Before((r', col'), (r, col)) &&
                Attacks(g, c, r', col', target)
    decreases r, col
  {
    var (pr, pc) := if col == 0 then (r - 1, 8) else (r, col - 1);
    if col == 0 && r == 0 {
      return;
    }
    ThreatBeforeExact(g, c, target, pr, pc);
    if ThreatBefore(g, c, target, r, col) {
      if ThreatBefore(g, c, target, pr, pc) {
        var r', col' :| 0 <= r' < 8 && 0 <= col' < 8 && Before((r', col'), (pr, pc)) && Attacks(g, c, r', col', target);
        assert Before((r', col'), (r, col));
      } else {
        assert Attacks(g, c, r, col - 1, target) && Before((r, col - 1), (r, col));
      }
    } else {
      forall r', col' | 0 <= r' < 8 && 0 <= col' < 8 && Before((r', col'), (r, col))
        ensures !Attacks(g, c, r', col', target)
      {
        if (r', col') != (r, col - 1) {
          assert Before((r', col'), (pr, pc));
        }
      }
    }
  }

  /** Threatened means some piece of the other colour has `target` among its
      generated moves. */
  lemma ThreatenedExact(g: Grid, c: Color, target: Pos)
    ensures Threatened(g, c, target) <==>
              exists r, col :: 0 <= r < 8 && 0 <= col < 8 && Attacks(g, c, r, col, target)
  {
    ThreatBeforeExact(g, c, target, 8, 0);
  }

  /** in_check?: some piece of the other colour has the square of c's king (the
      first one found by find_king) among its generated moves; no self-check
      filtering is applied to those moves. False when c has no king, where the
      source raises instead. */
  ghost predicate InCheckSpec(g: Grid, c: Color)
    ensures InCheckSpec(g, c) <==> FindKingSpec(g, c).Some? && Threatened(g, c, FindKingSpec(g, c).value)
  {
    FirstKingIsFound(g, c);
    exists k :: FirstKing(g, c, k) && Threatened(g, c, k)
  }

  /** Every first king is the square find_king returns. */
  lemma FirstKingIsFound(g: Grid, c: Color)
    ensures forall k :: FirstKing(g, c, k) ==> FindKingSpec(g, c) == Some(k)
  {
    forall k | FirstKing(g, c, k) ensures FindKingSpec(g, c) == Some(k) {
      assert IsKingAt(g, c, k.0, k.1);
      FirstKingUnique(g, c, k, FindKingSpec(g, c).value);
    }
  }

  /** in_check? in the source's terms: c is in check exactly when find_king
      finds its king and some piece of the other colour generates that square. */
  lemma InCheckAttacked(g: Grid, c: Color)
    ensures InCheckSpec(g, c) <==>
              FindKingSpec(g, c).Some? &&
              exists r, col :: 0 <= r < 8 && 0 <= col < 8 && Attacks(g, c, r, col, FindKingSpec(g, c).value)
  {
    if FindKingSpec(g, c).Some? {
      ThreatenedExact(g, c, FindKingSpec(g, c).value);
    }
  }

  /** There is only one first king. */
  lemma FirstKingUnique(g: Grid, c: Color, a: Pos, b: Pos)
    requires FirstKing(g, c, a) && FirstKing(g, c, b)
    ensures a == b
  {
    assert !Before(a, b) && !Before(b, a);
  }

  /** A generated move of one's own piece never lands on one's own king, so the
      king is still on the board after the move is simulated. */
  lemma OwnMoveKeepsKing(g: Grid, c: Color, from: Pos, q: Pos)
    requires HasKing(g, c) && WithinBounds(from)
    requires g[from.0][from.1].Some? && g[from.0][from.1].value.color == c
    requires q in ValidMoves(g, g[from.0][from.1].value)
    ensures WithinBounds(q)
    ensures HasKing(ApplyMove(g, from, q), c)
  {
    var h := ApplyMove(g, from, q);
    var r, col :| 0 <= r < 8 && 0 <= col < 8 && IsKingAt(g, c, r, col);
    if (r, col) == from {
      assert IsKingAt(h, c, q.0, q.1);
    } else {
      assert (r, col) != q;
      assert IsKingAt(h, c, r, col);
    }
  }

  /** Moving the piece on (r, col), of colour c, to its generated destination q
      gets c out of check. (Generated destinations are always on the board, by
      the contract of ValidMoves, so the bounds test only makes ApplyMove
      well-defined.) */
  ghost predicate Escapes(g: Grid, c: Color, r: int, col: int, q: Pos)
    requires 0 <= r < 8 && 0 <= col < 8
  {
    g[r][col].Some? && g[r][col].value.color == c && q in ValidMoves(g, g[r][col].value) &&
    WithinBounds(q) && !InCheckSpec(ApplyMove(g, (r, col), q), c)
  }

  /** Moving the piece on `from` to q leaves c in check. */
  ghost predicate StaysInCheck(g: Grid, c: Color, from: Pos, q: Pos)
    requires WithinBounds(from) && g[from.0][from.1].Some?
  {
    WithinBounds(q) && InCheckSpec(ApplyMove(g, from, q), c)
  }

  /** Each of the first n moves in qs, made from `from`, leaves c in check. */
  ghost predicate AllStayInCheck(g: Grid, c: Color, from: Pos, qs: seq<Pos>, n: int)
    requires WithinBounds(from) && g[from.0][from.1].Some? && 0 <= n <= |qs|
  {
    n == 0 || (AllStayInCheck(g, c, from, qs, n - 1) && StaysInCheck(g, c, from, qs[n - 1]))
  }

  lemma {:induction false} AllStayInCheckMember(g: Grid, c: Color, from: Pos, qs: seq<Pos>, n: int, i: int)
    requires WithinBounds(from) && g[from.0][from.1].Some? && 0 <= n <= |qs|
    requires AllStayInCheck(g, c, from, qs, n) && 0 <= i < n
    ensures StaysInCheck(g, c, from, qs[i])
  {
    if i == n - 1 {
      assert AllStayInCheck(g, c, from, qs, n - 1) && StaysInCheck(g, c, from, qs[n - 1]);
    } else {
      AllStayInCheckMember(g, c, from, qs, n - 1, i);
    }
  }

  /** When every generated destination of the piece on (r, col) leaves c in
      check, that piece has no escape. */
  lemma NoEscapeWhenAllStay(g: Grid, c: Color, r: int, col: int)
    requires 0 <= r < 8 && 0 <= col < 8 && g[r][col].Some?
    requires AllStayInCheck(g, c, (r, col), ValidMoves(g, g[r][col].value), |ValidMoves(g, g[r][col].value)|)
    ensures !CanEscape(g, c, r, col)
  {
    var moves := ValidMoves(g, g[r][col].value);
    forall q | q in moves ensures StaysInCheck(g, c, (r, col), q) {
      var i :| 0 <= i < |moves| && moves[i] == q;
      AllStayInCheckMember(g, c, (r, col), moves, |moves|, i);
    }
  }

  /** Some generated destination of the piece on (r, col) gets c out of check. */
  ghost predicate CanEscape(g: Grid, c: Color, r: int, col: int)
    requires 0 <= r < 8 && 0 <= col < 8
  {
    exists q :: Escapes(g, c, r, col, q)
  }

  /** No square before (r, col) in row-major order holds a piece that can get c
      out of check; (r, 8) and (r + 1, 0) denote the same point of the scan. */
  ghost predicate NoEscapeBefore(g: Grid, c: Color, r: int, col: int)
    requires 0 <= r <= 8 && 0 <= col <= 8
    decreases r, col
  {
    if col == 0 then r == 0 || NoEscapeBefore(g, c, r - 1, 8)
    else NoEscapeBefore(g, c, r, col - 1) && (r == 8 || !CanEscape(g, c, r, col - 1))
  }

  lemma {:induction false} NoEscapeBeforeSquare(g: Grid, c: Color, r: int, col: int, r': int, col': int)
    requires 0 <= r <= 8 && 0 <= col <= 8 && NoEscapeBefore(g, c, r, col)
    requires 0 <= r' < 8 && 0 <= col' < 8 && Before((r', col'), (r, col))
    ensures !CanEscape(g, c, r', col')
    decreases r, col
  {
    if col == 0 {
      NoEscapeBeforeSquare(g, c, r - 1, 8, r', col');
    } else if (r', col') != (r, col - 1) {
      NoEscapeBeforeSquare(g, c, r, col - 1, r', col');
    }
  }

  /** The completed scan of checkmate? found no escape on any square. */
  lemma NoEscapeAnywhere(g: Grid, c: Color)
    requires NoEscapeBefore(g, c, 8, 0)
    ensures forall r, col :: 0 <= r < 8 && 0 <= col < 8 ==> !CanEscape(g, c, r, col)
  {
    forall r, col | 0 <= r < 8 && 0 <= col < 8 ensures !CanEscape(g, c, r, col) {
      NoEscapeBeforeSquare(g, c, 8, 0, r, col);
    }
  }

  /** checkmate?: c is in check and no (own piece, generated destination) pair
      gets it out of check. */
  ghost predicate CheckmateSpec(g: Grid, c: Color)
    ensures CheckmateSpec(g, c) ==> FindKingSpec(g, c).Some? && Threatened(g, c, FindKingSpec(g, c).value)
  {
    InCheckSpec(g, c) && forall r, col :: 0 <= r < 8 && 0 <= col < 8 ==> !CanEscape(g, c, r, col)
  }

  /** Putting the moved piece back on `from` (with its position reset) and the
      old contents back on `to` undoes ApplyMove, except that the piece's
      position now reads `from`. */
  lemma UndoMove(g: Grid, from: Pos, to: Pos)
    requires WithinBounds(from) && WithinBounds(to) && g[from.0][from.1].Some?
    ensures var restored := Some(g[from.0][from.1].value.(position := from));
            SetCell(SetCell(ApplyMove(g, from, to), from, restored), to,
                    if to == from then restored else g[to.0][to.1])
            == SetCell(g, from, restored)
    ensures PositionsConsistent(g) ==> SetCell(g, from, Some(g[from.0][from.1].value.(position := from))) == g
  {
    var restored := Some(g[from.0][from.1].value.(position := from));
    GridExt(SetCell(SetCell(ApplyMove(g, from, to), from, restored), to,
                    if to == from then restored else g[to.0][to.1]),
            SetCell(g, from, restored));
    if PositionsConsistent(g) {
      GridExt(SetCell(g, from, restored), g);
    }
  }

  // ---------------------------------------------------------------------------
  // The starting position

  /** At the start every neighbour of a back-row piece is off the board or holds
      a piece of the same colour: rows 0-1 are all black, rows 6-7 all white. */
  lemma InitialBackRowHemmed(r: int, col: int, d: Pos)
    requires (r == 0 || r == 7) && 0 <= col < 8 && IsDirection(d)
    ensures InitialGrid()[r][col].Some?
    ensures !ValidMove(InitialGrid(), InitialGrid()[r][col].value.color, Translate((r, col), d))
  {
  }

  /** The forward half of the board for colour c: rows 0-3 for black, rows 4-7
      for white. */
  predicate InOwnHalf(c: Color, q: Pos) {
    (c == Black ==> q.0 <= 3) && (c == White ==> q.0 >= 4)
  }

  /** At the start a pawn's steps and captures stay in its own half. */
  lemma InitialPawnStaysHome(r: int, col: int)
    requires 0 <= r < 8 && 0 <= col < 8 && InitialGrid()[r][col].Some?
    requires InitialGrid()[r][col].value.kind == Pawn
    ensures forall q :: q in ValidMoves(InitialGrid(), InitialGrid()[r][col].value) ==>
              InOwnHalf(InitialGrid()[r][col].value.color, q)
  {
    PawnMovesExact(InitialGrid(), InitialGrid()[r][col].value);
  }

  /** A king or knight on its own back row cannot leave its own half. */
  lemma BackRowLeaperStaysHome(g: Grid, p: Piece, q: Pos)
    requires p.kind == King || p.kind == Knight
    requires p.position.0 == (if p.color == Black then 0 else 7)
    requires q in ValidMoves(g, p)
    ensures InOwnHalf(p.color, q)
  {
    if p.kind == King {
      KingMovesAdjacent(g, p, q);
    } else {
      KnightMovesLShaped(g, p, q);
      SquareRoots(q.0 - p.position.0);
    }
  }

  /** At the start a king or knight stands on its back row and so cannot leave
      its own half. */
  lemma InitialLeaperStaysHome(r: int, col: int)
    requires 0 <= r < 8 && 0 <= col < 8 && InitialGrid()[r][col].Some?
    requires InitialGrid()[r][col].value.kind in {King, Knight}
    ensures forall q :: q in ValidMoves(InitialGrid(), InitialGrid()[r][col].value) ==>
              InOwnHalf(InitialGrid()[r][col].value.color, q)
  {
    var g := InitialGrid();
    var p := g[r][col].value;
    assert p.position.0 == (if p.color == Black then 0 else 7);
    forall q | q in ValidMoves(g, p) ensures InOwnHalf(p.color, q) {
      BackRowLeaperStaysHome(g, p, q);
    }
  }

  /** A queen, rook or bishop with no valid first square in any direction has
      no move. */
  lemma HemmedSliderStuck(g: Grid, p: Piece)
    requires p.kind in {Queen, Rook, Bishop}
    requires forall d :: IsDirection(d) ==> !ValidMove(g, p.color, Translate(p.position, d))
    ensures ValidMoves(g, p) == []
  {
    var dirs := if p.kind == Queen then QueenDirections else if p.kind == Rook then RookDirections else BishopDirections;
    assert forall d :: d in dirs ==> IsDirection(d);
    DirectionalMovesBlocked(g, p, dirs);
  }

  /** At the start the queens, rooks and bishops are hemmed in and generate no
      move at all. */
  lemma InitialSlidersStuck(r: int, col: int)
    requires 0 <= r < 8 && 0 <= col < 8 && InitialGrid()[r][col].Some?
    requires InitialGrid()[r][col].value.kind in {Queen, Rook, Bishop}
    ensures ValidMoves(InitialGrid(), InitialGrid()[r][col].value) == []
  {
    var g := InitialGrid();
    var p := g[r][col].value;
    assert p.position == (r, col) && (r == 0 || r == 7);
    forall d | IsDirection(d) ensures !ValidMove(g, p.color, Translate(p.position, d)) {
      InitialBackRowHemmed(r, col, d);
    }
    HemmedSliderStuck(g, p);
  }

  /** At the start no piece can reach the other half of the board. */
  lemma InitialMovesStayHome(r: int, col: int)
    requires 0 <= r < 8 && 0 <= col < 8 && InitialGrid()[r][col].Some?
    ensures forall q :: q in ValidMoves(InitialGrid(), InitialGrid()[r][col].value) ==>
              InOwnHalf(InitialGrid()[r][col].value.color, q)
  {
    var k := InitialGrid()[r][col].value.kind;
    if k == Pawn {
      InitialPawnStaysHome(r, col);
    } else if k in {King, Knight} {
      InitialLeaperStaysHome(r, col);
    } else {
      InitialSlidersStuck(r, col);
    }
  }

  /** setup_pieces puts white's king on e1 (7, 4) and black's on e8 (0, 4), and
      find_king finds them there. */
  lemma InitialKings()
    ensures FindKingSpec(InitialGrid(), White) == Some((7, 4))
    ensures FindKingSpec(InitialGrid(), Black) == Some((0, 4))
  {
    var g := InitialGrid();
    assert FirstKing(g, White, (7, 4));
    assert FirstKing(g, Black, (0, 4));
    FirstKingUnique(g, White, FindKingSpec(g, White).value, (7, 4));
    FirstKingUnique(g, Black, FindKingSpec(g, Black).value, (0, 4));
  }

  /** Neither side is in check in the starting position. */
  lemma InitialNotInCheck(c: Color)
    ensures !InCheckSpec(InitialGrid(), c)
  {
    var g := InitialGrid();
    InitialKings();
    var k := FindKingSpec(g, c).value;
    ThreatenedExact(g, c, k);
    forall r, col | 0 <= r < 8 && 0 <= col < 8 ensures !Attacks(g, c, r, col, k) {
      if g[r][col].Some? {
        InitialMovesStayHome(r, col);
      }
    }
  }

  /** move_piece consults neither the piece's moves nor the rules of chess: the
      white pawn on e2 (6, 4) cannot generate e5 (3, 4), yet the move is carried
      out and the pawn lands there. */
  lemma MoveIgnoresPieceRules()
    ensures (3, 4) !in ValidMoves(InitialGrid(), Piece(White, Pawn, (6, 4)))
    ensures ApplyMove(InitialGrid(), (6, 4), (3, 4))[3][4] == Some(Piece(White, Pawn, (3, 4)))
  {
    PawnMovesExact(InitialGrid(), Piece(White, Pawn, (6, 4)));
  }

  // ---------------------------------------------------------------------------
  // in_check? and checkmate? as the source is written

  /** A piece of the other colour than c stands on (r, col). */
  predicate OpponentAt(g: Grid, c: Color, r: int, col: int)
    requires 0 <= r < 8 && 0 <= col < 8
  {
    g[r][col].Some? && g[r][col].value.color != c
  }

  /** in_check? as written (lib/board.rb:90-104): after find_king, the scan asks
      the first piece of the other colour for `possible_moves`, a method no
      piece class defines (the generator is `valid_moves(board)`), so the call
      raises NoMethodError there; it returns false only when the other side has
      no piece at all. */
  ghost function InCheckAsWritten(g: Grid, c: Color): (x: Raised<bool>)
    ensures x == KingNotFound <==> FindKingSpec(g, c).None?
    ensures x.Returned? ==> x.value == InCheckSpec(g, c)
  {
    if !HasKing(g, c) then KingNotFound
    else if exists r, col :: 0 <= r < 8 && 0 <= col < 8 && OpponentAt(g, c, r, col) then NoMethodError
    else
      NoOpponentNoCheck(g, c);
      Returned(false)
  }

  /** With no piece of the other colour on the grid, c is not in check. */
  lemma NoOpponentNoCheck(g: Grid, c: Color)
    requires forall r, col :: 0 <= r < 8 && 0 <= col < 8 ==> !OpponentAt(g, c, r, col)
    ensures !InCheckSpec(g, c)
  {
    InCheckAttacked(g, c);
    if InCheckSpec(g, c) {
      var r, col :| 0 <= r < 8 && 0 <= col < 8 && Attacks(g, c, r, col, FindKingSpec(g, c).value);
      assert OpponentAt(g, c, r, col);
    }
  }

  /** checkmate? as written (lib/board.rb:64-88): its opening in_check? call
      raises or returns false, so the scan at lines 68-85, with its own
      `possible_moves` call, is never reached. */
  ghost function CheckmateAsWritten(g: Grid, c: Color): (x: Raised<bool>)
    ensures x == KingNotFound <==> FindKingSpec(g, c).None?
    ensures x.Returned? ==> x.value == CheckmateSpec(g, c)
  {
    match InCheckAsWritten(g, c)
    case Returned(_) => Returned(false)
    case KingNotFound => KingNotFound
    case NoMethodError => NoMethodError
  }

  /** As written, neither query can ever answer true. */
  lemma AsWrittenNeverTrue(g: Grid, c: Color)
    ensures InCheckAsWritten(g, c) != Returned(true)
    ensures CheckmateAsWritten(g, c) != Returned(true)
  {
  }

  /** On the starting board both queries raise NoMethodError, where the
      intended answers are "not in check" and "not checkmate". */
  lemma AsWrittenRaisesAtStart(c: Color)
    ensures InCheckAsWritten(InitialGrid(), c) == NoMethodError
    ensures CheckmateAsWritten(InitialGrid(), c) == NoMethodError
    ensures !InCheckSpec(InitialGrid(), c) && !CheckmateSpec(InitialGrid(), c)
  {
    var g := InitialGrid();
    assert IsKingAt(g, c, if c == White then 7 else 0, 4);
    assert OpponentAt(g, c, if c == White then 0 else 7, 0);
    InitialNotInCheck(c);
  }

  // ---------------------------------------------------------------------------
  // A checkmate, and a check that is not mate

  /** A rook of the other colour than c on (r, col) attacks (r, t) to its left
      when every square strictly between them is empty and (r, t) is empty or
      holds a piece of colour c. */
  lemma RookAttacksLeft(g: Grid, c: Color, r: int, col: int, t: int)
    requires 0 <= r < 8 && 0 <= t < col < 8
    requires g[r][col] == Some(Piece(Opponent(c), Rook, (r, col)))
    requires forall j :: t < j < col ==> g[r][j].None?
    requires g[r][t].None? || g[r][t].value.color == c
    ensures Attacks(g, c, r, col, (r, t))
  {
    var p := g[r][col].value;
    var d := RookDirections[2];
    var start := Translate(p.position, d);
    var k := col - t - 1;
    forall j | 0 <= j < k ensures Vacant(g, Shift(start, d, j)) {
      assert Shift(start, d, j) == (r, col - 1 - j);
    }
    assert Shift(start, d, k) == (r, t);
    assert Reachable(g, p.color, start, d, k);
    DirectionalMovesExact(g, p, RookDirections, (r, t));
  }

  /** The first king of c attacked by some piece means c is in check. */
  lemma CheckBy(g: Grid, c: Color, k: Pos, r: int, col: int)
    requires 0 <= r < 8 && 0 <= col < 8
    requires FirstKing(g, c, k) && Attacks(g, c, r, col, k)
    ensures InCheckSpec(g, c)
  {
    ThreatenedExact(g, c, k);
  }

  /** The corner position: black king on a8 (0, 0), white rooks on h8 (0, 7)
      and, when `secondRook`, on h7 (1, 7), white king on h1 (7, 7). */
  function CornerSquare(secondRook: bool, r: int, col: int): Option<Piece> {
    if (r, col) == (0, 0) then Some(Piece(Black, King, (0, 0)))
    else if (r, col) == (0, 7) then Some(Piece(White, Rook, (0, 7)))
    else if (r, col) == (1, 7) && secondRook then Some(Piece(White, Rook, (1, 7)))
    else if (r, col) == (7, 7) then Some(Piece(White, King, (7, 7)))
    else None
  }

  /** g holds the corner position. */
  ghost predicate IsCorner(g: Grid, secondRook: bool) {
    forall r, col :: 0 <= r < 8 && 0 <= col < 8 ==> g[r][col] == CornerSquare(secondRook, r, col)
  }

  /** In the corner position black is in check from the rook on h8. */
  lemma CornerCheck(g: Grid, secondRook: bool)
    requires IsCorner(g, secondRook)
    ensures InCheckSpec(g, Black)
  {
    assert g[0][0] == Some(Piece(Black, King, (0, 0)));
    assert FirstKing(g, Black, (0, 0));
    assert g[0][7] == Some(Piece(White, Rook, (0, 7)));
    RookAttacksLeft(g, Black, 0, 7, 0);
    CheckBy(g, Black, (0, 0), 0, 7);
  }

  /** The black king's destinations in the corner position: b8, a7 and b7. */
  lemma CornerKingMoves(g: Grid, secondRook: bool, q: Pos)
    requires IsCorner(g, secondRook)
    requires q in ValidMoves(g, Piece(Black, King, (0, 0)))
    ensures q == (0, 1) || q == (1, 0) || q == (1, 1)
  {
    KingMovesAdjacent(g, Piece(Black, King, (0, 0)), q);
  }

  /** The corner position after the black king has stepped to q. */
  lemma CornerAfterKingMove(g: Grid, secondRook: bool, q: Pos)
    requires IsCorner(g, secondRook) && (q == (0, 1) || q == (1, 0) || q == (1, 1))
    ensures forall r, col :: 0 <= r < 8 && 0 <= col < 8 ==>
              ApplyMove(g, (0, 0), q)[r][col] ==
                if (r, col) == q then Some(Piece(Black, King, q))
                else if (r, col) == (0, 0) then None
                else CornerSquare(secondRook, r, col)
  {
    assert g[0][0] == Some(Piece(Black, King, (0, 0)));
  }

  /** With both rooks, each of the black king's moves (to b8, a7 or b7) leaves
      it attacked along row 0 or row 1. */
  lemma CornerKingTrapped(g: Grid, q: Pos)
    requires IsCorner(g, true) && (q == (0, 1) || q == (1, 0) || q == (1, 1))
    ensures InCheckSpec(ApplyMove(g, (0, 0), q), Black)
  {
    assert g[0][0] == Some(Piece(Black, King, (0, 0)));
    var h := ApplyMove(g, (0, 0), q);
    CornerAfterKingMove(g, true, q);
    forall r, col | 0 <= r < 8 && 0 <= col < 8 && Before((r, col), q) ensures !IsKingAt(h, Black, r, col) {
    }
    assert IsKingAt(h, Black, q.0, q.1);
    assert h[q.0][7] == Some(Piece(White, Rook, (q.0, 7)));
    RookAttacksLeft(h, Black, q.0, 7, q.1);
    CheckBy(h, Black, q, q.0, 7);
  }

  /** Black is checkmated in the corner position with both rooks: in check,
      and no move of its only piece gets it out. */
  lemma CornerMate(g: Grid)
    requires IsCorner(g, true)
    ensures CheckmateSpec(g, Black)
  {
    CornerCheck(g, true);
    forall r, col | 0 <= r < 8 && 0 <= col < 8 ensures !CanEscape(g, Black, r, col) {
      if (r, col) == (0, 0) {
        assert g[0][0] == Some(Piece(Black, King, (0, 0)));
        forall q | q in ValidMoves(g, g[0][0].value) && WithinBounds(q)
          ensures InCheckSpec(ApplyMove(g, (0, 0), q), Black)
        {
          CornerKingMoves(g, true, q);
          CornerKingTrapped(g, q);
        }
      }
    }
  }

  /** Without the rook on h7, nothing attacks a7 (1, 0) once the black king
      has stepped there. */
  lemma CornerEscapeSafe(g: Grid)
    requires IsCorner(g, false)
    ensures !InCheckSpec(ApplyMove(g, (0, 0), (1, 0)), Black)
  {
    assert g[0][0] == Some(Piece(Black, King, (0, 0)));
    var h := ApplyMove(g, (0, 0), (1, 0));
    CornerAfterKingMove(g, false, (1, 0));
    forall r, col | 0 <= r < 8 && 0 <= col < 8 ensures !Attacks(h, Black, r, col, (1, 0)) {
      if (r, col) == (0, 7) {
        if (1, 0) in ValidMoves(h, h[0][7].value) {
          RookMovesStraight(h, h[0][7].value, (1, 0));
        }
      } else if (r, col) == (7, 7) {
        KingMovesAdjacent(h, h[7][7].value, (1, 0));
      }
    }
    ThreatenedExact(h, Black, (1, 0));
    forall r, col | 0 <= r < 8 && 0 <= col < 8 && Before((r, col), (1, 0)) ensures !IsKingAt(h, Black, r, col) {
    }
    assert IsKingAt(h, Black, 1, 0);
    forall k | FirstKing(h, Black, k) ensures !Threatened(h, Black, k) {
      FirstKingUnique(h, Black, k, (1, 0));
    }
  }

  /** In the corner position a7 (1, 0) is among the black king's destinations. */
  lemma CornerKingCanStep(g: Grid, secondRook: bool)
    requires IsCorner(g, secondRook)
    ensures g[0][0] == Some(Piece(Black, King, (0, 0)))
    ensures (1, 0) in ValidMoves(g, g[0][0].value)
  {
    assert g[0][0] == Some(Piece(Black, King, (0, 0)));
    assert g[1][0] == None;
    KingMovesAdjacent(g, g[0][0].value, (1, 0));
  }

  /** Without the rook on h7, the black king escapes to a7 (1, 0). */
  lemma CornerKingEscapes(g: Grid)
    requires IsCorner(g, false)
    ensures CanEscape(g, Black, 0, 0)
  {
    CornerKingCanStep(g, false);
    CornerEscapeSafe(g);
    assert Escapes(g, Black, 0, 0, (1, 0));
  }

  /** With the rook on h7 missing, black is in check but not mated. */
  lemma CornerCheckNotMate(g: Grid)
    requires IsCorner(g, false)
    ensures InCheckSpec(g, Black) && !CheckmateSpec(g, Black)
  {
    CornerCheck(g, false);
    CornerKingEscapes(g);
  }

  // ---------------------------------------------------------------------------
  // The board as the source runs it: a class over an 8x8 array

  datatype MoveOutcome = Moved | NoPieceAtSource | WrongColor

  /** The board object: its 8x8 grid is a list of rows that the methods update
      square by square. */
  class Board {
    var grid: Grid

    /** Every piece on the grid knows its own square. */
    ghost predicate Valid()
      reads this
    {
      PositionsConsistent(grid)
    }

    /** initialize: an empty 8x8 grid, then setup_pieces. */
    constructor ()
      ensures Valid()
      ensures grid == InitialGrid()
    {
      grid := seq(8, _ => seq(8, _ => None));
      new;
      SetupPieces();
      GridExt(grid, InitialGrid());
    }

    /** setup_pieces: the pawn rows 1 and 6, then the two back rows. */
    method SetupPieces()
      modifies this
      ensures forall r, col :: 0 <= r < 8 && 0 <= col < 8 ==>
                grid[r][col] == if r == 0 || r == 1 || r == 6 || r == 7 then InitialSquare(r, col) else old(grid[r][col])
    {
      for i := 0 to 8
        invariant forall r, col :: 0 <= r < 8 && 0 <= col < 8 ==>
                    grid[r][col] == if (r == 1 || r == 6) && col < i then InitialSquare(r, col) else old(grid[r][col])
      {
        grid := SetCell(grid, (1, i), Some(Piece(Black, Pawn, (1, i))));
        grid := SetCell(grid, (6, i), Some(Piece(White, Pawn, (6, i))));
      }
      SetupBackRow(0, Black);
      SetupBackRow(7, White);
    }

    /** setup_back_row: R, N, B, Q, K, B, N, R of the given colour across `row`. */
    method SetupBackRow(row: int, color: Color)
      requires 0 <= row < 8
      modifies this
      ensures forall col :: 0 <= col < 8 ==> grid[row][col] == Some(Piece(color, BackRowKind(col), (row, col)))
      ensures forall r, col :: 0 <= r < 8 && 0 <= col < 8 && r != row ==> grid[r][col] == old(grid[r][col])
    {
      grid := SetCell(grid, (row, 0), Some(Piece(color, Rook, (row, 0))));
      grid := SetCell(grid, (row, 1), Some(Piece(color, Knight, (row, 1))));
      grid := SetCell(grid, (row, 2), Some(Piece(color, Bishop, (row, 2))));
      grid := SetCell(grid, (row, 3), Some(Piece(color, Queen, (row, 3))));
      grid := SetCell(grid, (row, 4), Some(Piece(color, King, (row, 4))));
      grid := SetCell(grid, (row, 5), Some(Piece(color, Bishop, (row, 5))));
      grid := SetCell(grid, (row, 6), Some(Piece(color, Knight, (row, 6))));
      grid := SetCell(grid, (row, 7), Some(Piece(color, Rook, (row, 7))));
    }

    /** get_piece_at: nothing for a square off the board, else the grid cell. */
    method GetPieceAt(pos: Pos) returns (p: Option<Piece>)
      ensures WithinBounds(pos) ==> p == grid[pos.0][pos.1]
      ensures !WithinBounds(pos) ==> p == None
    {
      if pos.0 < 0 || pos.0 > 7 || pos.1 < 0 || pos.1 > 7 {
        return None;
      }
      p := grid[pos.0][pos.1];
    }

    /** move_piece: refuses an empty source square and a piece of the other
      colour, leaving the grid as it was; otherwise moves the piece, with no
      check of the destination against its moves and no self-check test. */
    method MovePiece(from: Pos, to: Pos, color: Color) returns (outcome: MoveOutcome)
      requires PieceAt(grid, from).Some? && PieceAt(grid, from).value.color == color ==> WithinBounds(to)
      modifies this
      ensures old(PieceAt(grid, from)) == None ==>
                outcome == NoPieceAtSource && grid == old(grid)
      ensures old(PieceAt(grid, from)).Some? && old(PieceAt(grid, from)).value.color != color ==>
                outcome == WrongColor && grid == old(grid)
      ensures old(PieceAt(grid, from)).Some? && old(PieceAt(grid, from)).value.color == color ==>
                outcome == Moved && grid == ApplyMove(old(grid), from, to)
      ensures old(Valid()) ==> Valid()
    {
      var piece := GetPieceAt(from);
      if piece.None? {
        return NoPieceAtSource;
      }
      if piece.value.color != color {
        return WrongColor;
      }
      grid := SetCell(grid, to, Some(piece.value.(position := to)));
      grid := SetCell(grid, from, None);
      return Moved;
    }

    /** find_king: a row-major scan returning the first king of `color`. */
    method FindKing(color: Color) returns (k: Option<Pos>)
      ensures k == FindKingSpec(grid, color)
    {
      for r := 0 to 8
        invariant forall r', col' :: 0 <= r' < r && 0 <= col' < 8 ==> !IsKingAt(grid, color, r', col')
      {
        for col := 0 to 8
          invariant forall r', col' :: 0 <= r' < r && 0 <= col' < 8 ==> !IsKingAt(grid, color, r', col')
          invariant forall col' :: 0 <= col' < col ==> !IsKingAt(grid, color, r, col')
        {
          var cell := grid[r][col];
          if cell.Some? && cell.value.kind == King && cell.value.color == color {
            assert IsKingAt(grid, color, r, col);
            ghost var first := FindKingSpec(grid, color).value;
            assert !Before(first, (r, col));
            assert !Before((r, col), first);
            return Some((r, col));
          }
        }
      }
      return None;
    }

    /** in_check?: locate the king, then ask every piece of the other colour
      whether the king's square is among its generated moves. */
    method InCheck(color: Color) returns (check: bool)
      requires HasKing(grid, color)
      ensures check == InCheckSpec(grid, color)
    {
      var king := FindKing(color);
      check := Attacked(king.value, color);
      if InCheckSpec(grid, color) {
        var k :| FirstKing(grid, color, k) && Threatened(grid, color, k);
        FirstKingUnique(grid, color, k, king.value);
      }
    }

    /** The scan of in_check? once the king is found: every square in row-major
      order, stopping at the first piece of the other colour whose generated
      moves include `target`. */
    method Attacked(target: Pos, color: Color) returns (attacked: bool)
      ensures attacked == Threatened(grid, color, target)
    {
      var g := grid;
      for r := 0 to 8
        invariant !ThreatBefore(g, color, target, r, 0)
      {
        for col := 0 to 8
          invariant !ThreatBefore(g, color, target, r, col)
        {
          if Attacks(g, color, r, col, target) {
            ThreatBeforeExact(g, color, target, 8, 0);
            return true;
          }
        }
      }
      return false;
    }

    /** move_removes_check?: make the move, ask in_check?, put both squares back
      and set the moved piece's position to `from`. When from == to the source
      writes the same piece object back twice, so both writes carry the restored
      position. */
    method MoveRemovesCheck(from: Pos, to: Pos, color: Color) returns (removes: bool)
      requires WithinBounds(from) && WithinBounds(to) && grid[from.0][from.1].Some?
      requires HasKing(ApplyMove(grid, from, to), color)
      modifies this
      ensures removes == !InCheckSpec(ApplyMove(old(grid), from, to), color)
      ensures grid == SetCell(old(grid), from, Some(old(grid)[from.0][from.1].value.(position := from)))
      ensures old(Valid()) ==> grid == old(grid)
    {
      var original := grid[to.0][to.1];
      var piece := grid[from.0][from.1].value;
      grid := SetCell(grid, to, Some(piece.(position := to)));
      grid := SetCell(grid, from, None);
      var stillInCheck := InCheck(color);
      var restored := piece.(position := from);
      grid := SetCell(grid, from, Some(restored));
      grid := SetCell(grid, to, if to == from then Some(restored) else original);
      UndoMove(old(grid), from, to);
      removes := !stillInCheck;
    }

    /** checkmate?: false unless in check; otherwise try every destination of
      every piece of `color` with move_removes_check?, and report mate when none
      gets out of check. */
    method Checkmate(color: Color) returns (mate: bool)
      requires Valid() && HasKing(grid, color)
      modifies this
      ensures grid == old(grid)
      ensures mate == CheckmateSpec(old(grid), color)
    {
      var check := InCheck(color);
      if !check {
        return false;
      }
      for r := 0 to 8
        invariant grid == old(grid)
        invariant NoEscapeBefore(grid, color, r, 0)
      {
        for col := 0 to 8
          invariant grid == old(grid)
          invariant NoEscapeBefore(grid, color, r, col)
        {
          var escapes := TryPiece(r, col, color);
          if escapes {
            return false;
          }
        }
      }
      NoEscapeAnywhere(grid, color);
      return true;
    }

    /** The inner loop of checkmate?: each generated destination of the piece on
      (r, col), if it is one of `color`'s, is tried with move_removes_check?. */
    method TryPiece(r: int, col: int, color: Color) returns (escapes: bool)
      requires Valid() && HasKing(grid, color) && 0 <= r < 8 && 0 <= col < 8
      modifies this
      ensures grid == old(grid)
      ensures escapes == CanEscape(old(grid), color, r, col)
    {
      var cell := grid[r][col];
      if cell.None? || cell.value.color != color {
        return false;
      }
      var moves := ValidMoves(grid, cell.value);
      for k := 0 to |moves|
        invariant grid == old(grid)
        invariant AllStayInCheck(grid, color, (r, col), moves, k)
      {
        OwnMoveKeepsKing(grid, color, (r, col), moves[k]);
        var removes := MoveRemovesCheck((r, col), moves[k], color);
        if removes {
          assert Escapes(grid, color, r, col, moves[k]);
          return true;
        }
      }
      NoEscapeWhenAllStay(grid, color, r, col);
      return false;
    }
  }
}
