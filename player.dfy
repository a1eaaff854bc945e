/** The move parser of lib/player.rb: a line typed by the player is split on
    whitespace into words, and the first two words are read as squares in
    algebraic notation ("e2") and turned into [row, column] indices, rank 8
    being row 0. Nothing is validated: letters beyond 'h' and digits beyond '8'
    give indices off the board. The console I/O of get_move is not modelled; the
    line it reads is a parameter. */
module Players {
  import opened Pieces

  // ---------------------------------------------------------------------------
  // convert_to_index

  predicate IsDigit(c: char) {
    '0' <= c <= '9'
  }

  /** String#to_i on the one-character string c: its digit value, 0 for any
      other character. */
  function DigitValue(c: char): (n: int)
    ensures 0 <= n <= 9
    ensures n != 0 ==> IsDigit(c)
  {
    if IsDigit(c) then c as int - '0' as int else 0
  }

  /** chess_notation[1].to_i: the second character read as a number; when the
      string has no second character Ruby indexes to nil, whose to_i is 0. */
  function RankValue(s: string): (n: int)
    ensures 0 <= n <= 9
    ensures |s| < 2 ==> n == 0
  {
    if |s| >= 2 then DigitValue(s[1]) else 0
  }

  /** convert_to_index: the column is the file letter's code minus the code of
      'a', the row is 8 minus the rank. An empty string raises NoMethodError,
      since its first character is nil and nil has no `ord`. Characters after
      the second are ignored. */
  function ConvertToIndex(s: string): (r: Raised<Pos>)
    ensures r.Returned? <==> s != []
    ensures r.Returned? ==> r.value.1 == s[0] as int - 'a' as int && r.value.0 == 8 - RankValue(s)
  {
    if s == [] then NoMethodError
    else Returned((8 - RankValue(s), s[0] as int - 'a' as int))
  }

  predicate IsFile(c: char) {
    'a' <= c <= 'h'
  }

  predicate IsRank(c: char) {
    '1' <= c <= '8'
  }

  /** A square named in algebraic notation: a file letter a-h and a rank 1-8. */
  predicate IsSquareName(s: string) {
    |s| == 2 && IsFile(s[0]) && IsRank(s[1])
  }

  /** The algebraic name of an on-board square: the inverse of convert_to_index. */
  function SquareName(pos: Pos): (s: string)
    requires WithinBounds(pos)
    ensures IsSquareName(s)
  {
    [('a' as int + pos.1) as char, ('8' as int - pos.0) as char]
  }

  /** Named squares land on the board. */
  lemma ConvertToIndexOnBoard(s: string)
    requires IsSquareName(s)
    ensures ConvertToIndex(s).Returned? && WithinBounds(ConvertToIndex(s).value)
  {
  }

  /** Reading back the name of a square gives the square. */
  lemma ConvertSquareName(pos: Pos)
    requires WithinBounds(pos)
    ensures ConvertToIndex(SquareName(pos)) == Returned(pos)
  {
  }

  /** Naming the square read from a name gives the name back. */
  lemma SquareNameOfConvert(s: string)
    requires IsSquareName(s)
    ensures ConvertToIndex(s).Returned? && WithinBounds(ConvertToIndex(s).value) &&
            SquareName(ConvertToIndex(s).value) == s
  {
    var t := SquareName(ConvertToIndex(s).value);
    assert t[0] == s[0] && t[1] == s[1];
  }

  /** Distinct square names give distinct indices. */
  lemma ConvertToIndexInjective(s: string, t: string)
    requires IsSquareName(s) && IsSquareName(t) && s != t
    ensures ConvertToIndex(s) != ConvertToIndex(t)
  {
    SquareNameOfConvert(s);
    SquareNameOfConvert(t);
  }

  /** Without validation, names off the board give indices off the board: "i9"
      is [-1, 8], and a lone file letter reads rank 0 and so row 8. */
  lemma ConvertToIndexUnchecked()
    ensures ConvertToIndex("i9") == Returned((-1, 8))
    ensures ConvertToIndex("a0") == Returned((8, 0))
    ensures ConvertToIndex("e") == Returned((8, 4))
    ensures ConvertToIndex("ex") == Returned((8, 4))
  {
  }

  /** The examples of spec/player_spec.rb. */
  lemma ConvertToIndexExamples()
    ensures ConvertToIndex("e2") == Returned((6, 4))
    ensures ConvertToIndex("h8") == Returned((0, 7))
    ensures ConvertToIndex("a1") == Returned((7, 0))
  {
  }

  // ---------------------------------------------------------------------------
  // String#split without arguments

  /** The characters String#split treats as separators: space, tab, line feed,
      vertical tab, form feed and carriage return. */
  predicate IsSpace(c: char) {
    c == ' ' || '\t' <= c <= '\r'
  }

  predicate NoSpace(w: string) {
    forall i :: 0 <= i < |w| ==> !IsSpace(w[i])
  }

  /** s without its leading whitespace. */
  function SkipSpace(s: string): (t: string)
    ensures |t| <= |s|
    ensures t == [] || !IsSpace(t[0])
  {
    if s != [] && IsSpace(s[0]) then SkipSpace(s[1..]) else s
  }

  /** What SkipSpace drops is a run of whitespace at the front of s. */
  lemma {:induction false} SkipSpaceDropsSpace(s: string)
    ensures s[|s| - |SkipSpace(s)|..] == SkipSpace(s)
    ensures forall i :: 0 <= i < |s| - |SkipSpace(s)| ==> IsSpace(s[i])
  {
    if s != [] && IsSpace(s[0]) {
      SkipSpaceDropsSpace(s[1..]);
    }
  }

  /** The length of the run of non-whitespace characters at the start of s. */
  function WordLength(s: string): (n: nat)
    ensures n <= |s|
    ensures s != [] && !IsSpace(s[0]) ==> n >= 1
  {
    if s == [] || IsSpace(s[0]) then 0 else 1 + WordLength(s[1..])
  }

  /** The run WordLength measures holds no whitespace and ends at whitespace or
      at the end of s. */
  lemma {:induction false} WordLengthStops(s: string)
    ensures NoSpace(s[..WordLength(s)])
    ensures WordLength(s) < |s| ==> IsSpace(s[WordLength(s)])
  {
    if s != [] && !IsSpace(s[0]) {
      WordLengthStops(s[1..]);
      assert forall i :: 1 <= i < WordLength(s) ==> s[..WordLength(s)][i] == s[1..][..WordLength(s[1..])][i - 1];
    }
  }

  /** move.split: the maximal runs of non-whitespace characters, in order;
      leading, trailing and repeated whitespace produce no empty words. */
  function Words(s: string): (ws: seq<string>)
    ensures ws == [] <==> forall i :: 0 <= i < |s| ==> IsSpace(s[i])
    decreases |s|
  {
    var t := SkipSpace(s);
    SkipSpaceDropsSpace(s);
    if t == [] then []
    else
      var n := WordLength(t);
      [t[..n]] + Words(t[n..])
  }

  /** Every word is non-empty and holds no whitespace. */
  lemma {:induction false} WordsAreWords(s: string)
    ensures forall i :: 0 <= i < |Words(s)| ==> Words(s)[i] != [] && NoSpace(Words(s)[i])
    decreases |s|
  {
    var t := SkipSpace(s);
    if t != [] {
      var n := WordLength(t);
      WordLengthStops(t);
      WordsAreWords(t[n..]);
    }
  }

  /** The words joined with single spaces. */
  function Unwords(ws: seq<string>): string {
    if ws == [] then []
    else if |ws| == 1 then ws[0]
    else ws[0] + " " + Unwords(ws[1..])
  }

  /** All characters of the words, concatenated. */
  function Concat(ws: seq<string>): string {
    if ws == [] then [] else ws[0] + Concat(ws[1..])
  }

  /** s with its whitespace removed. */
  function RemoveSpace(s: string): string {
    if s == [] then []
    else (if IsSpace(s[0]) then [] else [s[0]]) + RemoveSpace(s[1..])
  }

  lemma {:induction false} RemoveSpaceAppend(a: string, b: string)
    ensures RemoveSpace(a + b) == RemoveSpace(a) + RemoveSpace(b)
  {
    if a == [] {
      assert a + b == b;
    } else {
      var head := if IsSpace(a[0]) then [] else [a[0]];
      assert (a + b)[0] == a[0] && (a + b)[1..] == a[1..] + b;
      RemoveSpaceAppend(a[1..], b);
      calc {
        RemoveSpace(a + b);
        head + RemoveSpace(a[1..] + b);
        head + (RemoveSpace(a[1..]) + RemoveSpace(b));
        (head + RemoveSpace(a[1..])) + RemoveSpace(b);
      }
    }
  }

  lemma {:induction false} RemoveSpaceOfSpace(s: string)
    requires forall i :: 0 <= i < |s| ==> IsSpace(s[i])
    ensures RemoveSpace(s) == []
  {
    if s != [] {
      RemoveSpaceOfSpace(s[1..]);
    }
  }

  lemma {:induction false} RemoveSpaceOfWord(s: string)
    requires NoSpace(s)
    ensures RemoveSpace(s) == s
  {
    if s != [] {
      RemoveSpaceOfWord(s[1..]);
    }
  }

  /** Splitting loses only the whitespace: the words, concatenated, are the
      line with its whitespace removed. */
  lemma {:induction false} WordsKeepText(s: string)
    ensures Concat(Words(s)) == RemoveSpace(s)
    decreases |s|
  {
    var t := SkipSpace(s);
    RemoveSpaceSkip(s);
    if t != [] {
      var n := WordLength(t);
      assert Words(s) == [t[..n]] + Words(t[n..]);
      RemoveSpaceWord(t);
      WordsKeepText(t[n..]);
      ConcatCons(t[..n], Words(t[n..]));
    }
  }

  /** Leading whitespace contributes nothing once whitespace is removed. */
  lemma RemoveSpaceSkip(s: string)
    ensures RemoveSpace(s) == RemoveSpace(SkipSpace(s))
  {
    var t := SkipSpace(s);
    var k := |s| - |t|;
    SkipSpaceDropsSpace(s);
    assert s == s[..k] + t;
    RemoveSpaceAppend(s[..k], t);
    RemoveSpaceOfSpace(s[..k]);
  }

  /** Removing whitespace keeps the first word whole. */
  lemma RemoveSpaceWord(t: string)
    ensures RemoveSpace(t) == t[..WordLength(t)] + RemoveSpace(t[WordLength(t)..])
  {
    var n := WordLength(t);
    WordLengthStops(t);
    assert t == t[..n] + t[n..];
    RemoveSpaceAppend(t[..n], t[n..]);
    RemoveSpaceOfWord(t[..n]);
  }

  lemma ConcatCons(w: string, ws: seq<string>)
    ensures Concat([w] + ws) == w + Concat(ws)
  {
    assert ([w] + ws)[0] == w && ([w] + ws)[1..] == ws;
  }

  /** A word followed by nothing or by whitespace is split off whole. */
  lemma WordsCons(w: string, rest: string)
    requires w != [] && NoSpace(w)
    requires rest == [] || IsSpace(rest[0])
    ensures Words(w + rest) == [w] + Words(rest)
  {
    var s := w + rest;
    assert s[0] == w[0];
    assert SkipSpace(s) == s;
    WordLengthOfWord(w, rest);
    assert s[|w|..] == rest;
  }

  /** Words that are non-empty and hold no whitespace, joined with single
      spaces, split back into the same words. */
  lemma {:induction false} WordsOfUnwords(ws: seq<string>)
    requires forall i :: 0 <= i < |ws| ==> ws[i] != [] && NoSpace(ws[i])
    ensures Words(Unwords(ws)) == ws
  {
    if |ws| == 1 {
      WordsOfWord(ws[0]);
    } else if |ws| > 1 {
      WordsOfUnwords(ws[1..]);
      UnwordsStart(ws[1..]);
      WordsOfSpaced(ws[0], Unwords(ws[1..]));
      assert ws == [ws[0]] + ws[1..];
    }
  }

  /** A single word splits into itself. */
  lemma WordsOfWord(w: string)
    requires w != [] && NoSpace(w)
    ensures Words(w) == [w]
  {
    WordsCons(w, []);
    assert w + [] == w;
  }

  /** A word, a space and more text split into the word and the words of the
      text. */
  lemma WordsOfSpaced(w: string, rest: string)
    requires w != [] && NoSpace(w)
    requires rest == [] || !IsSpace(rest[0])
    ensures Words(w + " " + rest) == [w] + Words(rest)
  {
    assert w + " " + rest == w + (" " + rest);
    WordsCons(w, " " + rest);
    SkipOneSpace(rest);
  }

  /** Joined non-empty words start with the first word's first character. */
  lemma UnwordsStart(ws: seq<string>)
    requires ws != [] && ws[0] != []
    ensures Unwords(ws) != [] && Unwords(ws)[0] == ws[0][0]
  {
  }

  /** A word followed by nothing or by whitespace is read in one piece. */
  lemma {:induction false} WordLengthOfWord(w: string, rest: string)
    requires w != [] && NoSpace(w)
    requires rest == [] || IsSpace(rest[0])
    ensures WordLength(w + rest) == |w| && (w + rest)[..|w|] == w
  {
    assert (w + rest)[0] == w[0] && (w + rest)[1..] == w[1..] + rest;
    if |w| > 1 {
      WordLengthOfWord(w[1..], rest);
    } else {
      assert w[1..] + rest == rest;
    }
  }

  /** Leading whitespace is skipped by the split. */
  lemma SkipOneSpace(s: string)
    requires s == [] || !IsSpace(s[0])
    ensures Words(" " + s) == Words(s)
  {
    assert (" " + s)[1..] == s;
    assert SkipSpace(" " + s) == SkipSpace(s);
  }

  // ---------------------------------------------------------------------------
  // get_move

  /** get_move on the line the player typed: the first two words converted to
      [row, column] pairs, later words ignored. With fewer than two words the
      missing square is nil and convert_to_index raises NoMethodError on it. */
  function GetMove(line: string): (r: Raised<(Pos, Pos)>)
    ensures r.Returned? <==> |Words(line)| >= 2
    ensures r.Returned? ==>
              Returned(r.value.0) == ConvertToIndex(Words(line)[0]) &&
              Returned(r.value.1) == ConvertToIndex(Words(line)[1])
  {
    var ws := Words(line);
    WordsAreWords(line);
    if |ws| < 2 then NoMethodError
    else Returned((ConvertToIndex(ws[0]).value, ConvertToIndex(ws[1]).value))
  }

  /** Typing the names of two squares separated by a space gives those squares. */
  lemma GetMoveOfNames(from: Pos, to: Pos)
    requires WithinBounds(from) && WithinBounds(to)
    ensures GetMove(SquareName(from) + " " + SquareName(to)) == Returned((from, to))
  {
    var ws := [SquareName(from), SquareName(to)];
    assert Unwords(ws) == SquareName(from) + " " + SquareName(to);
    WordsOfUnwords(ws);
    ConvertSquareName(from);
    ConvertSquareName(to);
  }

  /** The example of spec/player_spec.rb: "e2 e4" is the move [6, 4] to [4, 4]. */
  lemma GetMoveExample()
    ensures GetMove("e2 e4") == Returned(((6, 4), (4, 4)))
  {
    assert "e2 e4" == SquareName((6, 4)) + " " + SquareName((4, 4));
    GetMoveOfNames((6, 4), (4, 4));
  }
}
