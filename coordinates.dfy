/** Parsing of a player's coordinate label such as "B5" or "J10"
    (game.go `ConvertInputToPosition`, `PatternMismatch`). */
module Coordinates {
  import opened Types

  /** The error returned for text outside the pattern; it carries the input. */
  datatype PatternMismatch = PatternMismatch(input: string)

  predicate IsRowLetter(c: char) {
    'A' <= c <= 'J'
  }

  predicate IsDigit(c: char) {
    '0' <= c <= '9'
  }

  /** The language of the anchored pattern `^[A-J](10|[1-9])$`: a row letter
      followed by "1" .. "9" or by "10". Matching is case-sensitive. */
  predicate MatchesPattern(s: string) {
    (|s| == 2 && IsRowLetter(s[0]) && '1' <= s[1] <= '9') ||
    (|s| == 3 && IsRowLetter(s[0]) && s[1] == '1' && s[2] == '0')
  }

  /** The value of a string of decimal digits (what `strconv.ParseUint(s, 10, _)`
      returns for such a string). */
  function DecimalValue(s: string): (n: nat)
    requires forall i :: 0 <= i < |s| ==> IsDigit(s[i])
    ensures |s| == 1 ==> n == s[0] as int - '0' as int
    ensures |s| == 2 ==> n == 10 * (s[0] as int - '0' as int) + (s[1] as int - '0' as int)
  {
    if s == [] then 0
    else
      assert IsDigit(s[|s| - 1]);
      10 * DecimalValue(s[..|s| - 1]) + (s[|s| - 1] as int - '0' as int)
  }

  /** The column number written after the letter: 1 .. 10. */
  function ColumnNumber(s: string): (n: nat)
    requires MatchesPattern(s)
    ensures 1 <= n <= Cols
    ensures |s| == 2 ==> n == s[1] as int - '0' as int
    ensures |s| == 3 ==> n == 10
  {
    DecimalValue(s[1..])
  }

  /** Row is the letter's distance from 'A', column is the number minus one;
      any text outside the pattern is a `PatternMismatch` carrying the text. */
  function ConvertInputToPosition(input: string): (r: Result<Position, PatternMismatch>)
    ensures r.Err? <==> !MatchesPattern(input)
    ensures r.Err? ==> r.error == PatternMismatch(input)
    ensures r.Ok? ==> InRange(r.value)
    ensures r.Ok? ==> r.value.row as int == input[0] as int - 'A' as int
    ensures r.Ok? ==> r.value.col as int == ColumnNumber(input) - 1
  {
    if !MatchesPattern(input) then
      Err(PatternMismatch(input))
    else
      var row := input[0] as int - 'A' as int;
      var col := ColumnNumber(input);
      Ok(Position(row as uint8, WrapU8(col - 1)))
  }

  /** The label a player types for a board position: the inverse of parsing. */
  function Label(p: Position): (s: string)
    requires InRange(p)
    ensures MatchesPattern(s)
  {
    var letter := ('A' as int + p.row as int) as char;
    if p.col as int == Cols - 1 then [letter, '1', '0']
    else [letter, ('1' as int + p.col as int) as char]
  }

  /** The pattern accepts exactly the labels of the 100 board positions. */
  lemma PatternIsLabels(s: string)
    ensures MatchesPattern(s) <==> exists p :: InRange(p) && Label(p) == s
  {
    if MatchesPattern(s) {
      var p := ConvertInputToPosition(s).value;
      ParsedIsLabel(s, p);
    }
  }

  /** Every board position is reached by parsing its label. */
  lemma LabelParses(p: Position)
    requires InRange(p)
    ensures ConvertInputToPosition(Label(p)) == Ok(p)
  {
    var s := Label(p);
    var q := ConvertInputToPosition(s).value;
    assert q.row == p.row;
    if p.col as int == Cols - 1 {
      assert s[1..] == "10";
    } else {
      assert s[1..] == [s[1]];
    }
  }

  /** Parsing accepts each label of exactly one position: the accepted text is
      that position's label. */
  lemma ParsedIsLabel(s: string, p: Position)
    requires ConvertInputToPosition(s) == Ok(p)
    ensures Label(p) == s
  {
    var l := Label(p);
    assert l[0] == s[0];
    if |s| == 3 {
      assert p.col as int == Cols - 1;
    } else {
      assert s[1..] == [s[1]];
      assert l[1] == s[1];
    }
  }

  /** The cases the repository's tests pin down: labels at the four corners and
      in the middle, and texts outside the pattern (a zero column, an eleventh
      column, a letter past 'J', a lower-case letter). */
  lemma ParsingExamples()
    ensures ConvertInputToPosition("A1") == Ok(Position(0, 0))
    ensures ConvertInputToPosition("A10") == Ok(Position(0, 9))
    ensures ConvertInputToPosition("J1") == Ok(Position(9, 0))
    ensures ConvertInputToPosition("J10") == Ok(Position(9, 9))
    ensures ConvertInputToPosition("B5") == Ok(Position(1, 4))
    ensures ConvertInputToPosition("C6") == Ok(Position(2, 5))
    ensures ConvertInputToPosition("D7") == Ok(Position(3, 6))
    ensures ConvertInputToPosition("E8") == Ok(Position(4, 7))
    ensures ConvertInputToPosition("A0") == Err(PatternMismatch("A0"))
    ensures ConvertInputToPosition("A11") == Err(PatternMismatch("A11"))
    ensures ConvertInputToPosition("K1") == Err(PatternMismatch("K1"))
    ensures ConvertInputToPosition("a1") == Err(PatternMismatch("a1"))
  {
    LabelParses(Position(0, 0));
    LabelParses(Position(0, 9));
    LabelParses(Position(9, 0));
    LabelParses(Position(9, 9));
    LabelParses(Position(1, 4));
    LabelParses(Position(2, 5));
    LabelParses(Position(3, 6));
    LabelParses(Position(4, 7));
  }
}
