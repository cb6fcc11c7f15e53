/// The move parsers of the older go/ crate: `parse_move_position` in
/// go/src/ui.rs and the one in go/src/game.rs. Both split the text after its
/// first character, demand a letter there and only digits after it, and read
/// the digits as a decimal number, so a column may take several digits. The
/// first answers `(row, col)` and reports a bad number as an error; the
/// second answers `(col, row)` and unwraps the number.
module GoParsers {
  import opened Stones
  import opened Text

  const FirstError := "Non-alphabetical first coordinate"
  const SecondError := "Non-digit second coordinate"
  const NumberError := "Input was only 1 character"

  /// The largest `usize` on a 64-bit target.
  const UsizeMax: nat := 0xFFFF_FFFF_FFFF_FFFF

  predicate AllDigits(s: seq<char>)
  {
    forall k :: 0 <= k < |s| ==> IsDigit(s[k])
  }

  /// The number a string of decimal digits denotes (zero for no digits).
  function DecimalValue(s: seq<char>): nat
    requires AllDigits(s)
    decreases |s|
  {
    if s == [] then 0 else DecimalValue(s[..|s| - 1]) * 10 + (s[|s| - 1] as int - '0' as int)
  }

  /// The decimal spelling of `n`, without leading zeros.
  function Decimal(n: nat): (s: seq<char>)
    ensures |s| > 0 && AllDigits(s) && (n > 0 ==> s[0] != '0')
  {
    if n < 10 then [('0' as int + n) as char]
    else Decimal(n / 10) + [('0' as int + n % 10) as char]
  }

  /// Reading back a decimal spelling gives the number.
  lemma {:induction false} DecimalRoundTrip(n: nat)
    ensures DecimalValue(Decimal(n)) == n
  {
    if n >= 10 {
      var s := Decimal(n);
      DecimalRoundTrip(n / 10);
      assert s[..|s| - 1] == Decimal(n / 10);
    }
  }

  /// `split_at(1)` needs a first character one byte wide; on an empty text
  /// or a wider first character it panics.
  predicate SplitsAtOne(mv: seq<char>)
  {
    |mv| > 0 && mv[0] as int < 0x80
  }

  /// A letter followed by digits only.
  predicate WellShaped(mv: seq<char>)
    requires |mv| > 0
  {
    IsLetter(mv[0]) && AllDigits(mv[1..])
  }

  /// The inputs on which `col - 1` in go/src/ui.rs goes below zero: the
  /// number parses and is zero. The source panics there.
  predicate ZeroNumber(mv: seq<char>)
    requires |mv| > 0
  {
    WellShaped(mv) && |mv| > 1 && DecimalValue(mv[1..]) == 0
  }

  /// `parse_move_position` of go/src/ui.rs.
  function ParseSplitPosition(mv: seq<char>): (r: Result<(nat, nat)>)
    requires SplitsAtOne(mv) && !ZeroNumber(mv)
  {
    var rest := mv[1..];
    if !IsLetter(mv[0]) then Err(FirstError)
    else if !AllDigits(rest) then Err(SecondError)
    else if rest == [] || DecimalValue(rest) > UsizeMax then Err(NumberError)
    else Ok(((mv[0] as int - 'A' as int) as nat, DecimalValue(rest) - 1))
  }

  /// The inputs on which go/src/game.rs does not panic: it unwraps the
  /// number, which fails on no digits or on an overflow, and then
  /// subtracts one from it.
  predicate ColumnFirstDefined(mv: seq<char>)
  {
    SplitsAtOne(mv) && (WellShaped(mv) ==> |mv| > 1 && 1 <= DecimalValue(mv[1..]) <= UsizeMax)
  }

  /// `parse_move_position` of go/src/game.rs.
  function ParseColumnFirst(mv: seq<char>): (r: Result<(nat, nat)>)
    requires ColumnFirstDefined(mv)
  {
    var rest := mv[1..];
    if !IsLetter(mv[0]) then Err(FirstError)
    else if !AllDigits(rest) then Err(SecondError)
    else Ok((DecimalValue(rest) - 1, (mv[0] as int - 'A' as int) as nat))
  }

  /// go/src/ui.rs accepts exactly a letter followed by a non-empty run of
  /// digits that fits a `usize`; the row is the letter's distance from `A`
  /// and the column one less than the number.
  lemma SplitAccepts(mv: seq<char>)
    requires SplitsAtOne(mv) && !ZeroNumber(mv)
    ensures ParseSplitPosition(mv).Ok? <==>
      WellShaped(mv) && |mv| > 1 && DecimalValue(mv[1..]) <= UsizeMax
    ensures ParseSplitPosition(mv).Ok? ==>
      var (row, col) := ParseSplitPosition(mv).value;
      mv[0] as int == 'A' as int + row && DecimalValue(mv[1..]) == col + 1
    ensures !IsLetter(mv[0]) ==> ParseSplitPosition(mv) == Err(FirstError)
    ensures IsLetter(mv[0]) && !AllDigits(mv[1..]) ==> ParseSplitPosition(mv) == Err(SecondError)
  {
  }

  /// Every position with a row letter and a column that fits is read back
  /// from its spelling, however many digits the column takes.
  lemma SplitRoundTrip(row: nat, col: nat)
    requires row < 26 && col < UsizeMax
    ensures var mv := [('A' as int + row) as char] + Decimal(col + 1);
      SplitsAtOne(mv) && !ZeroNumber(mv) && ParseSplitPosition(mv) == Ok((row, col))
  {
    var mv := [('A' as int + row) as char] + Decimal(col + 1);
    DecimalRoundTrip(col + 1);
    assert mv[1..] == Decimal(col + 1);
  }

  /// Multi-digit columns are read whole, a lower-case letter is not folded
  /// (that is left to `get_move`), and a lone letter has no number.
  lemma SplitExamples()
    ensures ParseSplitPosition("A10") == Ok((0, 9))
    ensures ParseSplitPosition("a1") == Ok((32, 0))
    ensures ParseSplitPosition("A") == Err(NumberError)
    ensures ParseSplitPosition("1A") == Err(FirstError)
    ensures ParseSplitPosition("AB") == Err(SecondError)
  {
    assert "A10"[1..] == "10" && "10"[..1] == "1" && "1"[..0] == "";
    assert DecimalValue("1") == 1;
    assert DecimalValue("10") == 10;
    assert "a1"[1..] == "1";
    assert "AB"[1..] == "B";
  }

  /// The parser of go/src/game.rs checks the same things with the same
  /// messages and answers the same position with its coordinates swapped.
  lemma ColumnFirstSwaps(mv: seq<char>)
    requires ColumnFirstDefined(mv)
    ensures !ZeroNumber(mv)
    ensures ParseSplitPosition(mv).Err? ==> ParseColumnFirst(mv) == ParseSplitPosition(mv)
    ensures ParseSplitPosition(mv).Ok? ==>
      ParseColumnFirst(mv) == Ok((ParseSplitPosition(mv).value.1, ParseSplitPosition(mv).value.0))
  {
  }
}
