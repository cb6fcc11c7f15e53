/// The two-character move parsers of the current crate: `parse_move_position`
/// in src/ui.rs, which takes the text as it is handed over, and the one in
/// src/ui/mod.rs, which trims it first. A move is a letter naming the row
/// (either case) and a digit from 1 to 9 naming the column; both answer a
/// zero-based `(row, col)`.
module MoveParsers {
  import opened Stones
  import opened Text

  const LengthError := "Move should be 2 characters"
  const RowError := "Non-alphabetical row"
  const ColumnError := "Non-digit column"

  /// The input on which `(col - b'0') as usize - 1` would go below zero: two
  /// bytes that pass both checks with the digit `0`. The source panics there.
  predicate ZeroColumn(mv: seq<char>)
  {
    var b := Utf8(mv);
    |b| == 2 && IsAsciiAlphabetic(ToAsciiUppercase(b[0])) && b[1] == 0x30
  }

  /// `parse_move_position` of src/ui.rs, on the UTF-8 bytes of the text.
  function ParseMovePosition(mv: seq<char>): (r: Result<(nat, nat)>)
    requires !ZeroColumn(mv)
  {
    var b := Utf8(mv);
    if |b| != 2 then Err(LengthError)
    else
      var row := ToAsciiUppercase(b[0]);
      var col := b[1];
      if !IsAsciiAlphabetic(row) then Err(RowError)
      else if !IsAsciiDigit(col) then Err(ColumnError)
      else Ok(((row - 0x41) as nat, (col - 0x30) as nat - 1))
  }

  /// `parse_move_position` of src/ui/mod.rs: the same checks after `trim`.
  function ParseTrimmedMovePosition(mv: seq<char>): (r: Result<(nat, nat)>)
    requires !ZeroColumn(Trim(mv))
  {
    ParseMovePosition(Trim(mv))
  }

  /// The canonical spelling of a position: an upper-case row letter and a
  /// column digit counted from one.
  function Format(row: nat, col: nat): (s: seq<char>)
    requires row < 26 && col < 9
    ensures |s| == 2 && IsLetter(s[0]) && 'A' <= s[0] <= 'Z' && IsDigit(s[1]) && s[1] != '0'
  {
    [(0x41 + row) as char, (0x31 + col) as char]
  }

  /// Which error the parser reports is decided by the first check that
  /// fails: the byte length, then the upper-cased first byte, then the
  /// second byte.
  lemma ParseErrors(mv: seq<char>)
    requires !ZeroColumn(mv)
    ensures var b := Utf8(mv);
      && (|b| != 2 ==> ParseMovePosition(mv) == Err(LengthError))
      && (|b| == 2 && !IsAsciiAlphabetic(b[0]) ==> ParseMovePosition(mv) == Err(RowError))
      && (|b| == 2 && IsAsciiAlphabetic(b[0]) && !IsAsciiDigit(b[1]) ==> ParseMovePosition(mv) == Err(ColumnError))
  {
  }

  /// A move is accepted exactly when it is two characters, an ASCII letter
  /// and an ASCII digit; the answer lies on a 26 by 9 board, and the input
  /// spells it in either case.
  lemma ParseAccepts(mv: seq<char>)
    requires !ZeroColumn(mv)
    ensures ParseMovePosition(mv).Ok? <==> |mv| == 2 && IsLetter(mv[0]) && IsDigit(mv[1])
    ensures ParseMovePosition(mv).Ok? ==>
      var (row, col) := ParseMovePosition(mv).value;
      row < 26 && col < 9 && UpperAll(mv) == Format(row, col)
  {
    var b := Utf8(mv);
    if ParseMovePosition(mv).Ok? {
      TwoBytesLetterFirst(mv);
      var (row, col) := ParseMovePosition(mv).value;
      assert UpperAll(mv)[0] == Format(row, col)[0];
      assert UpperAll(mv)[1] == Format(row, col)[1];
    } else if |mv| == 2 && IsLetter(mv[0]) && IsDigit(mv[1]) {
      Utf8Ascii(mv);
    }
  }

  /// Every position of a 26 by 9 board is read back from its spelling, in
  /// upper or lower case.
  lemma ParseFormat(row: nat, col: nat)
    requires row < 26 && col < 9
    ensures !ZeroColumn(Format(row, col)) && ParseMovePosition(Format(row, col)) == Ok((row, col))
    ensures var lower := [(0x61 + row) as char, (0x31 + col) as char];
      !ZeroColumn(lower) && ParseMovePosition(lower) == Ok((row, col))
  {
    var s := Format(row, col);
    Utf8Ascii(s);
    var lower := [(0x61 + row) as char, (0x31 + col) as char];
    Utf8Ascii(lower);
  }

  /// The cases the module's tests pin down.
  lemma ParseExamples()
    ensures ParseMovePosition("A1") == Ok((0, 0)) && ParseMovePosition("a1") == Ok((0, 0))
    ensures ParseMovePosition("a").Err? && ParseMovePosition("1").Err? && ParseMovePosition("").Err?
    ensures ParseMovePosition("11") == Err(RowError) && ParseMovePosition("aa") == Err(ColumnError)
    ensures ParseMovePosition("a1b") == Err(LengthError)
  {
    ParseFormat(0, 0);
    Utf8Ascii("a");
    Utf8Ascii("1");
    Utf8Ascii("11");
    Utf8Ascii("aa");
    Utf8Ascii("a1b");
  }

  /// The variant of src/ui.rs does not trim, so a padded move fails the
  /// length check, while the trimming variant of src/ui/mod.rs ignores any
  /// whitespace around the move.
  lemma PaddingMatters(pre: seq<char>, mv: seq<char>, post: seq<char>)
    requires AllWhitespace(pre) && AllWhitespace(post) && |pre + post| > 0
    requires !ZeroColumn(mv) && ParseMovePosition(mv).Ok?
    ensures !ZeroColumn(pre + mv + post) && ParseMovePosition(pre + mv + post) == Err(LengthError)
    ensures !ZeroColumn(Trim(pre + mv + post)) && ParseTrimmedMovePosition(pre + mv + post) == ParseMovePosition(mv)
  {
    ParseAccepts(mv);
    var line := pre + mv + post;
    assert |Utf8(line)| >= |line| > 2;
    assert !IsWhitespace(mv[0]) && !IsWhitespace(mv[1]);
    TrimmedIsFixed(mv);
    TrimPadded(pre, mv, post);
    assert Trim(line) == mv;
  }

  /// The two variants agree on what each receives: the trimming parser on
  /// a raw line gives what the non-trimming one gives on the line that
  /// `get_move` prepares from it.
  lemma VariantsAgree(line: seq<char>)
    requires !ZeroColumn(Trim(line))
    ensures !ZeroColumn(Normalized(line))
    ensures ParseMovePosition(Normalized(line)) == ParseTrimmedMovePosition(line)
  {
    var t := Trim(line);
    Utf8Upper(t);
    var b, u := Utf8(t), Utf8(Normalized(line));
    assert u == UpperBytes(b);
    if |b| == 2 {
      var row, col := ToAsciiUppercase(b[0]), b[1];
      assert u[0] == row && u[1] == ToAsciiUppercase(col);
      assert ToAsciiUppercase(u[0]) == row;
      assert IsAsciiDigit(col) ==> u[1] == col;
      assert IsAsciiDigit(u[1]) ==> u[1] == col;
    }
  }

  /// The trimming variant accepts exactly the texts whose trim is an ASCII
  /// letter followed by an ASCII digit, so at most 26 by 9 positions.
  lemma TrimmedAccepts(mv: seq<char>)
    requires !ZeroColumn(Trim(mv))
    ensures var t := Trim(mv);
      ParseTrimmedMovePosition(mv).Ok? <==> |t| == 2 && IsLetter(t[0]) && IsDigit(t[1])
    ensures ParseTrimmedMovePosition(mv).Ok? ==>
      ParseTrimmedMovePosition(mv).value.0 < 26 && ParseTrimmedMovePosition(mv).value.1 < 9
  {
    ParseAccepts(Trim(mv));
  }

  /// On a text with no whitespace at either end, such as every case the
  /// tests of src/ui/mod.rs try, the trimming variant answers what the
  /// non-trimming one answers.
  lemma TrimmedOnBareInput(mv: seq<char>)
    requires mv != [] ==> !IsWhitespace(mv[0]) && !IsWhitespace(mv[|mv| - 1])
    requires !ZeroColumn(mv)
    ensures !ZeroColumn(Trim(mv)) && ParseTrimmedMovePosition(mv) == ParseMovePosition(mv)
  {
    TrimmedIsFixed(mv);
  }
}
