/// The string primitives the move parsers rely on: `str::trim`, ASCII
/// upper-casing, the UTF-8 bytes behind `str::len` and `str::as_bytes`, and
/// the ASCII byte and character classes.
module Text {

  newtype byte = b: int | 0 <= b < 256

  /// `char::is_whitespace`: the Unicode White_Space characters.
  predicate IsWhitespace(c: char)
  {
    || ('\t' <= c <= '\r') || c == ' ' || c == '\U{0085}' || c == '\U{00A0}' || c == '\U{1680}'
    || ('\U{2000}' <= c <= '\U{200A}') || c == '\U{2028}' || c == '\U{2029}' || c == '\U{202F}'
    || c == '\U{205F}' || c == '\U{3000}'
  }

  predicate AllWhitespace(s: seq<char>)
  {
    forall k :: 0 <= k < |s| ==> IsWhitespace(s[k])
  }

  /// `str::trim_start`: what is left after the leading whitespace.
  function TrimStart(s: seq<char>): (r: seq<char>)
    ensures |r| <= |s| && r == s[|s| - |r|..]
    ensures AllWhitespace(s[..|s| - |r|])
    ensures r != [] ==> !IsWhitespace(r[0])
    decreases |s|
  {
    if s != [] && IsWhitespace(s[0]) then TrimStart(s[1..]) else s
  }

  /// `str::trim_end`: what is left before the trailing whitespace.
  function TrimEnd(s: seq<char>): (r: seq<char>)
    ensures |r| <= |s| && r == s[..|r|]
    ensures AllWhitespace(s[|r|..])
    ensures r != [] ==> !IsWhitespace(r[|r| - 1])
    decreases |s|
  {
    if s != [] && IsWhitespace(s[|s| - 1]) then TrimEnd(s[..|s| - 1]) else s
  }

  /// `str::trim`.
  function Trim(s: seq<char>): seq<char>
  {
    TrimEnd(TrimStart(s))
  }

  /// Trimming keeps a middle slice of the text that neither starts nor
  /// ends with whitespace, and drops only whitespace around it.
  lemma TrimSlice(s: seq<char>)
    ensures var r := Trim(s);
      && (r != [] ==> !IsWhitespace(r[0]) && !IsWhitespace(r[|r| - 1]))
      && exists i :: 0 <= i <= |s| - |r| && r == s[i..i + |r|]
           && AllWhitespace(s[..i]) && AllWhitespace(s[i + |r|..])
  {
    var t := TrimStart(s);
    var r := TrimEnd(t);
    var i := |s| - |t|;
    assert r != [] ==> r[0] == t[0];
    assert r == s[i..i + |r|] by {
      assert t[..|r|] == s[i..i + |r|];
    }
    assert AllWhitespace(s[i + |r|..]) by {
      assert t[|r|..] == s[i + |r|..];
    }
    assert AllWhitespace(s[..i]);
  }

  /// Leading whitespace does not change what `trim_start` leaves.
  lemma {:induction false} TrimStartPadded(pad: seq<char>, s: seq<char>)
    requires AllWhitespace(pad)
    ensures TrimStart(pad + s) == TrimStart(s)
    decreases |pad|
  {
    if pad != [] {
      var t := pad + s;
      assert t[0] == pad[0] && IsWhitespace(t[0]);
      assert t[1..] == pad[1..] + s;
      assert AllWhitespace(pad[1..]) by {
        assert forall k :: 0 <= k < |pad| - 1 ==> pad[1..][k] == pad[k + 1];
      }
      TrimStartPadded(pad[1..], s);
      calc {
        TrimStart(t);
        TrimStart(t[1..]);
        TrimStart(s);
      }
    } else {
      assert pad + s == s;
    }
  }

  /// Trailing whitespace does not change what `trim_end` leaves.
  lemma {:induction false} TrimEndPadded(s: seq<char>, pad: seq<char>)
    requires AllWhitespace(pad)
    ensures TrimEnd(s + pad) == TrimEnd(s)
    decreases |pad|
  {
    if pad != [] {
      var t := s + pad;
      var init := pad[..|pad| - 1];
      assert t[|t| - 1] == pad[|pad| - 1] && IsWhitespace(t[|t| - 1]);
      assert t[..|t| - 1] == s + init;
      assert AllWhitespace(init) by {
        assert forall k :: 0 <= k < |init| ==> init[k] == pad[k];
      }
      TrimEndPadded(s, init);
      calc {
        TrimEnd(t);
        TrimEnd(t[..|t| - 1]);
        TrimEnd(s);
      }
    } else {
      assert s + pad == s;
    }
  }

  /// Once `trim_start` reaches a non-blank character, what follows is kept.
  lemma {:induction false} TrimStartAppend(s: seq<char>, post: seq<char>)
    requires TrimStart(s) != []
    ensures TrimStart(s + post) == TrimStart(s) + post
    decreases |s|
  {
    assert (s + post)[0] == s[0];
    if IsWhitespace(s[0]) {
      assert (s + post)[1..] == s[1..] + post;
      TrimStartAppend(s[1..], post);
    }
  }

  /// A text with no whitespace at either end is its own trim.
  lemma TrimmedIsFixed(s: seq<char>)
    requires s != [] ==> !IsWhitespace(s[0]) && !IsWhitespace(s[|s| - 1])
    ensures Trim(s) == s
  {
  }

  /// Padding a text with whitespace on both sides does not change its trim.
  lemma TrimPadded(pre: seq<char>, s: seq<char>, post: seq<char>)
    requires AllWhitespace(pre) && AllWhitespace(post)
    ensures Trim(pre + s + post) == Trim(s)
  {
    assert pre + s + post == pre + (s + post);
    TrimStartPadded(pre, s + post);
    var t := TrimStart(s);
    if t != [] {
      TrimStartAppend(s, post);
      TrimEndPadded(t, post);
    } else {
      assert s[..|s|] == s;
      assert AllWhitespace(s + post);
      TrimStartPadded(s + post, []);
      assert s + post + [] == s + post;
    }
  }

  /// Trimming twice is trimming once.
  lemma TrimIdempotent(s: seq<char>)
    ensures Trim(Trim(s)) == Trim(s)
  {
    TrimSlice(s);
    TrimmedIsFixed(Trim(s));
  }

  /// `u8::is_ascii_alphabetic`.
  predicate IsAsciiAlphabetic(b: byte)
  {
    0x41 <= b <= 0x5A || 0x61 <= b <= 0x7A
  }

  /// `u8::is_ascii_digit`.
  predicate IsAsciiDigit(b: byte)
  {
    0x30 <= b <= 0x39
  }

  /// `u8::to_ascii_uppercase`: lower-case ASCII letters move to upper case,
  /// every other byte stays.
  function ToAsciiUppercase(b: byte): (r: byte)
    ensures !(0x61 <= r <= 0x7A)
    ensures IsAsciiAlphabetic(r) <==> IsAsciiAlphabetic(b)
    ensures !IsAsciiAlphabetic(b) ==> r == b
    ensures (r == b) <==> !(0x61 <= b <= 0x7A)
  {
    if 0x61 <= b <= 0x7A then b - 0x20 else b
  }

  /// An ASCII letter, as a character.
  predicate IsLetter(c: char)
  {
    'A' <= c <= 'Z' || 'a' <= c <= 'z'
  }

  /// An ASCII digit, as a character: `char::is_numeric` restricted to ASCII.
  predicate IsDigit(c: char)
  {
    '0' <= c <= '9'
  }

  /// `char::to_ascii_uppercase`.
  function AsciiUpper(c: char): (r: char)
    ensures IsLetter(r) <==> IsLetter(c)
    ensures !('a' <= r <= 'z')
    ensures !IsLetter(c) ==> r == c
  {
    if 'a' <= c <= 'z' then (c as int - 0x20) as char else c
  }

  /// `str::to_ascii_uppercase`.
  function UpperAll(s: seq<char>): (r: seq<char>)
    ensures |r| == |s| && forall k :: 0 <= k < |s| ==> r[k] == AsciiUpper(s[k])
  {
    seq(|s|, k requires 0 <= k < |s| => AsciiUpper(s[k]))
  }

  /// `line.trim().to_ascii_uppercase()`: what `get_move` hands to the
  /// parser in src/ui.rs and returns in go/src/game.rs.
  function Normalized(line: seq<char>): seq<char>
  {
    UpperAll(Trim(line))
  }

  /// The UTF-8 encoding of one character: one byte for ASCII, and otherwise
  /// two to four bytes, none of them below 0x80.
  function Utf8Char(c: char): (b: seq<byte>)
    ensures 1 <= |b| <= 4
    ensures |b| == 1 <==> c as int < 0x80
    ensures |b| == 1 ==> b[0] as int == c as int
    ensures |b| > 1 ==> forall k :: 0 <= k < |b| ==> b[k] >= 0x80
  {
    var n := c as int;
    if n < 0x80 then [n as byte]
    else if n < 0x800 then [(0xC0 + n / 0x40) as byte, (0x80 + n % 0x40) as byte]
    else if n < 0x10000 then
      [(0xE0 + n / 0x1000) as byte, (0x80 + (n / 0x40) % 0x40) as byte, (0x80 + n % 0x40) as byte]
    else
      [(0xF0 + n / 0x40000) as byte, (0x80 + (n / 0x1000) % 0x40) as byte,
       (0x80 + (n / 0x40) % 0x40) as byte, (0x80 + n % 0x40) as byte]
  }

  /// `str::as_bytes`: the UTF-8 encoding of the text. `str::len` is its
  /// length, never less than the number of characters.
  function Utf8(s: seq<char>): (b: seq<byte>)
    ensures |b| >= |s|
    decreases |s|
  {
    if s == [] then [] else Utf8Char(s[0]) + Utf8(s[1..])
  }

  /// An ASCII text is its own byte string.
  lemma {:induction false} Utf8Ascii(s: seq<char>)
    requires forall k :: 0 <= k < |s| ==> s[k] as int < 0x80
    ensures |Utf8(s)| == |s| && forall k :: 0 <= k < |s| ==> Utf8(s)[k] as int == s[k] as int
    decreases |s|
  {
    if s != [] {
      Utf8Ascii(s[1..]);
    }
  }

  /// A two-byte text whose first byte is an ASCII letter is two ASCII
  /// characters, and those are its bytes.
  lemma TwoBytesLetterFirst(s: seq<char>)
    requires |Utf8(s)| == 2 && IsAsciiAlphabetic(ToAsciiUppercase(Utf8(s)[0]))
    ensures |s| == 2 && s[0] as int < 0x80 && s[1] as int < 0x80
    ensures Utf8(s)[0] as int == s[0] as int && Utf8(s)[1] as int == s[1] as int
  {
    var head := Utf8Char(s[0]);
    assert Utf8(s) == head + Utf8(s[1..]);
    assert Utf8(s)[0] == head[0];
    var rest := s[1..];
    assert Utf8(rest) == Utf8Char(rest[0]) + Utf8(rest[1..]);
  }

  /// `str::to_ascii_uppercase` on the bytes of a text.
  function UpperBytes(b: seq<byte>): (r: seq<byte>)
    ensures |r| == |b| && forall k :: 0 <= k < |b| ==> r[k] == ToAsciiUppercase(b[k])
  {
    seq(|b|, k requires 0 <= k < |b| => ToAsciiUppercase(b[k]))
  }

  /// Upper-casing the characters upper-cases the bytes: the characters
  /// outside ASCII, whose bytes are all at least 0x80, are left alone.
  lemma {:induction false} Utf8Upper(s: seq<char>)
    ensures Utf8(UpperAll(s)) == UpperBytes(Utf8(s))
    decreases |s|
  {
    if s != [] {
      var u := UpperAll(s);
      assert u[1..] == UpperAll(s[1..]);
      Utf8Upper(s[1..]);
      var c := s[0];
      if c as int >= 0x80 {
        assert u[0] == c;
        assert Utf8Char(c) == UpperBytes(Utf8Char(c));
      }
      assert UpperBytes(Utf8(s)) == UpperBytes(Utf8Char(c)) + UpperBytes(Utf8(s[1..]));
    }
  }
}
