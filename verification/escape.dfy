/** The search escaper: before a search query is compiled into a regular
    expression, every character that has a meaning in pattern syntax, and
    every whitespace character, is prefixed with a backslash so that it
    matches literally. */
module RegexEscape {
  import opened Common

  /** The whitespace class `\s` of ECMAScript regular expressions: tab, line
      feed, vertical tab, form feed, carriage return, space, the byte order
      mark, the Unicode space separators and the two Unicode line
      terminators. */
  predicate IsRegexWhitespace(c: char) {
    var n := c as int;
    || (9 <= n <= 13)
    || n == 0x20 || n == 0xA0 || n == 0x1680
    || (0x2000 <= n <= 0x200A)
    || n == 0x2028 || n == 0x2029 || n == 0x202F || n == 0x205F
    || n == 0x3000 || n == 0xFEFF
  }

  /** The punctuation listed in the escaper's character class. */
  const Punctuation: set<char> :=
    {'-', '[', ']', '{', '}', '(', ')', '*', '+', '?', '.', ',', '\\', '^', '$', '|', '#'}

  /** The characters the escaper prefixes with a backslash. */
  predicate IsSpecial(c: char) {
    c in Punctuation || IsRegexWhitespace(c)
  }

  /** The number of characters of `s` that get escaped. */
  function CountSpecial(s: seq<char>): nat {
    if s == [] then 0
    else (if IsSpecial(s[0]) then 1 else 0) + CountSpecial(s[1..])
  }

  /** The image of one input character. */
  function EscapeChar(c: char): seq<char> {
    if IsSpecial(c) then ['\\', c] else [c]
  }

  /** The escaper: each character replaced by its image, left to right. */
  function Escape(s: seq<char>): (r: seq<char>)
    ensures |r| == |s| + CountSpecial(s)
    ensures r == [] <==> s == []
  {
    if s == [] then [] else EscapeChar(s[0]) + Escape(s[1..])
  }

  /** Reads a pattern back as the literal text it matches: a backslash must
      be followed by a special character, which it makes literal, and a
      special character must not appear unescaped. `None` means the pattern
      is not a fully escaped literal. */
  function Unescape(p: seq<char>): Option<seq<char>>
    decreases |p|
  {
    if p == [] then Some([])
    else if p[0] == '\\' then
      if |p| >= 2 && IsSpecial(p[1]) then
        match Unescape(p[2..])
        case None => None
        case Some(rest) => Some([p[1]] + rest)
      else None
    else if IsSpecial(p[0]) then None
    else
      match Unescape(p[1..])
      case None => None
      case Some(rest) => Some([p[0]] + rest)
  }

  /** The escaper distributes over concatenation, so the output is the
      concatenation of the per-character images. */
  lemma {:induction false} EscapeAppend(a: seq<char>, b: seq<char>)
    ensures Escape(a + b) == Escape(a) + Escape(b)
  {
    if a == [] {
      assert a + b == b;
    } else {
      assert (a + b)[0] == a[0];
      assert (a + b)[1..] == a[1..] + b;
      EscapeAppend(a[1..], b);
    }
  }

  /** Every character is mapped on its own: a special character gains a
      backslash in front of it, any other character is copied. */
  lemma EscapeSingle(c: char)
    ensures IsSpecial(c) ==> Escape([c]) == ['\\', c]
    ensures !IsSpecial(c) ==> Escape([c]) == [c]
  {
  }

  /** Dropping the inserted backslashes gives the input back: the escaped
      query is a literal pattern for exactly the query. */
  lemma {:induction false} UnescapeEscape(s: seq<char>)
    ensures Unescape(Escape(s)) == Some(s)
  {
    if s != [] {
      UnescapeEscape(s[1..]);
      var r := Escape(s);
      var tail := Escape(s[1..]);
      if IsSpecial(s[0]) {
        assert r == ['\\', s[0]] + tail;
        assert r[2..] == tail;
      } else {
        assert r == [s[0]] + tail;
        assert r[1..] == tail;
      }
      assert s == [s[0]] + s[1..];
    }
  }

  /** Conversely, every fully escaped literal pattern is the escaper's output
      for the text it reads back as. */
  lemma {:induction false} EscapeUnescape(p: seq<char>)
    ensures Unescape(p).Some? ==> Escape(Unescape(p).value) == p
    decreases |p|
  {
    if p != [] && Unescape(p).Some? {
      var s := Unescape(p).value;
      if p[0] == '\\' {
        EscapeUnescape(p[2..]);
        assert s[0] == p[1] && s[1..] == Unescape(p[2..]).value;
        assert p == ['\\', p[1]] + p[2..];
      } else {
        EscapeUnescape(p[1..]);
        assert s[0] == p[0] && s[1..] == Unescape(p[1..]).value;
        assert p == [p[0]] + p[1..];
      }
    }
  }

  /** Distinct queries give distinct patterns. */
  lemma EscapeInjective(a: seq<char>, b: seq<char>)
    ensures Escape(a) == Escape(b) ==> a == b
  {
    UnescapeEscape(a);
    UnescapeEscape(b);
  }
}
