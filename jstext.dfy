/**
 * The JavaScript string primitives the quiz relies on, over strings of
 * Unicode characters: `trim`, `split(" ")` followed by `filter(Boolean)`,
 * `toUpperCase` (ASCII letters only) and `encodeURIComponent`.
 */
module JsText {

  /** WhiteSpace and LineTerminator characters that `String.prototype.trim` removes. */
  predicate IsWhiteSpace(c: char)
  {
    c == '\t' || c == '\n' || c == '\U{B}' || c == '\U{C}' || c == '\r' || c == ' '
    || c == '\U{A0}' || c == '\U{1680}' || ('\U{2000}' <= c <= '\U{200A}')
    || c == '\U{2028}' || c == '\U{2029}' || c == '\U{202F}' || c == '\U{205F}'
    || c == '\U{3000}' || c == '\U{FEFF}'
  }

  predicate AllWhiteSpace(s: string)
  {
    forall k :: 0 <= k < |s| ==> IsWhiteSpace(s[k])
  }

  /** Drops leading white space: what is left is no longer and starts with a non-space. */
  function TrimStart(s: string): (r: string)
    ensures |r| <= |s|
    ensures r != [] ==> !IsWhiteSpace(r[0])
  {
    if s != [] && IsWhiteSpace(s[0]) then TrimStart(s[1..]) else s
  }

  /** What TrimStart leaves is a suffix of `s`, and what it drops is white space. */
  lemma {:induction false} TrimStartIsSuffix(s: string)
    ensures TrimStart(s) == s[|s| - |TrimStart(s)|..]
    ensures AllWhiteSpace(s[..|s| - |TrimStart(s)|])
  {
    if s != [] && IsWhiteSpace(s[0]) {
      TrimStartIsSuffix(s[1..]);
      var r := TrimStart(s[1..]);
      assert s[..|s| - |r|] == [s[0]] + s[1..][..|s[1..]| - |r|];
    }
  }

  /** Drops trailing white space: what is left is no longer and ends with a non-space. */
  function TrimEnd(s: string): (r: string)
    ensures |r| <= |s|
    ensures r != [] ==> !IsWhiteSpace(r[|r| - 1])
  {
    if s != [] && IsWhiteSpace(s[|s| - 1]) then TrimEnd(s[..|s| - 1]) else s
  }

  /** What TrimEnd leaves is a prefix of `s`, and what it drops is white space. */
  lemma {:induction false} TrimEndIsPrefix(s: string)
    ensures TrimEnd(s) == s[..|TrimEnd(s)|]
    ensures AllWhiteSpace(s[|TrimEnd(s)|..])
  {
    if s != [] && IsWhiteSpace(s[|s| - 1]) {
      TrimEndIsPrefix(s[..|s| - 1]);
      var r := TrimEnd(s[..|s| - 1]);
      assert s[|r|..] == s[..|s| - 1][|r|..] + [s[|s| - 1]];
    }
  }

  /** `s.trim()` */
  function Trim(s: string): (r: string)
  {
    TrimEnd(TrimStart(s))
  }

  /** Trimming keeps a contiguous piece of `s`, removes only white space, and keeps no white space at either end. */
  lemma TrimIsSlice(s: string) returns (i: nat)
    ensures i + |Trim(s)| <= |s| && Trim(s) == s[i..i + |Trim(s)|]
    ensures AllWhiteSpace(s[..i]) && AllWhiteSpace(s[i + |Trim(s)|..])
    ensures Trim(s) != [] ==> !IsWhiteSpace(Trim(s)[0]) && !IsWhiteSpace(Trim(s)[|Trim(s)| - 1])
  {
    var t := TrimStart(s);
    var r := TrimEnd(t);
    i := |s| - |t|;
    assert t == s[i..] && AllWhiteSpace(s[..i]) by {
      TrimStartIsSuffix(s);
    }
    assert r == t[..|r|] && AllWhiteSpace(t[|r|..]) by {
      TrimEndIsPrefix(t);
    }
    assert r == s[i..i + |r|];
    assert s[i + |r|..] == t[|r|..];
  }

  /** Neither end is white space. */
  predicate IsTrimmed(s: string)
  {
    s != [] ==> !IsWhiteSpace(s[0]) && !IsWhiteSpace(s[|s| - 1])
  }

  /** A string with no white space at either end is its own trim. */
  lemma TrimOfTrimmed(s: string)
    requires IsTrimmed(s)
    ensures Trim(s) == s
  {
  }

  /** What `trim` returns has no white space at either end. */
  lemma TrimIsTrimmed(s: string)
    ensures IsTrimmed(Trim(s))
  {
    var _ := TrimIsSlice(s);
  }

  /** Trimming twice is trimming once. */
  lemma TrimIdempotent(s: string)
    ensures Trim(Trim(s)) == Trim(s)
  {
    var _ := TrimIsSlice(s);
    TrimOfTrimmed(Trim(s));
  }

  /** `s.replace(/^@/, "")`: removes one leading `@`. */
  function StripLeadingAt(s: string): (r: string)
    ensures |s| > 0 && s[0] == '@' ==> s == "@" + r
    ensures !(|s| > 0 && s[0] == '@') ==> r == s
  {
    if |s| > 0 && s[0] == '@' then s[1..] else s
  }

  /** Joins `parts` with the separator between consecutive parts (the inverse of Split). */
  function Join(parts: seq<string>, sep: char): string
  {
    if parts == [] then ""
    else if |parts| == 1 then parts[0]
    else parts[0] + [sep] + Join(parts[1..], sep)
  }

  /**
   * `s.split(sep)` for a one-character separator: the pieces between
   * separators, including empty ones; ''.split(sep) is [''].
   */
  function Split(s: string, sep: char): (parts: seq<string>)
    ensures |parts| >= 1
  {
    if s == [] then [""]
    else
      var rest := Split(s[1..], sep);
      if s[0] == sep then [""] + rest
      else [[s[0]] + rest[0]] + rest[1..]
  }

  /** The pieces hold no separator, and joining them with the separator gives back `s`. */
  lemma {:induction false} SplitJoin(s: string, sep: char)
    ensures forall k :: 0 <= k < |Split(s, sep)| ==> sep !in Split(s, sep)[k]
    ensures Join(Split(s, sep), sep) == s
  {
    if s != [] {
      var rest := Split(s[1..], sep);
      SplitJoin(s[1..], sep);
      if s[0] == sep {
        assert Join([""] + rest, sep) == [sep] + Join(rest, sep);
      } else {
        var parts := [[s[0]] + rest[0]] + rest[1..];
        assert parts[1..] == rest[1..];
        assert s == [s[0]] + s[1..];
        assert sep !in parts[0];
      }
    }
  }

  /** Splitting at a separator is splitting either side of it. */
  lemma {:induction false} SplitAtSeparator(a: string, b: string, sep: char)
    ensures Split(a + [sep] + b, sep) == Split(a, sep) + Split(b, sep)
  {
    if a == [] {
      assert a + [sep] + b == [sep] + b;
      assert ([sep] + b)[1..] == b;
    } else {
      assert (a + [sep] + b)[1..] == a[1..] + [sep] + b;
      SplitAtSeparator(a[1..], b, sep);
    }
  }

  /** A string holding no separator splits into itself alone. */
  lemma {:induction false} SplitWithoutSeparator(w: string, sep: char)
    requires sep !in w
    ensures Split(w, sep) == [w]
  {
    if w != [] {
      assert sep !in w[1..];
      SplitWithoutSeparator(w[1..], sep);
      assert w == [w[0]] + w[1..];
    }
  }

  /** `parts.filter(Boolean)`: keeps the non-empty strings, in order. */
  function NonEmpty(parts: seq<string>): (r: seq<string>)
    ensures |r| <= |parts|
    ensures forall k :: 0 <= k < |r| ==> r[k] != []
  {
    if parts == [] then []
    else if parts[0] == [] then NonEmpty(parts[1..])
    else [parts[0]] + NonEmpty(parts[1..])
  }

  /** Filtering keeps exactly the non-empty pieces. */
  lemma {:induction false} NonEmptyMembers(parts: seq<string>)
    ensures forall p :: p in NonEmpty(parts) <==> p in parts && p != []
  {
    if parts != [] {
      NonEmptyMembers(parts[1..]);
      assert parts == [parts[0]] + parts[1..];
    }
  }

  lemma {:induction false} NonEmptyAppend(p: seq<string>, q: seq<string>)
    ensures NonEmpty(p + q) == NonEmpty(p) + NonEmpty(q)
  {
    if p == [] {
      assert p + q == q;
    } else {
      assert (p + q)[1..] == p[1..] + q;
      NonEmptyAppend(p[1..], q);
    }
  }

  /** `s.split(" ").filter(Boolean)`: the space-separated words of `s`. */
  function Words(s: string): (r: seq<string>)
    ensures forall k :: 0 <= k < |r| ==> r[k] != []
  {
    NonEmpty(Split(s, ' '))
  }

  /** Words are non-empty, hold no space, and are the non-empty pieces between spaces. */
  lemma WordsAreSpaceFree(s: string)
    ensures forall w :: w in Words(s) ==> w != [] && ' ' !in w && w in Split(s, ' ')
  {
    SplitJoin(s, ' ');
    NonEmptyMembers(Split(s, ' '));
  }

  /** The words of `a + " " + b` are the words of `a` followed by those of `b`. */
  lemma WordsAtSpace(a: string, b: string)
    ensures Words(a + " " + b) == Words(a) + Words(b)
  {
    SplitAtSeparator(a, b, ' ');
    NonEmptyAppend(Split(a, ' '), Split(b, ' '));
  }

  /** A non-empty string without spaces is one word; the empty string has none. */
  lemma WordsOfWord(w: string)
    requires ' ' !in w
    ensures Words(w) == if w == [] then [] else [w]
  {
    SplitWithoutSeparator(w, ' ');
  }

  /** `toUpperCase` restricted to ASCII: maps 'a'..'z' to 'A'..'Z' and keeps every other character. */
  function UpperChar(c: char): (r: char)
    ensures !('a' <= r <= 'z')
    ensures 'a' <= c <= 'z' ==> r as int == c as int - 32
    ensures !('a' <= c <= 'z') ==> r == c
  {
    if 'a' <= c <= 'z' then (c as int - 32) as char else c
  }

  function ToUpper(s: string): (r: string)
    ensures |r| == |s|
    ensures forall k :: 0 <= k < |s| ==> r[k] == UpperChar(s[k])
  {
    if s == [] then [] else [UpperChar(s[0])] + ToUpper(s[1..])
  }

  // ---------------------------------------------------------------------------
  // encodeURIComponent

  /** The characters `encodeURIComponent` leaves as they are. */
  predicate IsUnreserved(c: char)
  {
    ('A' <= c <= 'Z') || ('a' <= c <= 'z') || ('0' <= c <= '9')
    || c == '-' || c == '_' || c == '.' || c == '!' || c == '~'
    || c == '*' || c == '\'' || c == '(' || c == ')'
  }

  predicate IsUpperHexDigit(c: char)
  {
    ('0' <= c <= '9') || ('A' <= c <= 'F')
  }

  /** Characters that can occur in the output of `encodeURIComponent`. */
  predicate IsUriComponentChar(c: char)
  {
    IsUnreserved(c) || c == '%'
  }

  function HexDigit(d: nat): (c: char)
    requires d < 16
    ensures IsUpperHexDigit(c)
  {
    if d < 10 then ('0' as int + d) as char else ('A' as int + d - 10) as char
  }

  /** One byte as `%XY`. */
  function PercentByte(b: nat): (r: string)
    requires b < 256
    ensures |r| == 3 && r[0] == '%' && IsUpperHexDigit(r[1]) && IsUpperHexDigit(r[2])
  {
    ['%', HexDigit(b / 16), HexDigit(b % 16)]
  }

  /** The UTF-8 encoding of one Unicode scalar value. */
  function Utf8(c: char): (bytes: seq<nat>)
    ensures 1 <= |bytes| <= 4
    ensures forall k :: 0 <= k < |bytes| ==> bytes[k] < 256
  {
    var n := c as int;
    if n < 0x80 then [n]
    else if n < 0x800 then [0xC0 + n / 0x40, 0x80 + n % 0x40]
    else if n < 0x10000 then [0xE0 + n / 0x1000, 0x80 + (n / 0x40) % 0x40, 0x80 + n % 0x40]
    else [0xF0 + n / 0x40000, 0x80 + (n / 0x1000) % 0x40, 0x80 + (n / 0x40) % 0x40, 0x80 + n % 0x40]
  }

  function PercentBytes(bytes: seq<nat>): (r: string)
    requires forall k :: 0 <= k < |bytes| ==> bytes[k] < 256
    ensures |r| == 3 * |bytes|
    ensures forall k :: 0 <= k < |r| ==> IsUriComponentChar(r[k])
  {
    if bytes == [] then [] else PercentByte(bytes[0]) + PercentBytes(bytes[1..])
  }

  /** How `encodeURIComponent` writes one character. */
  function EncodeChar(c: char): (r: string)
    ensures 1 <= |r| && forall k :: 0 <= k < |r| ==> IsUriComponentChar(r[k])
    ensures IsUnreserved(c) <==> r == [c]
  {
    if IsUnreserved(c) then [c] else PercentBytes(Utf8(c))
  }

  /**
   * `encodeURIComponent(s)` for a string of Unicode scalar values: unreserved
   * characters are kept, every other character becomes the `%XY` escapes of
   * its UTF-8 bytes. The result is empty only for the empty string.
   */
  function EncodeUriComponent(s: string): (r: string)
    ensures |r| >= |s|
    ensures r == [] <==> s == []
    ensures forall k :: 0 <= k < |r| ==> IsUriComponentChar(r[k])
    ensures '/' !in r
  {
    if s == [] then [] else EncodeChar(s[0]) + EncodeUriComponent(s[1..])
  }

  /** A string made of unreserved characters only (such as an X handle) is encoded as itself. */
  lemma {:induction false} EncodeUnreserved(s: string)
    requires forall k :: 0 <= k < |s| ==> IsUnreserved(s[k])
    ensures EncodeUriComponent(s) == s
  {
    if s != [] {
      EncodeUnreserved(s[1..]);
      assert s == [s[0]] + s[1..];
    }
  }
}
