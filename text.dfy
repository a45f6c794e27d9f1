/**
 * Text and byte helpers with Python's meaning: `str.strip`, `bytes.strip`,
 * `startswith`, `find`, `split(sep)`, `str(int)`, `int(str)`, UTF-8 encoding
 * and `readline`/`read(n)` on a byte sequence with a cursor.
 */
module Text {
  import opened Basics

  // ---------------------------------------------------------------------
  // Whitespace and strip
  // ---------------------------------------------------------------------

  /** Python's `str.isspace` for one character. */
  predicate IsSpace(c: char)
  {
    var n := c as int;
    n == 0x20 || (0x09 <= n <= 0x0D) || (0x1C <= n <= 0x1F) ||
    n == 0x85 || n == 0xA0 || n == 0x1680 || (0x2000 <= n <= 0x200A) ||
    n == 0x2028 || n == 0x2029 || n == 0x202F || n == 0x205F || n == 0x3000
  }

  predicate AllSpace(s: string)
  {
    forall i :: 0 <= i < |s| ==> IsSpace(s[i])
  }

  /** Neither end of `s` is whitespace: `s.strip() == s`. */
  predicate IsStripped(s: string)
  {
    |s| == 0 || (!IsSpace(s[0]) && !IsSpace(s[|s| - 1]))
  }

  function TrimLeft(s: string): (r: string)
    ensures |r| <= |s|
    ensures |r| > 0 ==> !IsSpace(r[0])
  {
    if |s| > 0 && IsSpace(s[0]) then TrimLeft(s[1..]) else s
  }

  function TrimRight(s: string): (r: string)
    ensures |r| <= |s|
    ensures |r| > 0 ==> r[0] == s[0] && !IsSpace(r[|r| - 1])
  {
    if |s| > 0 && IsSpace(s[|s| - 1]) then TrimRight(s[..|s| - 1]) else s
  }

  /** `lstrip` removes a run of leading whitespace and keeps the rest. */
  lemma {:induction false} TrimLeftSuffix(s: string)
    ensures var r := TrimLeft(s); r == s[|s| - |r|..] && AllSpace(s[..|s| - |r|])
    decreases |s|
  {
    if |s| > 0 && IsSpace(s[0]) {
      TrimLeftSuffix(s[1..]);
      var r := TrimLeft(s);
      assert s[1..][|s| - 1 - |r|..] == s[|s| - |r|..];
      forall i | 0 <= i < |s| - |r| ensures IsSpace(s[i]) {
        if i > 0 {
          assert s[i] == s[1..][..|s| - 1 - |r|][i - 1];
        }
      }
    }
  }

  /** `rstrip` removes a run of trailing whitespace and keeps the rest. */
  lemma {:induction false} TrimRightPrefix(s: string)
    ensures var r := TrimRight(s); r == s[..|r|] && AllSpace(s[|r|..])
    decreases |s|
  {
    if |s| > 0 && IsSpace(s[|s| - 1]) {
      var p := s[..|s| - 1];
      TrimRightPrefix(p);
      var r := TrimRight(s);
      assert p[..|r|] == s[..|r|];
      forall i | |r| <= i < |s| ensures IsSpace(s[i]) {
        if i < |s| - 1 {
          assert s[i] == p[|r|..][i - |r|];
        }
      }
    }
  }

  /** Python's `str.strip()` with no argument. */
  function Strip(s: string): (r: string)
    ensures IsStripped(r)
  {
    TrimRight(TrimLeft(s))
  }

  lemma {:induction false} TrimLeftOfSpaces(a: string, s: string)
    requires AllSpace(a)
    requires |s| == 0 || !IsSpace(s[0])
    ensures TrimLeft(a + s) == s
    decreases |a|
  {
    if |a| > 0 {
      assert (a + s)[1..] == a[1..] + s;
      TrimLeftOfSpaces(a[1..], s);
    } else {
      assert a + s == s;
    }
  }

  lemma {:induction false} TrimRightOfSpaces(s: string, b: string)
    requires AllSpace(b)
    requires |s| == 0 || !IsSpace(s[|s| - 1])
    ensures TrimRight(s + b) == s
    decreases |b|
  {
    if |b| > 0 {
      assert (s + b)[..|s + b| - 1] == s + b[..|b| - 1];
      TrimRightOfSpaces(s, b[..|b| - 1]);
    } else {
      assert s + b == s;
    }
  }

  /** Surrounding whitespace is exactly what `strip` removes. */
  lemma {:induction false} StripSurrounded(a: string, s: string, b: string)
    requires AllSpace(a) && AllSpace(b) && IsStripped(s)
    ensures Strip(a + s + b) == s
  {
    if |s| == 0 {
      assert a + s + b == a + b;
      assert AllSpace(a + b);
      TrimLeftOfSpaces(a + b, "");
      assert a + b + "" == a + b;
      TrimRightOfSpaces("", "");
    } else {
      assert a + s + b == a + (s + b);
      TrimLeftOfSpaces(a, s + b);
      TrimRightOfSpaces(s, b);
    }
  }

  /** Stripping only removes characters. */
  lemma {:induction false} StripKeepsAbsent(s: string, c: char)
    requires c !in s
    ensures c !in Strip(s)
  {
    var l := TrimLeft(s);
    var r := TrimRight(l);
    TrimLeftSuffix(s);
    TrimRightPrefix(l);
    forall i | 0 <= i < |r| ensures r[i] != c {
      assert r[i] == l[i] == s[|s| - |l| + i];
    }
  }

  lemma {:induction false} StripOfStripped(s: string)
    requires IsStripped(s)
    ensures Strip(s) == s
  {
    assert "" + s + "" == s;
    StripSurrounded("", s, "");
  }

  // ---------------------------------------------------------------------
  // Searching and splitting
  // ---------------------------------------------------------------------

  predicate StartsWith(s: string, prefix: string)
  {
    |prefix| <= |s| && s[..|prefix|] == prefix
  }

  /** Python's `s.find(c)`: the first index of `c`, or -1. */
  function Find(s: string, c: char): (r: int)
    ensures -1 <= r < |s|
    ensures r >= 0 ==> s[r] == c
  {
    FindFrom(s, c, 0)
  }

  /** The first index of `c` at or after `i`, or -1. */
  function FindFrom(s: string, c: char, i: nat): (r: int)
    requires i <= |s|
    ensures r == -1 || i <= r < |s|
    ensures r >= 0 ==> s[r] == c
    decreases |s| - i
  {
    if i == |s| then -1 else if s[i] == c then i else FindFrom(s, c, i + 1)
  }

  lemma {:induction false} FindFromFirst(s: string, c: char, i: nat)
    requires i <= |s|
    ensures forall k :: i <= k < |s| && (FindFrom(s, c, i) < 0 || k < FindFrom(s, c, i)) ==> s[k] != c
    decreases |s| - i
  {
    if i < |s| && s[i] != c {
      FindFromFirst(s, c, i + 1);
    }
  }

  /** `find` gives the first occurrence: `c` is nowhere before it, and nowhere at all when it gives -1. */
  lemma {:induction false} FindFirst(s: string, c: char)
    ensures forall k :: 0 <= k < |s| && (Find(s, c) < 0 || k < Find(s, c)) ==> s[k] != c
  {
    FindFromFirst(s, c, 0);
  }

  /** An occurrence with none before it is what `find` gives. */
  lemma {:induction false} FindAt(s: string, c: char, d: nat)
    requires d < |s| && s[d] == c
    requires forall k :: 0 <= k < d ==> s[k] != c
    ensures Find(s, c) == d
  {
    FindFirst(s, c);
  }

  /**
   * A header line split at its first colon, which must not be the first
   * character; key and value are stripped. Both decoders split their
   * header lines this way.
   */
  function HeaderPair(line: string): (r: Option<(string, string)>)
    ensures r.Some? <==> Find(line, ':') > 0
  {
    var d := Find(line, ':');
    if d > 0 then Some((Strip(line[..d]), Strip(line[d + 1..]))) else None
  }

  function Count<T(==)>(s: seq<T>, c: T): (n: nat)
    ensures n <= |s|
  {
    if |s| == 0 then 0 else (if s[0] == c then 1 else 0) + Count(s[1..], c)
  }

  lemma {:induction false} CountAppend<T>(a: seq<T>, b: seq<T>, c: T)
    ensures Count(a + b, c) == Count(a, c) + Count(b, c)
  {
    if |a| == 0 {
      assert a + b == b;
    } else {
      assert (a + b)[1..] == a[1..] + b;
      CountAppend(a[1..], b, c);
    }
  }

  lemma {:induction false} CountAbsent<T>(s: seq<T>, c: T)
    requires c !in s
    ensures Count(s, c) == 0
  {
    if |s| > 0 {
      CountAbsent(s[1..], c);
    }
  }

  lemma {:induction false} CountPresent<T>(s: seq<T>, c: T)
    requires c in s
    ensures Count(s, c) > 0
  {
    if s[0] != c {
      assert c in s[1..];
      CountPresent(s[1..], c);
    }
  }

  /**
   * Python's `s.split(sep)` for a one-element separator: every occurrence
   * cuts, so neighbouring separators give empty pieces.
   */
  function Split<T(==)>(s: seq<T>, sep: T): (r: seq<seq<T>>)
    ensures |r| == Count(s, sep) + 1
    ensures forall i :: 0 <= i < |r| ==> sep !in r[i]
  {
    if |s| == 0 then [[]]
    else
      var rest := Split(s[1..], sep);
      if s[0] == sep then [[]] + rest
      else [[s[0]] + rest[0]] + rest[1..]
  }

  /** Python's `sep.join(parts)`. */
  function Join<T>(parts: seq<seq<T>>, sep: seq<T>): seq<T>
  {
    if |parts| == 0 then []
    else if |parts| == 1 then parts[0]
    else parts[0] + sep + Join(parts[1..], sep)
  }

  // ---------------------------------------------------------------------
  // Integers as text
  // ---------------------------------------------------------------------

  predicate IsDigit(c: char) { '0' <= c <= '9' }

  predicate AllDigits(s: string)
  {
    forall i :: 0 <= i < |s| ==> IsDigit(s[i])
  }

  function DigitChar(d: nat): char
    requires d < 10
  {
    ('0' as int + d) as char
  }

  /** The value of a run of decimal digits. */
  function DigitsValue(s: string): nat
    requires AllDigits(s)
  {
    if |s| == 0 then 0
    else DigitsValue(s[..|s| - 1]) * 10 + (s[|s| - 1] as int - '0' as int)
  }

  /** Decimal text of a natural number, without leading zeros. */
  function NatToString(n: nat): (r: string)
    ensures |r| > 0 && AllDigits(r)
  {
    if n < 10 then [DigitChar(n)] else NatToString(n / 10) + [DigitChar(n % 10)]
  }

  /** Python's `str(n)` for an int. */
  function IntToString(n: int): string
  {
    if n < 0 then "-" + NatToString(-n) else NatToString(n)
  }

  lemma {:induction false} NatToStringValue(n: nat)
    ensures DigitsValue(NatToString(n)) == n
  {
    if n >= 10 {
      NatToStringValue(n / 10);
      var s := NatToString(n);
      assert s[..|s| - 1] == NatToString(n / 10);
    }
  }

  /**
   * Python's `int(s)` restricted to ASCII: surrounding whitespace, an
   * optional sign, then one or more ASCII decimal digits; anything else is
   * a ValueError. Other Unicode decimal digits and digit-separating
   * underscores, which `int` also accepts, are rejected here.
   */
  function ParseInt(s: string): (r: Result<int>)
    ensures r.Ok? ==> |Strip(s)| > 0
  {
    ParseStripped(Strip(s))
  }

  /** The sign-and-digits part of `int(s)`, once the whitespace is gone. */
  function ParseStripped(t: string): (r: Result<int>)
    ensures r.Ok? ==> |t| > 0
  {
    if |t| > 1 && (t[0] == '-' || t[0] == '+') && AllDigits(t[1..]) then
      var v: int := DigitsValue(t[1..]);
      Ok(if t[0] == '-' then -v else v)
    else if |t| > 0 && AllDigits(t) then
      Ok(DigitsValue(t))
    else
      Err(ValueError("invalid literal for int()"))
  }

  lemma {:induction false} IntToStringIsStripped(n: int)
    ensures IsStripped(IntToString(n))
    ensures |IntToString(n)| > 0
  {
  }

  /** `int(str(n)) == n`. */
  lemma {:induction false} ParseIntToString(n: int)
    ensures ParseInt(IntToString(n)) == Ok(n)
  {
    var s := IntToString(n);
    StripOfStripped(s);
    assert ParseInt(s) == ParseStripped(s);
    if n < 0 {
      ParseNegative(-n);
    } else {
      ParseNonNegative(n);
    }
  }

  lemma {:induction false} ParseNonNegative(n: nat)
    ensures ParseStripped(NatToString(n)) == Ok(n)
  {
    var s := NatToString(n);
    NatToStringValue(n);
    assert IsDigit(s[0]);
  }

  lemma {:induction false} ParseNegative(n: nat)
    requires n > 0
    ensures ParseStripped("-" + NatToString(n)) == Ok(-(n as int))
  {
    var d := NatToString(n);
    var s := "-" + d;
    NatToStringValue(n);
    assert s[0] == '-' && s[1..] == d;
  }

  // ---------------------------------------------------------------------
  // UTF-8
  // ---------------------------------------------------------------------

  /** The UTF-8 encoding of one character (a Unicode scalar value). */
  function Utf8Char(c: char): (r: seq<Byte>)
    ensures 1 <= |r| <= 4
    ensures (c as int) < 0x80 ==> r == [c as int]
    ensures (c as int) >= 0x80 ==> forall i :: 0 <= i < |r| ==> r[i] >= 0x80
  {
    var n := c as int;
    if n < 0x80 then [n]
    else if n < 0x800 then [0xC0 + n / 64, 0x80 + n % 64]
    else if n < 0x10000 then [0xE0 + n / 4096, 0x80 + (n / 64) % 64, 0x80 + n % 64]
    else [0xF0 + n / 262144, 0x80 + (n / 4096) % 64, 0x80 + (n / 64) % 64, 0x80 + n % 64]
  }

  /** `s.encode('utf-8')`. */
  function Utf8Encode(s: string): seq<Byte>
  {
    if |s| == 0 then [] else Utf8Char(s[0]) + Utf8Encode(s[1..])
  }

  lemma {:induction false} Utf8Append(a: string, b: string)
    ensures Utf8Encode(a + b) == Utf8Encode(a) + Utf8Encode(b)
  {
    if |a| > 0 {
      assert (a + b)[1..] == a[1..] + b;
      Utf8Append(a[1..], b);
    } else {
      assert a + b == b;
    }
  }

  /** An ASCII byte occurs in the encoding exactly when its character occurs in the text. */
  lemma {:induction false} Utf8Ascii(s: string, c: char)
    requires (c as int) < 0x80
    ensures (c as int) in Utf8Encode(s) <==> c in s
  {
    if |s| > 0 {
      Utf8Ascii(s[1..], c);
      assert c in s <==> c == s[0] || c in s[1..];
      if (s[0] as int) < 0x80 {
        assert Utf8Char(s[0]) == [s[0] as int];
      }
    }
  }

  /** The encoding of pure ASCII text is its code points. */
  lemma {:induction false} Utf8AsciiText(s: string)
    requires forall i :: 0 <= i < |s| ==> (s[i] as int) < 0x80
    ensures |Utf8Encode(s)| == |s|
    ensures forall i :: 0 <= i < |s| ==> Utf8Encode(s)[i] == s[i] as int
  {
    if |s| > 0 {
      Utf8AsciiText(s[1..]);
    }
  }

  /**
   * A decoder that is the inverse of UTF-8 encoding on every text; the
   * decoding of a line is otherwise unconstrained (it may fail).
   */
  ghost predicate DecodesUtf8(dec: seq<Byte> -> Option<string>)
  {
    forall s {:trigger dec(Utf8Encode(s))} :: dec(Utf8Encode(s)) == Some(s)
  }

  /** Python 2 `str` view of bytes: one character per byte. */
  function Latin1(b: seq<Byte>): (s: string)
    ensures |s| == |b|
    ensures forall i :: 0 <= i < |b| ==> s[i] as int == b[i]
  {
    if |b| == 0 then "" else [b[0] as char] + Latin1(b[1..])
  }

  // ---------------------------------------------------------------------
  // Byte whitespace and strip
  // ---------------------------------------------------------------------

  /** Python's `bytes.strip()` whitespace: space, \t, \n, \v, \f, \r. */
  predicate IsByteSpace(b: Byte)
  {
    b == 32 || (9 <= b <= 13)
  }

  function ByteTrimLeft(s: seq<Byte>): (r: seq<Byte>)
    ensures |r| <= |s| && r == s[|s| - |r|..]
    ensures |r| > 0 ==> !IsByteSpace(r[0])
    ensures forall i :: 0 <= i < |s| - |r| ==> IsByteSpace(s[i])
  {
    if |s| > 0 && IsByteSpace(s[0]) then ByteTrimLeft(s[1..]) else s
  }

  function ByteTrimRight(s: seq<Byte>): (r: seq<Byte>)
    ensures |r| <= |s| && r == s[..|r|]
    ensures |r| > 0 ==> !IsByteSpace(r[|r| - 1])
    ensures forall i :: |r| <= i < |s| ==> IsByteSpace(s[i])
  {
    if |s| > 0 && IsByteSpace(s[|s| - 1]) then ByteTrimRight(s[..|s| - 1]) else s
  }

  /** Python's `bytes.strip()`. */
  function ByteStrip(s: seq<Byte>): (r: seq<Byte>)
    ensures |r| <= |s|
    ensures |r| > 0 ==> !IsByteSpace(r[0]) && !IsByteSpace(r[|r| - 1])
    ensures |r| == 0 <==> forall i :: 0 <= i < |s| ==> IsByteSpace(s[i])
  {
    var l := ByteTrimLeft(s);
    var r := ByteTrimRight(l);
    assert |r| == 0 ==> forall i :: 0 <= i < |s| ==> IsByteSpace(s[i]) by {
      if |r| == 0 {
        assert |l| == 0;
      }
    }
    assert |r| > 0 ==> !IsByteSpace(l[0]) by {
      if |r| > 0 { assert l[0] == r[0]; }
    }
    r
  }

  // ---------------------------------------------------------------------
  // Stream reads
  // ---------------------------------------------------------------------

  /**
   * The position just after the line starting at `i`: after the next byte
   * 10 (`\n`), or the end of the input.  `readline()` returns `s[i..LineEnd(s, i)]`.
   */
  function LineEnd(s: seq<Byte>, i: nat): (e: nat)
    requires i <= |s|
    ensures i <= e <= |s|
    ensures e > i <==> i < |s|
    ensures e < |s| ==> e > i && s[e - 1] == 10
    decreases |s| - i
  {
    if i == |s| then i else if s[i] == 10 then i + 1 else LineEnd(s, i + 1)
  }

  /** A line holds no `\n` before its last byte, and none at all when it ends the input without one. */
  lemma {:induction false} LineEndNoNewline(s: seq<Byte>, i: nat)
    requires i <= |s|
    ensures forall k :: i <= k < LineEnd(s, i) - 1 ==> s[k] != 10
    ensures var e := LineEnd(s, i); e == |s| && e > i && s[e - 1] != 10 ==> forall k :: i <= k < e ==> s[k] != 10
    decreases |s| - i
  {
    if i < |s| && s[i] != 10 {
      LineEndNoNewline(s, i + 1);
    }
  }

  /** The line read at `i` is any `line` ending in `\n` with no other `\n`. */
  lemma {:induction false} LineEndOf(s: seq<Byte>, i: nat, line: seq<Byte>)
    requires i + |line| <= |s| && s[i..i + |line|] == line
    requires |line| > 0 && line[|line| - 1] == 10
    requires 10 !in line[..|line| - 1]
    ensures LineEnd(s, i) == i + |line|
    decreases |line|
  {
    assert s[i] == line[0];
    if |line| > 1 {
      assert line[0] in line[..|line| - 1];
      assert s[i + 1..i + 1 + |line[1..]|] == line[1..];
      assert line[1..][..|line[1..]| - 1] == line[..|line| - 1][1..];
      LineEndOf(s, i + 1, line[1..]);
    }
  }

  /** `b` occurs in `input` at `pos`. */
  predicate At(input: seq<Byte>, pos: nat, b: seq<Byte>)
  {
    pos + |b| <= |input| && input[pos..pos + |b|] == b
  }

  lemma {:induction false} AtSplit(input: seq<Byte>, pos: nat, a: seq<Byte>, b: seq<Byte>)
    requires At(input, pos, a + b)
    ensures At(input, pos, a) && At(input, pos + |a|, b)
  {
    assert input[pos..pos + |a|] == (a + b)[..|a|];
    assert input[pos + |a|..pos + |a| + |b|] == (a + b)[|a|..];
  }

  /** `read(n)` at `i`: the end of the next at most `n` bytes. */
  function ReadEnd(s: seq<Byte>, i: nat, n: nat): (e: nat)
    requires i <= |s|
    ensures i <= e <= |s| && (e - i == n || e == |s|)
  {
    if i + n <= |s| then i + n else |s|
  }
}
