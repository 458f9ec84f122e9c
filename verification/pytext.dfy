/** The pieces of Python's string handling the manager relies on:
    `str.split(sep)` with a one-character separator, `int()` on a decimal
    literal, `str()` of an integer and `bytes.decode('ascii')`. */
module PyText {
  import opened Results

  newtype byte = x: int | 0 <= x < 256

  /* ---------------- str.split(sep) and str.join ---------------- */

  /** `s.split(sep)`: the pieces between occurrences of `sep`. Pieces are
      never merged or dropped, so `k` separators give `k + 1` pieces, a
      trailing separator gives a final `""` and two adjacent separators give
      an empty piece between them. */
  function Split(s: string, sep: char): (pieces: seq<string>)
    ensures |pieces| == Occurrences(s, sep) + 1
    ensures forall i :: 0 <= i < |pieces| ==> sep !in pieces[i]
    decreases |s|
  {
    if s == [] then [""]
    else
      var rest := Split(s[1..], sep);
      assert s == [s[0]] + s[1..];
      if s[0] == sep then [""] + rest
      else [[s[0]] + rest[0]] + rest[1..]
  }

  /** How often `c` occurs in `s`. */
  function Occurrences(s: string, c: char): nat
  {
    if s == [] then 0 else (if s[0] == c then 1 else 0) + Occurrences(s[1..], c)
  }

  /** A character that does not occur is counted zero times. */
  lemma {:induction false} NoOccurrences(s: string, c: char)
    requires c !in s
    ensures Occurrences(s, c) == 0
  {
    if s != [] {
      assert c !in s[1..] by {
        assert forall i :: 0 <= i < |s| - 1 ==> s[1..][i] == s[i + 1];
      }
      NoOccurrences(s[1..], c);
    }
  }

  /** `sep.join(pieces)`. */
  function Join(pieces: seq<string>, sep: char): string
  {
    if |pieces| == 0 then ""
    else if |pieces| == 1 then pieces[0]
    else pieces[0] + [sep] + Join(pieces[1..], sep)
  }

  /** Joining the pieces of a split gives the string back. */
  lemma {:induction false} JoinSplit(s: string, sep: char)
    ensures Join(Split(s, sep), sep) == s
    decreases |s|
  {
    if s != [] {
      var rest := Split(s[1..], sep);
      JoinSplit(s[1..], sep);
      assert s == [s[0]] + s[1..];
      if s[0] == sep {
        assert ([""] + rest)[1..] == rest;
      } else {
        var pieces := [[s[0]] + rest[0]] + rest[1..];
        if |rest| > 1 {
          assert pieces[1..] == rest[1..];
          assert Join(rest, sep) == rest[0] + [sep] + Join(rest[1..], sep);
        }
      }
    }
  }

  /** A string without the separator splits into itself alone. */
  lemma {:induction false} SplitWithoutSeparator(s: string, sep: char)
    requires sep !in s
    ensures Split(s, sep) == [s]
  {
    var pieces := Split(s, sep);
    NoOccurrences(s, sep);
    assert |pieces| == 1;
    JoinSplit(s, sep);
  }

  /** Splitting `a + sep + b`, where `a` has no separator, yields `a` and then the pieces of `b`. */
  lemma {:induction false} SplitAfterPiece(a: string, sep: char, b: string)
    requires sep !in a
    ensures Split(a + [sep] + b, sep) == [a] + Split(b, sep)
    decreases |a|
  {
    var s := a + [sep] + b;
    if a == [] {
      assert s[1..] == b;
    } else {
      assert s[1..] == a[1..] + [sep] + b;
      SplitAfterPiece(a[1..], sep, b);
      assert a == [a[0]] + a[1..];
    }
  }

  /** Splitting a join gives the pieces back, provided there is at least one
      piece and no piece contains the separator. */
  lemma {:induction false} SplitJoin(pieces: seq<string>, sep: char)
    requires |pieces| > 0
    requires forall i :: 0 <= i < |pieces| ==> sep !in pieces[i]
    ensures Split(Join(pieces, sep), sep) == pieces
    decreases |pieces|
  {
    if |pieces| == 1 {
      SplitWithoutSeparator(pieces[0], sep);
    } else {
      SplitJoin(pieces[1..], sep);
      SplitAfterPiece(pieces[0], sep, Join(pieces[1..], sep));
      assert [pieces[0]] + pieces[1..] == pieces;
    }
  }

  /* ---------------- int() on a base-10 literal ---------------- */

  /** The characters `int()` strips around a literal: the ASCII characters
      Python counts as white space. */
  predicate IsSpace(c: char)
  {
    c == ' ' || c == '\t' || c == '\n' || c == '\r' || c == '\U{0B}' || c == '\U{0C}'
    || c == '\U{1C}' || c == '\U{1D}' || c == '\U{1E}' || c == '\U{1F}'
  }

  predicate IsDigit(c: char)
  {
    '0' <= c <= '9'
  }

  function DigitValue(c: char): nat
  {
    if IsDigit(c) then (c as int) - ('0' as int) else 0
  }

  function DigitChar(d: nat): char
    requires d < 10
  {
    (('0' as int) + d) as char
  }

  function TrimStart(s: string): (t: string)
  {
    if |s| > 0 && IsSpace(s[0]) then TrimStart(s[1..]) else s
  }

  function TrimEnd(s: string): (t: string)
  {
    if |s| > 0 && IsSpace(s[|s| - 1]) then TrimEnd(s[..|s| - 1]) else s
  }

  /** `s.strip()` for the white space `int()` ignores. */
  function Strip(s: string): string
  {
    TrimEnd(TrimStart(s))
  }

  /** The digit part of a literal `int()` accepts: decimal digits, where a
      single `_` may stand between two digits. */
  predicate IsDigitRun(d: string)
  {
    && |d| > 0
    && IsDigit(d[0])
    && forall i :: 0 <= i < |d| ==> DigitOrJoiner(d, i)
  }

  /** Position `i` holds a digit, or an underscore followed by a digit. */
  predicate DigitOrJoiner(d: string, i: nat)
    requires i < |d|
  {
    IsDigit(d[i]) || (d[i] == '_' && i + 1 < |d| && IsDigit(d[i + 1]))
  }

  /** The value of a digit run, the underscores ignored. */
  function DigitRunValue(d: string): nat
  {
    if |d| == 0 then 0
    else if d[|d| - 1] == '_' then DigitRunValue(d[..|d| - 1])
    else DigitRunValue(d[..|d| - 1]) * 10 + DigitValue(d[|d| - 1])
  }

  /** A digit run ends in a digit: an underscore must be followed by one. */
  lemma DigitRunEndsInDigit(d: string)
    requires IsDigitRun(d)
    ensures IsDigit(d[|d| - 1])
  {
    assert DigitOrJoiner(d, |d| - 1);
  }

  /** Python's `int(s)`: surrounding white space, an optional sign, then a
      digit run; `None` where Python raises ValueError. An accepted literal
      ends in a digit, and only a minus sign makes it negative. */
  function ParseInt(s: string): (r: Option<int>)
    ensures r.Some? ==> |Strip(s)| > 0 && IsDigit(Strip(s)[|Strip(s)| - 1])
    ensures r.Some? && r.value < 0 ==> Strip(s)[0] == '-'
  {
    var t := Strip(s);
    if |t| > 0 && (t[0] == '-' || t[0] == '+') then
      if IsDigitRun(t[1..]) then
        DigitRunEndsInDigit(t[1..]);
        var magnitude: int := DigitRunValue(t[1..]);
        Some(if t[0] == '-' then -magnitude else magnitude)
      else None
    else if IsDigitRun(t) then
      DigitRunEndsInDigit(t);
      Some(DigitRunValue(t))
    else None
  }


  /** Trimming the front keeps a suffix of the string. */
  lemma {:induction false} TrimStartIsSuffix(s: string)
    ensures |TrimStart(s)| <= |s| && TrimStart(s) == s[|s| - |TrimStart(s)|..]
  {
    if |s| > 0 && IsSpace(s[0]) {
      TrimStartIsSuffix(s[1..]);
    }
  }

  /** Trimming the back keeps a prefix of the string. */
  lemma {:induction false} TrimEndIsPrefix(s: string)
    ensures |TrimEnd(s)| <= |s| && TrimEnd(s) == s[..|TrimEnd(s)|]
  {
    if |s| > 0 && IsSpace(s[|s| - 1]) {
      TrimEndIsPrefix(s[..|s| - 1]);
    }
  }

  /** A token without a single digit is not an integer literal. */
  lemma NoDigitNoInt(s: string)
    requires forall i :: 0 <= i < |s| ==> !IsDigit(s[i])
    ensures ParseInt(s) == None
  {
    var u := TrimStart(s);
    var t := Strip(s);
    TrimStartIsSuffix(s);
    TrimEndIsPrefix(u);
    assert forall i :: 0 <= i < |t| ==> t[i] == s[|s| - |u| + i];
    if |t| > 1 {
      assert !IsDigit(t[1..][0]);
    }
  }

  /** White space next to a literal does not change its value. */
  lemma {:induction false} ParseIntIgnoresTrailingSpace(s: string, c: char)
    requires IsSpace(c)
    ensures ParseInt(s + [c]) == ParseInt(s)
  {
    StripIgnoresTrailingSpace(s, c);
  }

  lemma {:induction false} StripIgnoresTrailingSpace(s: string, c: char)
    requires IsSpace(c)
    ensures Strip(s + [c]) == Strip(s)
    decreases |s|
  {
    var t := s + [c];
    if |s| > 0 && IsSpace(s[0]) {
      assert t[1..] == s[1..] + [c];
      StripIgnoresTrailingSpace(s[1..], c);
    } else if |s| == 0 {
      assert TrimStart(t) == TrimStart(t[1..]);
      assert t[1..] == [];
    } else {
      assert TrimStart(t) == t;
      assert TrimStart(s) == s;
      assert t[..|t| - 1] == s;
    }
  }

  /* ---------------- str() of an integer ---------------- */

  /** `str(n)` for a natural number: decimal digits, no leading zero. */
  function NatToString(n: nat): (s: string)
    ensures |s| > 0
    ensures forall i :: 0 <= i < |s| ==> IsDigit(s[i])
    ensures DigitRunValue(s) == n
    ensures |s| > 1 ==> s[0] != '0'
  {
    if n < 10 then
      [DigitChar(n)]
    else
      var p := NatToString(n / 10);
      var s := p + [DigitChar(n % 10)];
      assert s[..|s| - 1] == p;
      s
  }

  /** `str(n)`: a minus sign for negatives, then the digits of `|n|`. */
  function IntToString(n: int): (s: string)
    ensures ' ' !in s && '\n' !in s
  {
    if n < 0 then "-" + NatToString(-n) else NatToString(n)
  }

  /** A non-empty run of plain digits is a digit run. */
  lemma DigitsAreRun(d: string)
    requires |d| > 0 && forall i :: 0 <= i < |d| ==> IsDigit(d[i])
    ensures IsDigitRun(d)
  {
  }

  /** Stripping a string that neither starts nor ends with white space keeps it. */
  lemma StripUnpadded(s: string)
    requires |s| > 0 && !IsSpace(s[0]) && !IsSpace(s[|s| - 1])
    ensures Strip(s) == s
  {
    assert TrimStart(s) == s;
  }

  /** `int(str(n)) == n`: the literal the manager writes reads back as the number. */
  lemma IntToStringRoundTrip(n: int)
    ensures ParseInt(IntToString(n)) == Some(n)
  {
    var s := IntToString(n);
    var m: nat := if n < 0 then -n else n;
    var digits := NatToString(m);
    DigitsAreRun(digits);
    if n < 0 {
      assert s == "-" + digits;
      StripUnpadded(s);
      assert s[1..] == digits;
    } else {
      assert s == digits;
      StripUnpadded(s);
    }
  }

  /* ---------------- bytes.decode('ascii') ---------------- */

  /** `bytes.decode('ascii')`: one character per byte, or an error naming
      the first byte that is not ASCII. */
  function DecodeAscii(bytes: seq<byte>): (r: Result<string>)
    ensures r.Ok? <==> forall i :: 0 <= i < |bytes| ==> bytes[i] < 128
    ensures r.Ok? ==> |r.value| == |bytes| && forall i :: 0 <= i < |bytes| ==> r.value[i] as int == bytes[i] as int
    ensures r.Err? ==> r.error.NotAscii? && r.error.position < |bytes| && bytes[r.error.position] >= 128
    ensures r.Err? ==> forall k :: 0 <= k < r.error.position ==> bytes[k] < 128
  {
    if bytes == [] then Ok("")
    else if bytes[0] >= 128 then Err(NotAscii(0))
    else
      match DecodeAscii(bytes[1..])
      case Ok(rest) => Ok([(bytes[0] as int) as char] + rest)
      case Err(e) => Err(NotAscii(e.position + 1))
  }

  /** The ASCII encoding of a string all of whose characters are ASCII. */
  function EncodeAscii(s: string): (bytes: seq<byte>)
    requires forall i :: 0 <= i < |s| ==> (s[i] as int) < 128
    ensures |bytes| == |s|
  {
    seq(|s|, i requires 0 <= i < |s| => (s[i] as int) as byte)
  }

  /** Decoding the encoding of an ASCII string gives the string back. */
  lemma {:induction false} AsciiRoundTrip(s: string)
    requires forall i :: 0 <= i < |s| ==> (s[i] as int) < 128
    ensures DecodeAscii(EncodeAscii(s)) == Ok(s)
  {
    if s != [] {
      var bytes := EncodeAscii(s);
      assert bytes[1..] == EncodeAscii(s[1..]);
      AsciiRoundTrip(s[1..]);
      assert ((bytes[0] as int) as char) == s[0];
      assert s == [s[0]] + s[1..];
    }
  }
}
