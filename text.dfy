/** String operations the layout engine borrows from JavaScript:
    `String.prototype.split` with a one-character separator, the inverse
    join, `String.prototype.trim`, and the decimal rendering of a positive
    index inside a template string such as `jobTitle${n}`. */
module Text {

  /** `s.split(sep)`: the pieces between consecutive separators, in order.
      Consecutive separators give empty pieces and the empty string gives
      the single piece "". */
  function Split(s: string, sep: char): (parts: seq<string>)
    ensures |parts| >= 1
    ensures forall i :: 0 <= i < |parts| ==> sep !in parts[i]
    decreases |s|
  {
    if s == [] then [""]
    else
      var rest := Split(s[1..], sep);
      if s[0] == sep then [""] + rest
      else [[s[0]] + rest[0]] + rest[1..]
  }

  /** `parts.join(sep)`. */
  function Join(parts: seq<string>, sep: char): string
  {
    if parts == [] then ""
    else if |parts| == 1 then parts[0]
    else parts[0] + [sep] + Join(parts[1..], sep)
  }

  /** Joining the pieces of a split gives back the original string. */
  lemma {:induction false} JoinSplit(s: string, sep: char)
    ensures Join(Split(s, sep), sep) == s
    decreases |s|
  {
    if s != [] {
      var rest := Split(s[1..], sep);
      JoinSplit(s[1..], sep);
      if s[0] == sep {
        assert Split(s, sep) == [""] + rest;
        assert s == [sep] + s[1..];
      } else {
        var parts := Split(s, sep);
        assert parts == [[s[0]] + rest[0]] + rest[1..];
        if |rest| == 1 {
          assert s == [s[0]] + rest[0];
        } else {
          assert Join(rest, sep) == rest[0] + [sep] + Join(rest[1..], sep);
          assert parts[1..] == rest[1..];
          assert s == [s[0]] + s[1..];
        }
      }
    }
  }

  /** Splitting a join of separator-free pieces gives back the pieces. */
  lemma {:induction false} SplitJoin(parts: seq<string>, sep: char)
    requires |parts| >= 1
    requires forall i :: 0 <= i < |parts| ==> sep !in parts[i]
    ensures Split(Join(parts, sep), sep) == parts
    decreases |parts|, |parts[0]|
  {
    var p := parts[0];
    if |parts| == 1 {
      SplitFree(p, sep);
    } else if p == [] {
      var tail := Join(parts[1..], sep);
      assert Join(parts, sep) == [sep] + tail;
      SplitJoin(parts[1..], sep);
      assert ([sep] + tail)[1..] == tail;
      assert parts == [""] + parts[1..];
    } else {
      var s := Join(parts, sep);
      var shorter := [p[1..]] + parts[1..];
      assert Join(shorter, sep) == p[1..] + [sep] + Join(parts[1..], sep);
      assert s == [p[0]] + Join(shorter, sep);
      assert s[1..] == Join(shorter, sep);
      SplitJoin(shorter, sep);
      assert p[0] != sep;
      assert [p[0]] + p[1..] == p;
      assert parts == [[p[0]] + shorter[0]] + shorter[1..];
    }
  }

  /** A string with no separator splits into itself. */
  lemma {:induction false} SplitFree(s: string, sep: char)
    requires sep !in s
    ensures Split(s, sep) == [s]
    decreases |s|
  {
    if s != [] {
      SplitFree(s[1..], sep);
      assert s == [s[0]] + s[1..];
    }
  }

  /** `s.split(sep)` has one more piece than `s` has separators. */
  lemma {:induction false} SplitCount(s: string, sep: char)
    ensures |Split(s, sep)| == multiset(s)[sep] + 1
    decreases |s|
  {
    if s != [] {
      SplitCount(s[1..], sep);
      assert s == [s[0]] + s[1..];
      assert multiset(s) == multiset([s[0]]) + multiset(s[1..]);
    }
  }

  /** Joining `parts + [w]` appends the separator and `w` to the join of `parts`. */
  lemma {:induction false} JoinSnoc(parts: seq<string>, w: string, sep: char)
    requires |parts| >= 1
    ensures Join(parts + [w], sep) == Join(parts, sep) + [sep] + w
    decreases |parts|
  {
    if |parts| > 1 {
      JoinSnoc(parts[1..], w, sep);
      assert (parts + [w])[1..] == parts[1..] + [w];
    }
  }

  /** Joining `a + b` (both non-empty) puts one separator between the two joins. */
  lemma {:induction false} JoinAppend(a: seq<string>, b: seq<string>, sep: char)
    requires |a| >= 1 && |b| >= 1
    ensures Join(a + b, sep) == Join(a, sep) + [sep] + Join(b, sep)
    decreases |a|
  {
    if |a| == 1 {
      assert (a + b)[1..] == b;
    } else {
      JoinAppend(a[1..], b, sep);
      assert (a + b)[1..] == a[1..] + b;
    }
  }

  /** The characters `String.prototype.trim` removes: the ECMAScript
      WhiteSpace and LineTerminator code points (tab, line feed, vertical
      tab, form feed, carriage return, space, no-break space, the Unicode
      space separators, line and paragraph separator, and the byte order
      mark). */
  predicate IsWhitespace(c: char)
  {
    || ('\t' <= c <= '\r')
    || c == ' ' || c == '\U{A0}' || c == '\U{1680}'
    || ('\U{2000}' <= c <= '\U{200A}')
    || c == '\U{2028}' || c == '\U{2029}' || c == '\U{202F}' || c == '\U{205F}'
    || c == '\U{3000}' || c == '\U{FEFF}'
  }

  /** Drops leading whitespace: the result is the longest suffix of `s`
      that starts with a non-whitespace character (or is empty). */
  function TrimStart(s: string): (r: string)
    ensures |r| <= |s| && r == s[|s| - |r|..]
    ensures forall i :: 0 <= i < |s| - |r| ==> IsWhitespace(s[i])
    ensures r != [] ==> !IsWhitespace(r[0])
    decreases |s|
  {
    if s != [] && IsWhitespace(s[0]) then TrimStart(s[1..]) else s
  }

  /** Drops trailing whitespace: the result is the longest prefix of `s`
      that ends with a non-whitespace character (or is empty). */
  function TrimEnd(s: string): (r: string)
    ensures |r| <= |s| && r == s[..|r|]
    ensures forall i :: |r| <= i < |s| ==> IsWhitespace(s[i])
    ensures r != [] ==> !IsWhitespace(r[|r| - 1])
    decreases |s|
  {
    if s != [] && IsWhitespace(s[|s| - 1]) then TrimEnd(s[..|s| - 1]) else s
  }

  /** `r` is `s` with the whitespace around it removed: `r` is the slice of
      `s` starting at `lo`, everything outside it is whitespace, and `r`
      neither starts nor ends with whitespace. */
  ghost predicate TrimmedAt(s: string, lo: int, r: string)
  {
    && 0 <= lo && lo + |r| <= |s|
    && r == s[lo..lo + |r|]
    && (forall i :: 0 <= i < lo ==> IsWhitespace(s[i]))
    && (forall i :: lo + |r| <= i < |s| ==> IsWhitespace(s[i]))
    && (r != [] ==> !IsWhitespace(r[0]) && !IsWhitespace(r[|r| - 1]))
  }

  /** `s.trim()`. */
  function Trim(s: string): (r: string)
    ensures TrimmedAt(s, |s| - |TrimStart(s)|, r)
  {
    TrimSlice(s);
    TrimEnd(TrimStart(s))
  }

  lemma TrimSlice(s: string)
    ensures TrimmedAt(s, |s| - |TrimStart(s)|, TrimEnd(TrimStart(s)))
  {
    SliceOfSlice(s, TrimStart(s), TrimEnd(TrimStart(s)));
  }

  /** The trimmed slice is unique: whatever the start, a string has one
      trimmed form. */
  lemma {:induction false} TrimmedAtUnique(s: string, lo1: int, r1: string, lo2: int, r2: string)
    requires TrimmedAt(s, lo1, r1) && TrimmedAt(s, lo2, r2)
    ensures r1 == r2
  {
    if r1 != [] && r2 != [] {
      assert s[lo1] == r1[0] && s[lo2] == r2[0];
      assert lo1 == lo2;
      assert s[lo1 + |r1| - 1] == r1[|r1| - 1] && s[lo2 + |r2| - 1] == r2[|r2| - 1];
    }
  }

  /** Trimming adds no character: a character absent from `s` is absent
      from `s.trim()`. */
  lemma TrimKeepsOut(s: string, c: char)
    requires c !in s
    ensures c !in Trim(s)
  {
    var r := Trim(s);
    var lo := |s| - |TrimStart(s)|;
    forall k | 0 <= k < |r|
      ensures r[k] != c
    {
      assert r[k] == s[lo + k];
    }
  }

  /** A prefix `r` of a suffix `t` of `s`, where `t` starts after
      whitespace only and with a non-whitespace character, and `r` ends
      before whitespace only and with a non-whitespace character, is `s`
      trimmed. */
  lemma SliceOfSlice(s: string, t: string, r: string)
    requires |t| <= |s| && t == s[|s| - |t|..]
    requires forall i :: 0 <= i < |s| - |t| ==> IsWhitespace(s[i])
    requires t != [] ==> !IsWhitespace(t[0])
    requires |r| <= |t| && r == t[..|r|]
    requires forall i :: |r| <= i < |t| ==> IsWhitespace(t[i])
    requires r != [] ==> !IsWhitespace(r[|r| - 1])
    ensures TrimmedAt(s, |s| - |t|, r)
  {
    var lo := |s| - |t|;
    forall i | lo + |r| <= i < |s|
      ensures IsWhitespace(s[i])
    {
      assert s[i] == t[i - lo];
    }
    assert r == s[lo..lo + |r|];
    if r != [] {
      assert r[0] == t[0];
    }
  }

  /** Trimming is idempotent. */
  lemma TrimIdempotent(s: string)
    ensures Trim(Trim(s)) == Trim(s)
  {
    var r := Trim(s);
    assert TrimStart(r) == r;
    assert TrimEnd(r) == r;
  }

  function Pow10(n: nat): (p: nat)
    ensures p >= 1
  {
    if n == 0 then 1 else 10 * Pow10(n - 1)
  }

  function DigitChar(d: nat): (c: char)
    requires d < 10
    ensures '0' <= c <= '9'
    ensures c as int - '0' as int == d
  {
    ['0', '1', '2', '3', '4', '5', '6', '7', '8', '9'][d]
  }

  /** The decimal rendering of `n` that `${n}` produces in a template
      string: digits only, no leading zero. */
  function Decimal(n: nat): (s: string)
    ensures |s| >= 1
    ensures forall i :: 0 <= i < |s| ==> '0' <= s[i] <= '9'
    ensures |s| > 1 ==> s[0] != '0'
    decreases n
  {
    if n < 10 then [DigitChar(n)] else Decimal(n / 10) + [DigitChar(n % 10)]
  }

  /** The number a string of decimal digits denotes, most significant first. */
  ghost function DigitsValue(s: string): int
    decreases |s|
  {
    if s == [] then 0 else 10 * DigitsValue(s[..|s| - 1]) + (s[|s| - 1] as int - '0' as int)
  }

  /** The digits of `Decimal(n)` denote `n`. */
  lemma {:induction false} DecimalValue(n: nat)
    ensures DigitsValue(Decimal(n)) == n
    decreases n
  {
    if n >= 10 {
      var s := Decimal(n);
      DecimalValue(n / 10);
      assert s[..|s| - 1] == Decimal(n / 10);
    }
  }

  /** Distinct numbers print differently, so distinct entry indices name
      distinct fields. */
  lemma DecimalInjective(n: nat, m: nat)
    requires Decimal(n) == Decimal(m)
    ensures n == m
  {
    DecimalValue(n);
    DecimalValue(m);
  }

  /** A number of at least `10^len` has more than `len` decimal digits. */
  lemma {:induction false} DecimalLength(n: nat, len: nat)
    requires n >= Pow10(len)
    ensures |Decimal(n)| > len
    decreases len
  {
    if len > 0 {
      DecimalLength(n / 10, len - 1);
    }
  }
}
