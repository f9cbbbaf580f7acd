/**
 * The few pieces of Python 2 string behaviour the scheduler relies on:
 * whitespace stripping, `str.split(sep)`, `str.split()`, `int()` on a
 * base-10 string, and the `%d` / `%02d` formats.
 */
module Text {
  import opened Wrappers

  /** The characters Python 2 treats as whitespace in `str.strip`, `str.split()` and `int()` on a `str`. */
  predicate IsSpace(c: char) {
    c == ' ' || c == '\t' || c == '\n' || c == '\r' || c == '\U{000B}' || c == '\U{000C}'
  }

  /**
   * `unicode.isspace()` in Python 2 (`Py_UNICODE_ISSPACE`): the ASCII
   * whitespace, the four information separators U+001C..U+001F, and the
   * Unicode spaces and line or paragraph separators.
   */
  predicate IsUnicodeSpace(c: char) {
    IsSpace(c) || '\U{001C}' <= c <= '\U{001F}' || c == '\U{0085}' || c == '\U{00A0}' ||
    c == '\U{1680}' || c == '\U{180E}' || '\U{2000}' <= c <= '\U{200A}' ||
    c == '\U{2028}' || c == '\U{2029}' || c == '\U{202F}' || c == '\U{205F}' || c == '\U{3000}'
  }

  /** Python 2's two string types, `str` (bytes) and `unicode`: they strip different sets of characters. */
  datatype StringType = Bytes | Unicode

  predicate IsSpaceIn(t: StringType, c: char) {
    match t
    case Bytes => IsSpace(c)
    case Unicode => IsUnicodeSpace(c)
  }

  predicate NoSpace(s: string) {
    forall i :: 0 <= i < |s| ==> !IsSpace(s[i])
  }

  /** `s.lstrip()` on a string of type `t`: the longest suffix of `s` that does not start with whitespace. */
  function LStrip(t: StringType, s: string): (r: string)
    ensures |r| <= |s| && r == s[|s| - |r|..]
    ensures r == [] || !IsSpaceIn(t, r[0])
    ensures forall i :: 0 <= i < |s| - |r| ==> IsSpaceIn(t, s[i])
  {
    if s != [] && IsSpaceIn(t, s[0]) then
      var r := LStrip(t, s[1..]);
      assert forall i :: 1 <= i < |s| - |r| ==> s[i] == s[1..][i - 1];
      r
    else s
  }

  /** `s.rstrip()` on a string of type `t`: the longest prefix of `s` that does not end with whitespace. */
  function RStrip(t: StringType, s: string): (r: string)
    ensures |r| <= |s| && r == s[..|r|]
    ensures r == [] || !IsSpaceIn(t, r[|r| - 1])
    ensures forall i :: |r| <= i < |s| ==> IsSpaceIn(t, s[i])
  {
    if s != [] && IsSpaceIn(t, s[|s| - 1]) then
      var r := RStrip(t, s[..|s| - 1]);
      assert forall i :: |r| <= i < |s| - 1 ==> s[i] == s[..|s| - 1][i];
      r
    else s
  }

  /**
   * `s.strip()` on a string of type `t`: what is left of `s` once the
   * whitespace before offset `d` and after `d + |r|` is dropped, where `d` is
   * the amount `lstrip` removes; the result neither starts nor ends with
   * whitespace.
   */
  function Strip(t: StringType, s: string): (r: string)
    ensures var d := |s| - |LStrip(t, s)|;
      && d + |r| <= |s| && r == s[d..][..|r|]
      && (forall i :: 0 <= i < d ==> IsSpaceIn(t, s[i]))
      && (forall i :: d + |r| <= i < |s| ==> IsSpaceIn(t, s[i]))
    ensures r == [] || (!IsSpaceIn(t, r[0]) && !IsSpaceIn(t, r[|r| - 1]))
  {
    var l := LStrip(t, s);
    var r := RStrip(t, l);
    SliceOfSuffix(t, s, l, r);
    r
  }

  /**
   * A prefix `r` of a suffix `l` of `s`, where `l` starts with no whitespace
   * and only whitespace precedes it in `s` or follows `r` in `l`, is a slice
   * of `s` with only whitespace around it.
   */
  lemma SliceOfSuffix(t: StringType, s: string, l: string, r: string)
    requires |l| <= |s| && l == s[|s| - |l|..]
    requires l == [] || !IsSpaceIn(t, l[0])
    requires forall i :: 0 <= i < |s| - |l| ==> IsSpaceIn(t, s[i])
    requires |r| <= |l| && r == l[..|r|]
    requires r == [] || !IsSpaceIn(t, r[|r| - 1])
    requires forall i :: |r| <= i < |l| ==> IsSpaceIn(t, l[i])
    ensures var d := |s| - |l|;
      && d + |r| <= |s| && r == s[d..][..|r|]
      && (forall i :: 0 <= i < d ==> IsSpaceIn(t, s[i]))
      && (forall i :: d + |r| <= i < |s| ==> IsSpaceIn(t, s[i]))
    ensures r == [] || (!IsSpaceIn(t, r[0]) && !IsSpaceIn(t, r[|r| - 1]))
  {
    var d := |s| - |l|;
    forall i | d + |r| <= i < |s| ensures IsSpaceIn(t, s[i]) {
      assert s[i] == l[i - d];
    }
    if r != [] {
      assert r[0] == l[0];
    }
  }

  /** A string that neither starts nor ends with whitespace is its own strip. */
  lemma StripUnspaced(t: StringType, s: string)
    requires s == [] || (!IsSpaceIn(t, s[0]) && !IsSpaceIn(t, s[|s| - 1]))
    ensures Strip(t, s) == s
  {
  }

  lemma LStripUnspaced(t: StringType, s: string)
    requires s == [] || !IsSpaceIn(t, s[0])
    ensures LStrip(t, s) == s
  {
  }

  /** The position of the first `c` in `s`. */
  function IndexOf(s: string, c: char): (i: nat)
    requires c in s
    ensures i < |s| && s[i] == c && c !in s[..i]
  {
    if s[0] == c then 0
    else
      var j := IndexOf(s[1..], c);
      assert s[..j + 1] == [s[0]] + s[1..][..j];
      j + 1
  }

  /** `s.split(c)`: the pieces of `s` between the occurrences of `c`. */
  function Split(s: string, c: char): (parts: seq<string>)
    ensures |parts| >= 1
    ensures forall k :: 0 <= k < |parts| ==> c !in parts[k]
    decreases |s|
  {
    if c in s then
      var i := IndexOf(s, c);
      [s[..i]] + Split(s[i + 1..], c)
    else
      [s]
  }

  /** `c.join(parts)`. */
  function Join(parts: seq<string>, c: char): string
  {
    if parts == [] then ""
    else if |parts| == 1 then parts[0]
    else parts[0] + [c] + Join(parts[1..], c)
  }

  /** Splitting `a + [c] + b` with `c` not in `a` peels off `a` as the first piece. */
  lemma SplitCons(a: string, c: char, b: string)
    requires c !in a
    ensures Split(a + [c] + b, c) == [a] + Split(b, c)
  {
    var s := a + [c] + b;
    IndexOfAfter(a, c, b);
    assert s[..|a|] == a && s[|a| + 1..] == b;
  }

  /** `split` undoes `join` when no piece contains the separator. */
  lemma {:induction false} SplitJoin(parts: seq<string>, c: char)
    requires |parts| >= 1
    requires forall k :: 0 <= k < |parts| ==> c !in parts[k]
    ensures Split(Join(parts, c), c) == parts
  {
    if |parts| == 1 {
      assert Join(parts, c) == parts[0];
    } else {
      var rest := parts[1..];
      assert forall k :: 0 <= k < |rest| ==> rest[k] == parts[k + 1];
      SplitJoin(rest, c);
      assert Join(parts, c) == parts[0] + [c] + Join(rest, c);
      SplitCons(parts[0], c, Join(rest, c));
      assert parts == [parts[0]] + rest;
    }
  }

  /** `join` undoes `split`. */
  lemma {:induction false} JoinSplit(s: string, c: char)
    ensures Join(Split(s, c), c) == s
    decreases |s|
  {
    if c in s {
      var i := IndexOf(s, c);
      var a, rest := s[..i], s[i + 1..];
      JoinSplit(rest, c);
      SplitAtFirst(s, c, i);
      JoinCons(a, Split(rest, c), c);
    }
  }

  /** Where `c` first occurs in `s`, `split` cuts off the first piece. */
  lemma SplitAtFirst(s: string, c: char, i: nat)
    requires c in s && i == IndexOf(s, c)
    ensures Split(s, c) == [s[..i]] + Split(s[i + 1..], c)
    ensures s == s[..i] + [c] + s[i + 1..]
  {
  }

  lemma JoinCons(a: string, parts: seq<string>, c: char)
    requires parts != []
    ensures Join([a] + parts, c) == a + [c] + Join(parts, c)
  {
    assert ([a] + parts)[1..] == parts;
  }

  /** `s.split(c, 1)` unpacked into two names; `None` where Python's unpacking raises `ValueError`. */
  function SplitOnce(s: string, c: char): (r: Option<(string, string)>)
    ensures r.None? <==> c !in s
    ensures r.Some? ==> c !in r.value.0 && s == r.value.0 + [c] + r.value.1
  {
    if c in s then
      var i := IndexOf(s, c);
      assert s == s[..i] + [c] + s[i + 1..];
      Some((s[..i], s[i + 1..]))
    else
      None
  }

  /** The first `c` of `a + [c] + b` is the one after `a` when `a` has none. */
  lemma {:induction false} IndexOfAfter(a: string, c: char, b: string)
    requires c !in a
    ensures IndexOf(a + [c] + b, c) == |a|
  {
    if a != [] {
      assert (a + [c] + b)[1..] == a[1..] + [c] + b;
      IndexOfAfter(a[1..], c, b);
    }
  }

  /** `s.split(c, 1)` cuts at the first `c`. */
  lemma SplitOnceAt(a: string, c: char, b: string)
    requires c !in a
    ensures SplitOnce(a + [c] + b, c) == Some((a, b))
  {
    IndexOfAfter(a, c, b);
    var s := a + [c] + b;
    assert s[..|a|] == a && s[|a| + 1..] == b;
  }

  /** Stripping leading whitespace keeps everything from the first other character on. */
  lemma {:induction false} LStripPadding(t: StringType, pad: string, v: string)
    requires forall i :: 0 <= i < |pad| ==> IsSpaceIn(t, pad[i])
    requires v == [] || !IsSpaceIn(t, v[0])
    ensures LStrip(t, pad + v) == v
  {
    if pad != [] {
      assert (pad + v)[1..] == pad[1..] + v;
      LStripPadding(t, pad[1..], v);
    }
  }

  /** Trailing whitespace behind a value that does not end in whitespace is all that `rstrip` drops. */
  lemma {:induction false} RStripPadding(t: StringType, v: string, pad: string)
    requires forall i :: 0 <= i < |pad| ==> IsSpaceIn(t, pad[i])
    requires v == [] || !IsSpaceIn(t, v[|v| - 1])
    ensures RStrip(t, v + pad) == v
  {
    if pad != [] {
      assert (v + pad)[..|v + pad| - 1] == v + pad[..|pad| - 1];
      RStripPadding(t, v, pad[..|pad| - 1]);
    }
  }

  /** `strip` gives back a value that neither starts nor ends in whitespace, whatever padding surrounds it. */
  lemma StripPadded(t: StringType, pre: string, v: string, post: string)
    requires forall i :: 0 <= i < |pre| ==> IsSpaceIn(t, pre[i])
    requires forall i :: 0 <= i < |post| ==> IsSpaceIn(t, post[i])
    requires v != [] && !IsSpaceIn(t, v[0]) && !IsSpaceIn(t, v[|v| - 1])
    ensures Strip(t, pre + v + post) == v
  {
    assert pre + v + post == pre + (v + post);
    LStripPadding(t, pre, v + post);
    RStripPadding(t, v, post);
  }

  /** The length of the run of non-whitespace at the start of `s`. */
  function WordLength(s: string): (n: nat)
    ensures n <= |s| && NoSpace(s[..n])
    ensures n < |s| ==> IsSpace(s[n])
  {
    if s == [] || IsSpace(s[0]) then 0
    else
      var n := WordLength(s[1..]);
      assert s[..n + 1] == [s[0]] + s[1..][..n];
      n + 1
  }

  /** `s.split()`: the maximal runs of non-whitespace, in order. */
  function Words(s: string): (ws: seq<string>)
    ensures forall k :: 0 <= k < |ws| ==> ws[k] != [] && NoSpace(ws[k])
    decreases |s|
  {
    var t := LStrip(Bytes, s);
    if t == [] then []
    else
      var n := WordLength(t);
      [t[..n]] + Words(t[n..])
  }

  lemma {:induction false} WordLengthOfWord(w: string, rest: string)
    requires NoSpace(w) && (rest == [] || IsSpace(rest[0]))
    ensures WordLength(w + rest) == |w|
    decreases |w|
  {
    if w != [] {
      assert (w + rest)[1..] == w[1..] + rest;
      WordLengthOfWord(w[1..], rest);
    }
  }

  lemma WordsCons(w: string, rest: string)
    requires w != [] && NoSpace(w) && (rest == [] || IsSpace(rest[0]))
    ensures Words(w + rest) == [w] + Words(rest)
  {
    var t := w + rest;
    assert t[0] == w[0] && !IsSpace(w[0]);
    LStripUnspaced(Bytes, t);
    WordLengthOfWord(w, rest);
    assert t[..|w|] == w;
    assert t[|w|..] == rest;
  }

  lemma WordsLeadingSpace(s: string)
    ensures Words(" " + s) == Words(s)
  {
    assert (" " + s)[1..] == s;
    assert LStrip(Bytes, " " + s) == LStrip(Bytes, s);
  }

  lemma WordsJoinStep(w: string, ws: seq<string>)
    requires w != [] && NoSpace(w) && ws != []
    ensures Words(Join([w] + ws, ' ')) == [w] + Words(Join(ws, ' '))
  {
    var rest := Join(ws, ' ');
    assert ([w] + ws)[1..] == ws;
    assert Join([w] + ws, ' ') == w + (" " + rest);
    WordsCons(w, " " + rest);
    WordsLeadingSpace(rest);
  }

  /** `" ".join(ws).split() == ws` when every word is non-empty and has no whitespace. */
  lemma {:induction false} WordsJoin(ws: seq<string>)
    requires forall k :: 0 <= k < |ws| ==> ws[k] != [] && NoSpace(ws[k])
    ensures Words(Join(ws, ' ')) == ws
  {
    if |ws| == 1 {
      WordsCons(ws[0], "");
      assert ws[0] + "" == ws[0];
    } else if |ws| > 1 {
      WordsJoin(ws[1..]);
      WordsJoinStep(ws[0], ws[1..]);
    }
  }

  predicate IsDigit(c: char) { '0' <= c <= '9' }

  predicate AllDigits(s: string) {
    forall i :: 0 <= i < |s| ==> IsDigit(s[i])
  }

  function DigitValue(c: char): (d: nat)
    requires IsDigit(c)
    ensures d < 10
  {
    c as int - '0' as int
  }

  function DigitChar(d: nat): (c: char)
    requires d < 10
    ensures IsDigit(c) && DigitValue(c) == d
  {
    ('0' as int + d) as char
  }

  /** The number a string of decimal digits denotes (leading zeros allowed, as Python's `int()` does). */
  function DecimalValue(s: string): nat
    requires AllDigits(s)
  {
    if s == [] then 0 else 10 * DecimalValue(s[..|s| - 1]) + DigitValue(s[|s| - 1])
  }

  /** A numeral without leading zeros: `0` alone, or digits not starting with `0`. */
  predicate Canonical(s: string)
  {
    s != [] && AllDigits(s) && (s[0] == '0' ==> |s| == 1)
  }

  /** `"%d" % n` for `n >= 0`: the shortest decimal numeral of `n`. */
  function FormatNat(n: nat): (s: string)
    ensures Canonical(s)
    ensures s[0] == '0' <==> n == 0
    ensures |s| == 1 <==> n < 10
  {
    if n < 10 then [DigitChar(n)] else FormatNat(n / 10) + [DigitChar(n % 10)]
  }

  /** Reading back a formatted number gives the number. */
  lemma {:induction false} DecimalValueOfFormatNat(n: nat)
    ensures DecimalValue(FormatNat(n)) == n
  {
    if n >= 10 {
      DecimalValueOfFormatNat(n / 10);
      var s := FormatNat(n);
      assert s[..|s| - 1] == FormatNat(n / 10);
    }
  }

  /** A numeral that starts with a non-zero digit has a positive value. */
  lemma {:induction false} DecimalValuePositive(s: string)
    requires s != [] && AllDigits(s) && s[0] != '0'
    ensures DecimalValue(s) > 0
  {
    if |s| > 1 {
      DecimalValuePositive(s[..|s| - 1]);
    }
  }

  /** `FormatNat` writes the only numeral without leading zeros that has its value. */
  lemma {:induction false} CanonicalIsFormatNat(s: string)
    requires Canonical(s)
    ensures s == FormatNat(DecimalValue(s))
  {
    var v := DecimalValue(s);
    if |s| == 1 {
      assert DigitChar(DigitValue(s[0])) == s[0];
    } else {
      var p := s[..|s| - 1];
      DecimalValuePositive(p);
      assert Canonical(p);
      CanonicalIsFormatNat(p);
      assert v / 10 == DecimalValue(p) && v % 10 == DigitValue(s[|s| - 1]);
      assert DigitChar(DigitValue(s[|s| - 1])) == s[|s| - 1];
      assert s == p + [s[|s| - 1]];
    }
  }

  /** A leading zero does not change the value of a numeral. */
  lemma {:induction false} DecimalValueLeadingZero(s: string)
    requires AllDigits(s)
    ensures AllDigits("0" + s) && DecimalValue("0" + s) == DecimalValue(s)
    decreases |s|
  {
    if s != [] {
      var t := "0" + s;
      assert t[..|t| - 1] == "0" + s[..|s| - 1];
      DecimalValueLeadingZero(s[..|s| - 1]);
    }
  }

  /** `"%d" % n`. */
  function FormatInt(n: int): (s: string)
    ensures s != [] && !IsSpace(s[0]) && !IsSpace(s[|s| - 1])
    ensures forall i :: 0 <= i < |s| ==> IsDigit(s[i]) || s[i] == '-'
    ensures n >= 0 ==> Canonical(s) && DecimalValue(s) == n
    ensures n < 0 ==> s[0] == '-' && Canonical(s[1..]) && DecimalValue(s[1..]) == -n
  {
    if n < 0 then
      DecimalValueOfFormatNat(-n);
      assert ("-" + FormatNat(-n))[1..] == FormatNat(-n);
      "-" + FormatNat(-n)
    else
      DecimalValueOfFormatNat(n);
      FormatNat(n)
  }

  /** `"%02d" % n` for `n >= 0`: zero-padded to at least two digits. */
  function FormatPadded2(n: nat): (s: string)
    ensures AllDigits(s) && |s| >= 2
    ensures |s| == 2 <==> n < 100
    ensures |s| == 2 || s[0] != '0'
    ensures DecimalValue(s) == n
  {
    DecimalValueOfFormatNat(n);
    if n < 10 then
      DecimalValueLeadingZero(FormatNat(n));
      "0" + FormatNat(n)
    else
      assert n < 100 ==> |FormatNat(n)| == 2 by {
        if n < 100 { assert n / 10 < 10; }
      }
      assert |FormatNat(n)| == 2 ==> n < 100 by {
        if |FormatNat(n)| == 2 { assert |FormatNat(n / 10)| == 1; }
      }
      FormatNat(n)
  }

  /**
   * Python 2's `int(s)` in base 10 (`PyOS_strtol`): surrounding whitespace,
   * an optional sign (which may be followed by whitespace), then at least one
   * ASCII digit. `None` where `int()` raises `ValueError`.
   */
  function ParseInt(s: string): Option<int>
  {
    var t := Strip(Bytes, s);
    if t != [] && (t[0] == '-' || t[0] == '+') then
      var d := LStrip(Bytes, t[1..]);
      if d != [] && AllDigits(d) then
        Some(if t[0] == '-' then -(DecimalValue(d) as int) else DecimalValue(d) as int)
      else None
    else if t != [] && AllDigits(t) then Some(DecimalValue(t) as int)
    else None
  }

  /** `int()` of plain decimal digits is their value. */
  lemma ParseDigits(d: string)
    requires d != [] && AllDigits(d)
    ensures ParseInt(d) == Some(DecimalValue(d) as int)
  {
    StripUnspaced(Bytes, d);
    assert d[0] != '-' && d[0] != '+';
  }

  /** `int()` of a minus sign followed by decimal digits is their value negated. */
  lemma ParseNegativeDigits(s: string, d: string)
    requires s != [] && s[0] == '-' && s[1..] == d && d != [] && AllDigits(d)
    ensures ParseInt(s) == Some(-(DecimalValue(d) as int))
  {
    assert IsDigit(d[0]) && IsDigit(d[|d| - 1]) && s[|s| - 1] == d[|d| - 1];
    StripUnspaced(Bytes, s);
    LStripUnspaced(Bytes, d);
    ParseSignedStripped(s, d);
  }

  lemma ParseSignedStripped(s: string, d: string)
    requires s != [] && s[0] == '-' && s[1..] == d && d != [] && AllDigits(d)
    requires Strip(Bytes, s) == s && LStrip(Bytes, d) == d
    ensures ParseInt(s) == Some(-(DecimalValue(d) as int))
  {
    var t := Strip(Bytes, s);
    assert t[0] == '-';
    assert LStrip(Bytes, t[1..]) == d;
  }

  lemma FormatIntNegative(n: int)
    requires n < 0
    ensures FormatInt(n)[0] == '-' && FormatInt(n)[1..] == FormatNat(-n)
  {
  }

  /** `int("%d" % n) == n`. */
  lemma ParseFormatInt(n: int)
    ensures ParseInt(FormatInt(n)) == Some(n)
  {
    if n < 0 {
      var m: nat := -n;
      var d := FormatNat(m);
      DecimalValueOfFormatNat(m);
      FormatIntNegative(n);
      ParseNegativeDigits(FormatInt(n), d);
    } else {
      DecimalValueOfFormatNat(n);
      ParseDigits(FormatNat(n));
    }
  }
}
