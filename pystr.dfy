/**
 * The few Python string operations the aggregator relies on, stated over
 * `seq<char>`: `sep.join(parts)`, `s.split(sep)`, `s.strip()`, `s[1:-1]`,
 * `str(n)` for an integer and `s.startswith('2')`.
 */
module PyStr {

  /** `sep.join(parts)` for a one-character separator. */
  function Join(parts: seq<string>, sep: char): (r: string)
    ensures parts == [] ==> r == ""
    ensures parts != [] ==> parts[0] <= r
    decreases |parts|
  {
    if |parts| == 0 then ""
    else if |parts| == 1 then parts[0]
    else parts[0] + [sep] + Join(parts[1..], sep)
  }

  /**
   * `s.split(sep)` for a one-character separator: the pieces between the
   * separators, in order, so there is always at least one piece (`"".split(",")`
   * is `[""]`), no piece holds the separator, and joining them gives `s` back.
   */
  function Split(s: string, sep: char): (r: seq<string>)
    ensures |r| >= 1
    ensures forall i :: 0 <= i < |r| ==> sep !in r[i]
    ensures Join(r, sep) == s
    decreases |s|
  {
    if s == [] then [[]]
    else
      var rest := Split(s[1..], sep);
      if s[0] == sep then
        assert ([[]] + rest)[1..] == rest;
        [[]] + rest
      else
        var r := [[s[0]] + rest[0]] + rest[1..];
        assert r[1..] == rest[1..];
        assert [s[0]] + s[1..] == s;
        r
  }

  /** Number of occurrences of `c` in `s`. */
  function Count(s: string, c: char): nat
    decreases |s|
  {
    if s == [] then 0 else (if s[0] == c then 1 else 0) + Count(s[1..], c)
  }

  /** Total number of occurrences of `c` in all of `parts`. */
  function CountAll(parts: seq<string>, c: char): nat
    decreases |parts|
  {
    if parts == [] then 0 else Count(parts[0], c) + CountAll(parts[1..], c)
  }

  lemma {:induction false} CountConcat(a: string, b: string, c: char)
    ensures Count(a + b, c) == Count(a, c) + Count(b, c)
    decreases |a|
  {
    if a == [] {
      assert a + b == b;
    } else {
      assert (a + b)[1..] == a[1..] + b;
      CountConcat(a[1..], b, c);
    }
  }

  lemma {:induction false} CountAbsent(s: string, c: char)
    requires c !in s
    ensures Count(s, c) == 0
    decreases |s|
  {
    if s != [] {
      CountAbsent(s[1..], c);
    }
  }

  /** `s.split(sep)` yields one more piece than `s` has separators. */
  lemma {:induction false} SplitLength(s: string, sep: char)
    ensures |Split(s, sep)| == Count(s, sep) + 1
    decreases |s|
  {
    if s != [] {
      SplitLength(s[1..], sep);
    }
  }

  /** A join of `parts` holds the parts' separators plus one between each two parts. */
  lemma {:induction false} JoinCount(parts: seq<string>, sep: char)
    requires |parts| >= 1
    ensures Count(Join(parts, sep), sep) == CountAll(parts, sep) + |parts| - 1
    decreases |parts|
  {
    if |parts| == 1 {
      assert parts[1..] == [];
    } else {
      JoinCount(parts[1..], sep);
      CountConcat(parts[0] + [sep], Join(parts[1..], sep), sep);
      CountConcat(parts[0], [sep], sep);
    }
  }

  /** Joining one more part on the right adds a separator and the part. */
  lemma {:induction false} JoinSnoc(parts: seq<string>, x: string, sep: char)
    ensures Join(parts + [x], sep) == if parts == [] then x else Join(parts, sep) + [sep] + x
    decreases |parts|
  {
    if |parts| == 1 {
      assert (parts + [x])[1..] == [x];
    } else if |parts| > 1 {
      assert (parts + [x])[1..] == parts[1..] + [x];
      JoinSnoc(parts[1..], x, sep);
    }
  }

  /** Every line followed by the terminator, concatenated in order. */
  function Terminated(lines: seq<string>, term: char): (r: string)
    decreases |lines|
  {
    if lines == [] then "" else Terminated(lines[..|lines| - 1], term) + lines[|lines| - 1] + [term]
  }

  /** Terminating every line is joining them with one empty line appended. */
  lemma {:induction false} TerminatedJoin(lines: seq<string>, term: char)
    ensures Terminated(lines, term) == Join(lines + [""], term)
    decreases |lines|
  {
    if lines == [] {
      assert lines + [""] == [""];
    } else {
      var n := |lines|;
      var pre := lines[..n - 1];
      var x := lines[n - 1];
      TerminatedJoin(pre, term);
      assert pre + [x] == lines;
      assert Terminated(lines, term) == Join(pre + [""], term) + x + [term];
      JoinSnoc(lines, "", term);
      assert Join(lines + [""], term) == Join(lines, term) + [term];
      JoinSnoc(pre, x, term);
      if pre != [] {
        JoinSnoc(pre, "", term);
        assert Join(pre + [""], term) == Join(pre, term) + [term];
        assert Join(lines, term) == Join(pre, term) + [term] + x;
      } else {
        assert pre + [""] == [""];
        assert Join(lines, term) == x;
      }
    }
  }

  lemma {:induction false} SplitNoSeparator(a: string, sep: char)
    requires sep !in a
    ensures Split(a, sep) == [a]
    decreases |a|
  {
    if a != [] {
      SplitNoSeparator(a[1..], sep);
      assert [a[0]] + a[1..] == a;
    }
  }

  lemma {:induction false} SplitAfterPiece(a: string, t: string, sep: char)
    requires sep !in a
    ensures Split(a + [sep] + t, sep) == [a] + Split(t, sep)
    decreases |a|
  {
    if a == [] {
      assert (a + [sep] + t)[1..] == t;
    } else {
      assert (a + [sep] + t)[1..] == a[1..] + [sep] + t;
      SplitAfterPiece(a[1..], t, sep);
      assert [a[0]] + a[1..] == a;
    }
  }

  /**
   * Round trip: splitting a join gives the parts back, provided there is at
   * least one part and no part holds the separator.
   */
  lemma {:induction false} SplitJoin(parts: seq<string>, sep: char)
    requires |parts| >= 1
    requires forall i :: 0 <= i < |parts| ==> sep !in parts[i]
    ensures Split(Join(parts, sep), sep) == parts
    decreases |parts|
  {
    if |parts| == 1 {
      SplitNoSeparator(parts[0], sep);
    } else {
      SplitJoin(parts[1..], sep);
      SplitAfterPiece(parts[0], Join(parts[1..], sep), sep);
      assert [parts[0]] + parts[1..] == parts;
    }
  }

  /** Python's `str.isspace` for one character, the characters `strip()` removes. */
  predicate IsSpace(c: char)
  {
    || c == ' '
    || '\t' <= c <= '\r'
    || '\U{1c}' <= c <= '\U{1f}'
    || c == '\U{85}' || c == '\U{a0}' || c == '\U{1680}'
    || '\U{2000}' <= c <= '\U{200a}'
    || c == '\U{2028}' || c == '\U{2029}' || c == '\U{202f}' || c == '\U{205f}' || c == '\U{3000}'
  }

  /** How many spaces `s` starts with: `s.lstrip()` is `s[LeadingSpaces(s)..]`. */
  function LeadingSpaces(s: string): (k: nat)
    ensures k <= |s|
    ensures forall i :: 0 <= i < k ==> IsSpace(s[i])
    ensures k < |s| ==> !IsSpace(s[k])
    decreases |s|
  {
    if s != [] && IsSpace(s[0]) then 1 + LeadingSpaces(s[1..]) else 0
  }

  /** `s.rstrip()`: the prefix of `s` that ends at its last non-space. */
  function StripTrailing(s: string): (r: string)
    ensures |r| <= |s| && r == s[..|r|]
    ensures forall i :: |r| <= i < |s| ==> IsSpace(s[i])
    ensures r == [] || !IsSpace(r[|r| - 1])
    decreases |s|
  {
    if s != [] && IsSpace(s[|s| - 1]) then StripTrailing(s[..|s| - 1]) else s
  }

  /**
   * `s.strip()`: a contiguous window of `s` that neither starts nor ends with
   * a space, everything outside the window being spaces.
   */
  function Strip(s: string): (r: string)
    ensures r == [] || (!IsSpace(r[0]) && !IsSpace(r[|r| - 1]))
    ensures LeadingSpaces(s) + |r| <= |s|
    ensures r == s[LeadingSpaces(s)..LeadingSpaces(s) + |r|]
    ensures forall i :: LeadingSpaces(s) + |r| <= i < |s| ==> IsSpace(s[i])
  {
    var k := LeadingSpaces(s);
    StripTrailing(s[k..])
  }

  /** `s[1:-1]`: drops the first and the last character; shorter strings give "". */
  function Inner(s: string): (r: string)
    ensures |s| >= 2 ==> [s[0]] + r + [s[|s| - 1]] == s
    ensures |s| < 2 ==> r == []
  {
    if |s| >= 2 then s[1..|s| - 1] else []
  }

  function Pow10(k: nat): (p: nat)
    ensures p >= 1
  {
    if k == 0 then 1 else 10 * Pow10(k - 1)
  }

  function DigitChar(d: nat): (c: char)
    requires d < 10
    ensures '0' <= c <= '9'
  {
    ('0' as int + d) as char
  }

  /** The decimal digits of `n`, most significant first, without leading zeros. */
  function Digits(n: nat): (r: string)
    ensures |r| >= 1
    ensures forall i :: 0 <= i < |r| ==> '0' <= r[i] <= '9'
    decreases n
  {
    if n < 10 then [DigitChar(n)] else Digits(n / 10) + [DigitChar(n % 10)]
  }

  /** The number a string of decimal digits stands for. */
  function DigitsValue(s: string): int
    decreases |s|
  {
    if s == [] then 0 else 10 * DigitsValue(s[..|s| - 1]) + (s[|s| - 1] as int - '0' as int)
  }

  /** `str(n)` for a Python `int`. */
  function DecString(n: int): (r: string)
    ensures |r| >= 1
    ensures r[0] == '-' <==> n < 0
    ensures forall i :: 0 < i < |r| ==> '0' <= r[i] <= '9'
  {
    if n < 0 then "-" + Digits(-n) else Digits(n)
  }

  /** Reading the digits back gives the number: `str` loses nothing. */
  lemma {:induction false} DigitsRoundTrip(n: nat)
    ensures DigitsValue(Digits(n)) == n
    decreases n
  {
    if n >= 10 {
      DigitsRoundTrip(n / 10);
      var d := Digits(n);
      assert d[..|d| - 1] == Digits(n / 10);
    }
  }

  /** `str(code).startswith('2')`. */
  predicate StartsWithTwo(code: int): (b: bool)
    ensures b ==> code >= 2
  {
    DecString(code)[0] == '2'
  }

  lemma {:induction false} DivTenBand(n: nat, lo: nat, hi: nat)
    requires n >= 10
    ensures (10 * lo <= n < 10 * hi) <==> (lo <= n / 10 < hi)
  {
    var q, r := n / 10, n % 10;
    assert n == 10 * q + r && 0 <= r < 10;
  }

  /**
   * Over a `k+1`-digit number, "its decimal form starts with 2" means exactly
   * "it lies in [2*10^k, 3*10^k)": codes 2, 20..29 and 200..299 start with 2,
   * and so do 2000..2999.
   */
  lemma {:induction false} StartsWithTwoBand(n: nat, k: nat)
    requires Pow10(k) <= n < 10 * Pow10(k)
    ensures StartsWithTwo(n) <==> 2 * Pow10(k) <= n < 3 * Pow10(k)
    decreases k
  {
    if k == 0 {
      assert n < 10;
      assert DecString(n) == [DigitChar(n)];
    } else {
      var p := Pow10(k - 1);
      assert Pow10(k) == 10 * p;
      DivTenBand(n, p, 10 * p);
      StartsWithTwoBand(n / 10, k - 1);
      assert DecString(n)[0] == DecString(n / 10)[0];
      DivTenBand(n, 2 * p, 3 * p);
    }
  }

  /** Among three-digit status codes, exactly 200..299 start with '2'. */
  lemma ThreeDigitCodes(code: int)
    requires 100 <= code < 1000
    ensures StartsWithTwo(code) <==> 200 <= code < 300
  {
    assert Pow10(2) == 100;
    StartsWithTwoBand(code, 2);
  }
}
