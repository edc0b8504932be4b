/** The Python string primitives the pipeline relies on: `str.split(sep)`, `sep.join`, `''.join`,
    `str.strip(c)`, `str(n)` for a natural number and `int(token)`. */
module Text {

  import opened Common

  predicate IsDigit(c: char) { '0' <= c <= '9' }

  predicate AllDigits(s: string) { forall i :: 0 <= i < |s| ==> IsDigit(s[i]) }

  predicate StartsWith(s: string, prefix: string) { |prefix| <= |s| && s[..|prefix|] == prefix }

  // ---------------------------------------------------------------- split / join

  /** `s.split(sep)`: never empty, and no part contains the separator (`"".split(",") == [""]`). */
  function Split(s: string, sep: char): (parts: seq<string>)
    ensures |parts| >= 1
    ensures forall i :: 0 <= i < |parts| ==> sep !in parts[i]
    decreases |s|
  {
    if |s| == 0 then [""]
    else if s[0] == sep then [""] + Split(s[1..], sep)
    else
      var rest := Split(s[1..], sep);
      [[s[0]] + rest[0]] + rest[1..]
  }

  /** `sep.join(parts)` for a non-empty list of parts. */
  function Join(parts: seq<string>, sep: char): string
    requires |parts| >= 1
  {
    if |parts| == 1 then parts[0] else parts[0] + [sep] + Join(parts[1..], sep)
  }

  /** Joining the pieces of a split gives back the original string. */
  lemma {:induction false} JoinSplit(s: string, sep: char)
    ensures Join(Split(s, sep), sep) == s
    decreases |s|
  {
    if |s| > 0 {
      var rest := Split(s[1..], sep);
      JoinSplit(s[1..], sep);
      if s[0] == sep {
        assert Split(s, sep)[1..] == rest;
      } else {
        var parts := Split(s, sep);
        assert parts[1..] == rest[1..];
        if |rest| > 1 {
          assert Join(rest, sep) == rest[0] + [sep] + Join(rest[1..], sep);
        }
        assert s == [s[0]] + s[1..];
      }
    }
  }

  /** A string without the separator splits into itself alone. */
  lemma {:induction false} SplitNoSeparator(p: string, sep: char)
    requires sep !in p
    ensures Split(p, sep) == [p]
    decreases |p|
  {
    if |p| > 0 {
      SplitNoSeparator(p[1..], sep);
      assert p == [p[0]] + p[1..];
    }
  }

  /** Splitting peels off a leading separator-free piece. */
  lemma {:induction false} SplitCons(p: string, sep: char, rest: string)
    requires sep !in p
    ensures Split(p + [sep] + rest, sep) == [p] + Split(rest, sep)
    decreases |p|
  {
    var s := p + [sep] + rest;
    if |p| == 0 {
      assert s[1..] == rest;
    } else {
      assert s[1..] == p[1..] + [sep] + rest;
      SplitCons(p[1..], sep, rest);
      assert p == [p[0]] + p[1..];
    }
  }

  /** Splitting the join of separator-free parts gives back the parts. */
  lemma {:induction false} SplitJoin(parts: seq<string>, sep: char)
    requires |parts| >= 1
    requires forall i :: 0 <= i < |parts| ==> sep !in parts[i]
    ensures Split(Join(parts, sep), sep) == parts
  {
    if |parts| == 1 {
      SplitNoSeparator(parts[0], sep);
    } else {
      SplitJoin(parts[1..], sep);
      SplitCons(parts[0], sep, Join(parts[1..], sep));
      assert parts == [parts[0]] + parts[1..];
    }
  }

  /** `''.join(parts)`. */
  function Concat(parts: seq<string>): string
  {
    if |parts| == 0 then "" else parts[0] + Concat(parts[1..])
  }

  /** `s` with every occurrence of `c` deleted: an independent reference for `''.join(s.split(c))`. */
  function Without(s: string, c: char): (r: string)
    ensures c !in r
    ensures |r| <= |s|
  {
    if |s| == 0 then "" else (if s[0] == c then "" else [s[0]]) + Without(s[1..], c)
  }

  /** Splitting on `c` and gluing the pieces back with nothing in between deletes every `c`. */
  lemma {:induction false} ConcatSplit(s: string, c: char)
    ensures Concat(Split(s, c)) == Without(s, c)
    decreases |s|
  {
    if |s| > 0 {
      ConcatSplit(s[1..], c);
      var rest := Split(s[1..], c);
      if s[0] == c {
        assert Split(s, c)[1..] == rest;
      } else {
        var parts := Split(s, c);
        assert parts[1..] == rest[1..];
        assert Concat(rest) == rest[0] + Concat(rest[1..]);
      }
    }
  }

  // ---------------------------------------------------------------- strip

  /** Number of leading `c` characters. */
  function LeadingCount(s: string, c: char): (n: nat)
    ensures n <= |s|
    ensures forall k :: 0 <= k < n ==> s[k] == c
    ensures n == |s| || s[n] != c
  {
    if |s| > 0 && s[0] == c then 1 + LeadingCount(s[1..], c) else 0
  }

  /** Number of trailing `c` characters. */
  function TrailingCount(s: string, c: char): (n: nat)
    ensures n <= |s|
    ensures forall k :: |s| - n <= k < |s| ==> s[k] == c
    ensures n == |s| || s[|s| - 1 - n] != c
  {
    if |s| > 0 && s[|s| - 1] == c then 1 + TrailingCount(s[..|s| - 1], c) else 0
  }

  /** `s.strip(c)`: removes every leading and trailing `c` (its contract is `StripSlice`). */
  function Strip(s: string, c: char): (r: string)
  {
    var t := s[LeadingCount(s, c)..];
    t[..|t| - TrailingCount(t, c)]
  }

  /** What strip promises: the result is a slice of `s` that neither starts nor ends with `c`,
      and everything cut off on either side is `c`. */
  lemma StripSlice(s: string, c: char)
    ensures var r, i := Strip(s, c), LeadingCount(s, c);
      (r == "" || (r[0] != c && r[|r| - 1] != c)) &&
      i + |r| <= |s| && r == s[i..i + |r|] &&
      (forall k :: 0 <= k < i ==> s[k] == c) &&
      (forall k :: i + |r| <= k < |s| ==> s[k] == c)
  {
    var i := LeadingCount(s, c);
    var t := s[i..];
    var n := TrailingCount(t, c);
    var r := Strip(s, c);
    assert r == s[i..i + |r|];
    assert forall k :: i + |r| <= k < |s| ==> s[k] == t[k - i];
  }

  /** A string that neither starts nor ends with `c`, followed by one `c`, strips back to itself
      (the comma-terminated lists of the annotation tables). */
  lemma StripTerminated(x: string, c: char)
    requires |x| > 0 && x[0] != c && x[|x| - 1] != c
    ensures Strip(x + [c], c) == x
  {
    var s := x + [c];
    assert LeadingCount(s, c) == 0;
    assert s[..|s| - 1] == x;
    assert TrailingCount(x, c) == 0;
    assert TrailingCount(s, c) == 1;
  }

  // ---------------------------------------------------------------- decimal numbers

  function DigitChar(d: nat): char
    requires d < 10
  {
    ('0' as int + d) as char
  }

  function DigitValue(c: char): nat
    requires IsDigit(c)
  {
    (c as int - '0' as int) as nat
  }

  /** `str(n)` for a natural number. */
  function NatToDecimal(n: nat): (r: string)
    ensures |r| >= 1 && AllDigits(r)
  {
    if n < 10 then [DigitChar(n)] else NatToDecimal(n / 10) + [DigitChar(n % 10)]
  }

  /** The value of a string of decimal digits. */
  function DigitsValue(s: string): nat
    requires AllDigits(s)
  {
    if |s| == 0 then 0 else DigitsValue(s[..|s| - 1]) * 10 + DigitValue(s[|s| - 1])
  }

  /** Reading back a printed natural number gives the number. */
  lemma {:induction false} DecimalRoundTrip(n: nat)
    ensures DigitsValue(NatToDecimal(n)) == n
  {
    var s := NatToDecimal(n);
    if n < 10 {
      assert s[..|s| - 1] == [];
    } else {
      DecimalRoundTrip(n / 10);
      assert s[..|s| - 1] == NatToDecimal(n / 10);
      assert DigitValue(s[|s| - 1]) == n % 10;
      assert (n / 10) * 10 + n % 10 == n;
    }
  }

  /** Printing is one-to-one: distinct numbers print differently. */
  lemma DecimalInjective(m: nat, n: nat)
    requires NatToDecimal(m) == NatToDecimal(n)
    ensures m == n
  {
    DecimalRoundTrip(m);
    DecimalRoundTrip(n);
  }

  /** `int(token)`: an optional sign followed by at least one decimal digit, anything else raises. */
  function ParseInt(token: string): (r: Option<int>)
    ensures r.Some? <==> (|token| >= 1 && AllDigits(token)) ||
                         (|token| >= 2 && (token[0] == '-' || token[0] == '+') && AllDigits(token[1..]))
    ensures r.Some? && token[0] != '-' ==> r.value >= 0
  {
    if |token| >= 1 && AllDigits(token) then Some(DigitsValue(token))
    else if |token| >= 2 && token[0] == '-' && AllDigits(token[1..]) then Some(0 - DigitsValue(token[1..]) as int)
    else if |token| >= 2 && token[0] == '+' && AllDigits(token[1..]) then Some(DigitsValue(token[1..]))
    else None
  }

  /** `int(str(n)) == n`. */
  lemma ParsePrinted(n: nat)
    ensures ParseInt(NatToDecimal(n)) == Some(n)
  {
    DecimalRoundTrip(n);
  }
}
