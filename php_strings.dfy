/**
 * The three PHP string built-ins the adapter relies on: trim() with its default
 * character list, empty() applied to a string, and the decimal conversion that
 * sprintf's %d performs on an integer.
 */
module PhpStrings {

  // ---------------------------------------------------------------- trim()

  /** The characters trim() strips when no list is given: " \t\n\r\0\x0B". */
  predicate IsTrimChar(c: char) {
    c == ' ' || c == '\t' || c == '\n' || c == '\r' || c == '\0' || c == '\U{B}'
  }

  predicate AllTrimChars(s: string) {
    forall i :: 0 <= i < |s| ==> IsTrimChar(s[i])
  }

  /** Neither begins nor ends with a character trim() would strip. */
  predicate IsBare(s: string) {
    s == [] || (!IsTrimChar(s[0]) && !IsTrimChar(s[|s| - 1]))
  }

  /** ltrim(): the suffix left after every leading trim character is dropped. */
  function TrimLeft(s: string): (r: string)
    ensures |r| <= |s| && r == s[|s| - |r|..]
    ensures AllTrimChars(s[..|s| - |r|])
    ensures r == [] || !IsTrimChar(r[0])
  {
    if |s| > 0 && IsTrimChar(s[0]) then
      var r := TrimLeft(s[1..]);
      assert s[..|s| - |r|] == [s[0]] + s[1..][..|s| - 1 - |r|];
      r
    else
      s
  }

  /** rtrim(): the prefix left after every trailing trim character is dropped. */
  function TrimRight(s: string): (r: string)
    ensures |r| <= |s| && r == s[..|r|]
    ensures AllTrimChars(s[|r|..])
    ensures r == [] || !IsTrimChar(r[|r| - 1])
  {
    if |s| > 0 && IsTrimChar(s[|s| - 1]) then
      var r := TrimRight(s[..|s| - 1]);
      assert s[|r|..] == s[..|s| - 1][|r|..] + [s[|s| - 1]];
      r
    else
      s
  }

  /** trim(): both ends stripped. */
  function Trim(s: string): (r: string)
    ensures |r| <= |s|
    ensures IsBare(r)
    ensures r == [] <==> AllTrimChars(s)
  {
    var left := TrimLeft(s);
    var r := TrimRight(left);
    if r == [] then
      assert left == [] by {
        assert left[|r|..] == left;
      }
      assert s == s[..|s| - |left|];
      r
    else
      assert r[0] == left[0];
      assert !AllTrimChars(s) by {
        assert s[|s| - |left|] == left[0];
      }
      r
  }

  lemma {:induction false} TrimLeftAfterPrefix(p: string, rest: string)
    requires AllTrimChars(p)
    requires rest == [] || !IsTrimChar(rest[0])
    ensures TrimLeft(p + rest) == rest
  {
    if p == [] {
      assert p + rest == rest;
    } else {
      assert (p + rest)[0] == p[0];
      assert (p + rest)[1..] == p[1..] + rest;
      TrimLeftAfterPrefix(p[1..], rest);
    }
  }

  lemma {:induction false} TrimRightBeforeSuffix(rest: string, q: string)
    requires AllTrimChars(q)
    requires rest == [] || !IsTrimChar(rest[|rest| - 1])
    ensures TrimRight(rest + q) == rest
  {
    if q == [] {
      assert rest + q == rest;
    } else {
      var n := |rest + q|;
      assert (rest + q)[n - 1] == q[|q| - 1];
      assert (rest + q)[..n - 1] == rest + q[..|q| - 1];
      TrimRightBeforeSuffix(rest, q[..|q| - 1]);
    }
  }

  /**
   * trim() characterised independently of how it is computed: whatever the split
   * of s into trim characters, a bare middle and trim characters, trim(s) is that
   * middle.
   */
  lemma {:induction false} TrimIsBareMiddle(p: string, m: string, q: string)
    requires AllTrimChars(p) && AllTrimChars(q)
    requires IsBare(m)
    ensures Trim(p + m + q) == m
  {
    if m == [] {
      assert p + m + q == (p + q) + [];
      assert AllTrimChars(p + q) by {
        forall i | 0 <= i < |p + q| ensures IsTrimChar((p + q)[i]) {
          if i < |p| { assert (p + q)[i] == p[i]; } else { assert (p + q)[i] == q[i - |p|]; }
        }
      }
      TrimLeftAfterPrefix(p + q, []);
    } else {
      assert p + m + q == p + (m + q);
      assert (m + q)[0] == m[0];
      TrimLeftAfterPrefix(p, m + q);
      TrimRightBeforeSuffix(m, q);
    }
  }

  /** trim() is idempotent. */
  lemma TrimIdempotent(s: string)
    ensures Trim(Trim(s)) == Trim(s)
  {
    var t := Trim(s);
    assert [] + t + [] == t;
    TrimIsBareMiddle([], t, []);
  }

  /** A string is its own trim() exactly when it is bare. */
  lemma TrimFixedPoint(s: string)
    ensures Trim(s) == s <==> IsBare(s)
  {
    if IsBare(s) {
      assert [] + s + [] == s;
      TrimIsBareMiddle([], s, []);
    }
  }

  // --------------------------------------------------------------- empty()

  /** empty() on a string: true for "" and for "0", and for nothing else. */
  predicate IsEmpty(s: string) {
    s == "" || s == "0"
  }

  /**
   * empty() on the strings an upstream body may hold: "" and "0" count as empty;
   * "00", "0.0", a blank, "false" and "null" do not.
   */
  lemma EmptyStrings()
    ensures IsEmpty("") && IsEmpty("0")
    ensures !IsEmpty("00") && !IsEmpty("0.0") && !IsEmpty(" ") && !IsEmpty("false") && !IsEmpty("null")
    ensures forall s: string :: IsEmpty(s) ==> |s| <= 1
  {
  }

  // ------------------------------------------------------------ sprintf %d

  predicate IsDigit(c: char) {
    '0' <= c <= '9'
  }

  function DigitChar(d: nat): (c: char)
    requires d < 10
    ensures IsDigit(c) && c as int - '0' as int == d
  {
    (d + '0' as int) as char
  }

  /** The decimal digits of n, most significant first, without leading zeros. */
  function FormatNat(n: nat): (r: string)
    ensures |r| >= 1
    ensures forall i :: 0 <= i < |r| ==> IsDigit(r[i])
    ensures r[0] == '0' ==> n == 0
    decreases n
  {
    if n < 10 then [DigitChar(n)] else FormatNat(n / 10) + [DigitChar(n % 10)]
  }

  /** What %d prints for n: a minus sign for negative numbers, then the digits. */
  function FormatInt(n: int): (r: string)
    ensures |r| >= 1
    ensures forall i :: 0 <= i < |r| ==> IsDigit(r[i]) || r[i] == '-'
    ensures (r[0] == '-') == (n < 0)
    ensures var d := if n < 0 then 1 else 0;
      && d < |r|
      && (forall i :: d <= i < |r| ==> IsDigit(r[i]))
      && (r[d] == '0' ==> n == 0)
  {
    if n < 0 then "-" + FormatNat(-n) else FormatNat(n)
  }

  /** Reads a string of digits back as a number (the inverse of FormatNat). */
  function ParseNat(s: string): nat
    decreases |s|
  {
    if s == [] then 0
    else ParseNat(s[..|s| - 1]) * 10 + (if IsDigit(s[|s| - 1]) then s[|s| - 1] as int - '0' as int else 0)
  }

  function ParseInt(s: string): int {
    if |s| > 0 && s[0] == '-' then -(ParseNat(s[1..]) as int) else ParseNat(s)
  }

  lemma {:induction false} ParseFormatNat(n: nat)
    ensures ParseNat(FormatNat(n)) == n
    decreases n
  {
    if n >= 10 {
      var s := FormatNat(n);
      assert s[..|s| - 1] == FormatNat(n / 10);
      ParseFormatNat(n / 10);
    }
  }

  /** %d loses nothing: the number can be read back from what is printed. */
  lemma ParseFormatInt(n: int)
    ensures ParseInt(FormatInt(n)) == n
  {
    if n < 0 {
      assert ("-" + FormatNat(-n))[1..] == FormatNat(-n);
      ParseFormatNat(-n);
    } else {
      ParseFormatNat(n);
    }
  }

  /** Distinct integers print differently. */
  lemma FormatIntInjective(a: int, b: int)
    ensures FormatInt(a) == FormatInt(b) <==> a == b
  {
    ParseFormatInt(a);
    ParseFormatInt(b);
  }
}
