/** String operations the renderer relies on: Python's `str * n`, `"".join`,
    `sep.join`, the `%d` and `%Nd` conversions, and the digit count of a number. */
module Text {

  /** `[c] * n` as a string: `n` copies of `c`, and nothing when `n <= 0`. */
  function Repeat(c: char, n: int): (r: string)
    ensures |r| == if n > 0 then n else 0
    ensures forall i :: 0 <= i < |r| ==> r[i] == c
    decreases if n > 0 then n else 0
  {
    if n <= 0 then [] else [c] + Repeat(c, n - 1)
  }

  /** A repetition of `c` holds no other character. */
  lemma RepeatExcludes(c: char, n: int, x: char)
    requires x != c
    ensures x !in Repeat(c, n)
  {
  }

  /** `c * a + c * b == c * (a + b)` when `a` is positive (a negative `b`
      counts as zero). */
  lemma {:induction false} RepeatAdd(c: char, a: int, b: int)
    requires a > 0
    ensures Repeat(c, a) + Repeat(c, b) == Repeat(c, a + (if b > 0 then b else 0))
  {
    if a > 1 {
      RepeatAdd(c, a - 1, b);
      assert [c] + Repeat(c, a - 1) + Repeat(c, b) == [c] + (Repeat(c, a - 1) + Repeat(c, b));
    }
  }

  /** `"".join(parts)`. */
  function Concat(parts: seq<string>): string
  {
    if parts == [] then [] else parts[0] + Concat(parts[1..])
  }

  lemma {:induction false} ConcatAppend(a: seq<string>, b: seq<string>)
    ensures Concat(a + b) == Concat(a) + Concat(b)
  {
    if a == [] {
      assert a + b == b;
    } else {
      assert (a + b)[1..] == a[1..] + b;
      ConcatAppend(a[1..], b);
    }
  }

  /** A character found in no part is not in `"".join(parts)`. */
  lemma {:induction false} ConcatExcludes(parts: seq<string>, c: char)
    requires forall i :: 0 <= i < |parts| ==> c !in parts[i]
    ensures c !in Concat(parts)
  {
    if parts != [] {
      ConcatExcludes(parts[1..], c);
    }
  }

  /** `parts.append(p)` adds `p` at the end of the join. */
  lemma ConcatSnoc(parts: seq<string>, p: string)
    ensures Concat(parts + [p]) == Concat(parts) + p
  {
    ConcatAppend(parts, [p]);
    assert Concat([p]) == p + Concat([]);
  }

  lemma ConcatPair(a: string, b: string)
    ensures Concat([a, b]) == a + b
  {
    ConcatSnoc([], a);
    ConcatSnoc([a], b);
    assert [a] + [b] == [a, b];
  }

  /** `sep.join(parts)`. */
  function Join(sep: string, parts: seq<string>): string
  {
    if |parts| == 0 then []
    else if |parts| == 1 then parts[0]
    else parts[0] + sep + Join(sep, parts[1..])
  }

  /** Appending one more part adds the separator and the part at the end. */
  lemma {:induction false} JoinSnoc(sep: string, parts: seq<string>, p: string)
    requires parts != []
    ensures Join(sep, parts + [p]) == Join(sep, parts) + sep + p
  {
    if |parts| == 1 {
      assert parts + [p] == [parts[0], p];
    } else {
      assert (parts + [p])[1..] == parts[1..] + [p];
      JoinSnoc(sep, parts[1..], p);
    }
  }

  /** A character found in neither the separator nor any part is not in the join. */
  lemma {:induction false} JoinExcludes(sep: string, parts: seq<string>, c: char)
    requires c !in sep
    requires forall i :: 0 <= i < |parts| ==> c !in parts[i]
    ensures c !in Join(sep, parts)
  {
    if |parts| > 1 {
      JoinExcludes(sep, parts[1..], c);
    }
  }

  /** `t` occurs in `s` starting at position `k`. */
  predicate OccursAt(t: string, s: string, k: int)
  {
    0 <= k && k + |t| <= |s| && s[k..k + |t|] == t
  }

  /** `t in s` for Python strings: `t` is a substring of `s`. */
  predicate Infix(t: string, s: string)
  {
    exists k | 0 <= k <= |s| - |t| :: OccursAt(t, s, k)
  }

  lemma InfixOfConcat(a: string, t: string, b: string)
    ensures Infix(t, a + t + b)
  {
    assert (a + t + b)[|a|..|a| + |t|] == t;
    assert OccursAt(t, a + t + b, |a|);
  }

  /** A substring of a substring is a substring. */
  lemma InfixTransitive(t: string, u: string, s: string)
    requires Infix(t, u) && Infix(u, s)
    ensures Infix(t, s)
  {
    var i :| 0 <= i <= |u| - |t| && OccursAt(t, u, i);
    var j :| 0 <= j <= |s| - |u| && OccursAt(u, s, j);
    assert forall m | 0 <= m < |t| :: s[j + i + m] == u[i + m] == t[m];
    assert OccursAt(t, s, j + i);
  }

  /** Substrings survive being surrounded by more text. */
  lemma InfixWiden(t: string, a: string, u: string, b: string)
    requires Infix(t, u)
    ensures Infix(t, a + u + b)
  {
    InfixOfConcat(a, u, b);
    InfixTransitive(t, u, a + u + b);
  }

  // ----- Decimal numbers -----

  predicate IsDigit(c: char)
  {
    '0' <= c <= '9'
  }

  function DigitChar(d: nat): (c: char)
    requires d < 10
    ensures IsDigit(c)
  {
    ('0' as int + d) as char
  }

  function DigitValue(c: char): (d: nat)
    requires IsDigit(c)
    ensures d < 10 && DigitChar(d) == c
  {
    c as int - '0' as int
  }

  /** The number of decimal digits of `n` (one for zero), the value Python computes
      as `int(math.log10(n)) + 1` for `n >= 1`. */
  function NumDigits(n: nat): (d: nat)
    ensures d >= 1
  {
    if n < 10 then 1 else 1 + NumDigits(n / 10)
  }

  function Pow10(k: nat): (p: nat)
    ensures p >= 1
  {
    if k == 0 then 1 else 10 * Pow10(k - 1)
  }

  /** `NumDigits(n) - 1` is the integer part of the base-10 logarithm of `n`:
      `10^(d-1) <= n < 10^d`. */
  lemma {:induction false} NumDigitsBounds(n: nat)
    requires n >= 1
    ensures Pow10(NumDigits(n) - 1) <= n < Pow10(NumDigits(n))
  {
    if n >= 10 {
      NumDigitsBounds(n / 10);
    }
  }

  /** A larger number never has fewer digits. */
  lemma {:induction false} NumDigitsMonotone(a: nat, b: nat)
    requires a <= b
    ensures NumDigits(a) <= NumDigits(b)
  {
    if a >= 10 {
      NumDigitsMonotone(a / 10, b / 10);
    }
  }

  /** `"%d" % n` for `n >= 0`: the digits of `n`, most significant first, without
      leading zeros. */
  function NatToDecimal(n: nat): (r: string)
    ensures |r| == NumDigits(n)
    ensures forall i :: 0 <= i < |r| ==> IsDigit(r[i])
    ensures n > 0 ==> r[0] != '0'
  {
    if n < 10 then [DigitChar(n)] else NatToDecimal(n / 10) + [DigitChar(n % 10)]
  }

  /** The value of a string of decimal digits (the inverse of `NatToDecimal`). */
  function DecimalValue(s: string): nat
    requires forall i :: 0 <= i < |s| ==> IsDigit(s[i])
  {
    if s == [] then 0 else 10 * DecimalValue(s[..|s| - 1]) + DigitValue(s[|s| - 1])
  }

  lemma {:induction false} DecimalRoundTrip(n: nat)
    ensures DecimalValue(NatToDecimal(n)) == n
  {
    var r := NatToDecimal(n);
    if n >= 10 {
      assert r[..|r| - 1] == NatToDecimal(n / 10);
      DecimalRoundTrip(n / 10);
    }
  }

  /** `"%d" % n`: a minus sign before the digits of a negative number. */
  function IntToDecimal(n: int): (r: string)
    ensures |r| >= 1
    ensures '\n' !in r
    ensures n >= 0 ==> r == NatToDecimal(n)
    ensures n < 0 ==> r == "-" + NatToDecimal(-n)
  {
    if n < 0 then "-" + NatToDecimal(-n) else NatToDecimal(n)
  }

  /** `"%{w}s" % s`: `s` right-aligned in a field of `w` characters, never cut. */
  function LeftPad(s: string, w: int): (r: string)
    ensures |r| == if w > |s| then w else |s|
    ensures r[|r| - |s|..] == s
    ensures forall i :: 0 <= i < |r| - |s| ==> r[i] == ' '
  {
    Repeat(' ', w - |s|) + s
  }
}
