/** Python string operations used by the transforms: `str.startswith`,
    `str.endswith`, the `in` test, `str.replace(p, '')`, `str(int)` and
    `str.zfill`, plus a decimal parser that serves as the inverse of `str(int)`. */
module Text {

  predicate StartsWith(s: string, p: string) {
    |p| <= |s| && s[..|p|] == p
  }

  predicate EndsWith(s: string, p: string) {
    |p| <= |s| && s[|s| - |p|..] == p
  }

  /** `p` occurs in `s` starting at position `i` */
  predicate OccursAt(s: string, p: string, i: int) {
    0 <= i && i + |p| <= |s| && s[i..i + |p|] == p
  }

  /** Python's `p in s`: scan every start position from the left */
  predicate Contains(s: string, p: string)
    decreases |s|
  {
    StartsWith(s, p) || (|s| > 0 && Contains(s[1..], p))
  }

  lemma {:induction false} OccursAtContains(s: string, p: string, i: int)
    requires OccursAt(s, p, i)
    ensures Contains(s, p)
    decreases i
  {
    if i > 0 {
      assert s[1..][i - 1..i - 1 + |p|] == s[i..i + |p|];
      OccursAtContains(s[1..], p, i - 1);
    }
  }

  /** The scan agrees with the plain definition: some position holds `p`. */
  lemma {:induction false} ContainsIff(s: string, p: string)
    ensures Contains(s, p) <==> exists i :: OccursAt(s, p, i)
    decreases |s|
  {
    if exists i :: OccursAt(s, p, i) {
      var i :| OccursAt(s, p, i);
      OccursAtContains(s, p, i);
    }
    if Contains(s, p) {
      if StartsWith(s, p) {
        assert OccursAt(s, p, 0);
      } else {
        ContainsIff(s[1..], p);
        var i :| OccursAt(s[1..], p, i);
        assert s[1..][i..i + |p|] == s[i + 1..i + 1 + |p|];
        assert OccursAt(s, p, i + 1);
      }
    }
  }

  /** A pattern whose first character is absent from `s` does not occur in it. */
  lemma {:induction false} NotContainsFirstChar(s: string, p: string)
    requires |p| > 0 && p[0] !in s
    ensures !Contains(s, p)
    decreases |s|
  {
    if |s| > 0 {
      assert s[0] in s;
      assert s[0] != p[0];
      assert !StartsWith(s, p) by {
        assert |p| <= |s| ==> s[..|p|][0] == s[0];
      }
      forall c | c in s[1..] ensures c in s { }
      NotContainsFirstChar(s[1..], p);
    }
  }

  /** Python's `s.replace(p, '')`: delete every non-overlapping occurrence of
      `p`, scanning from the left. */
  function RemoveAll(s: string, p: string): (r: string)
    requires |p| > 0
    ensures |r| <= |s|
    decreases |s|
  {
    if |s| < |p| then s
    else if s[..|p|] == p then RemoveAll(s[|p|..], p)
    else [s[0]] + RemoveAll(s[1..], p)
  }

  lemma {:induction false} ContainsNeedsRoom(s: string, p: string)
    requires Contains(s, p)
    ensures |p| <= |s|
    decreases |s|
  {
    if !StartsWith(s, p) {
      ContainsNeedsRoom(s[1..], p);
    }
  }

  /** `replace` leaves a string unchanged exactly when the pattern does not occur in it. */
  lemma {:induction false} RemoveAllUnchangedIff(s: string, p: string)
    requires |p| > 0
    ensures RemoveAll(s, p) == s <==> !Contains(s, p)
    decreases |s|
  {
    if |s| < |p| {
      if Contains(s, p) {
        ContainsNeedsRoom(s, p);
      }
    } else if s[..|p|] == p {
      assert StartsWith(s, p);
      assert |RemoveAll(s[|p|..], p)| < |s|;
    } else {
      assert !StartsWith(s, p);
      RemoveAllUnchangedIff(s[1..], p);
      assert s == [s[0]] + s[1..];
      if RemoveAll(s, p) == s {
        assert RemoveAll(s[1..], p) == (s[0..1] + RemoveAll(s[1..], p))[1..];
      }
    }
  }

  /** A pattern whose only space is its first character cannot start inside a
      shorter non-empty name it is appended to. */
  lemma NoEarlyMatch(m: string, p: string)
    requires |p| >= 2 && p[0] == ' ' && ' ' !in p[1..]
    requires 0 < |m| < |p|
    ensures (m + p)[..|p|] != p
  {
    assert (m + p)[|m|] == ' ';
    assert p[1..][|m| - 1] == p[|m|];
  }

  /** A pattern with a space at its start and nowhere else, appended to a
      name in which it does not occur, is removed again and nothing else is:
      no occurrence can start inside the name and run into the pattern. */
  lemma {:induction false} RemoveAllTrailing(m: string, p: string)
    requires |p| >= 2 && p[0] == ' ' && ' ' !in p[1..]
    requires !Contains(m, p)
    ensures RemoveAll(m + p, p) == m
    decreases |m|
  {
    if |m| == 0 {
      assert m + p == p;
      assert RemoveAll(p[|p|..], p) == [];
    } else {
      var s := m + p;
      if |p| <= |m| {
        assert m[..|p|] == s[..|p|];
      } else {
        NoEarlyMatch(m, p);
      }
      assert s[1..] == m[1..] + p;
      RemoveAllTrailing(m[1..], p);
      assert [m[0]] + m[1..] == m;
    }
  }

  predicate IsDigit(c: char) {
    '0' <= c <= '9'
  }

  function DigitChar(d: nat): (c: char)
    requires d < 10
    ensures IsDigit(c) && c as int - '0' as int == d
  {
    (d + '0' as int) as char
  }

  function DigitValue(c: char): nat
    requires IsDigit(c)
  {
    c as int - '0' as int
  }

  /** Python's `str(n)` for a non-negative integer: its decimal digits, most
      significant first, no leading zero. */
  function NatToString(n: nat): (s: string)
    ensures |s| >= 1 && forall i :: 0 <= i < |s| ==> IsDigit(s[i])
    ensures |s| > 1 ==> s[0] != '0'
    ensures n < 10 ==> |s| == 1
    ensures 10 <= n < 100 ==> |s| == 2
    decreases n
  {
    if n < 10 then [DigitChar(n)] else NatToString(n / 10) + [DigitChar(n % 10)]
  }

  /** Python's `str(i)` for any integer. */
  function IntToString(i: int): (s: string)
    ensures i >= 0 ==> s == NatToString(i)
    ensures i < 0 ==> s == "-" + NatToString(-i)
  {
    if i < 0 then "-" + NatToString(-i) else NatToString(i)
  }

  /** Value of a digit string (the empty string reads as 0). */
  function ParseNat(s: string): nat
    requires forall i :: 0 <= i < |s| ==> IsDigit(s[i])
  {
    if s == [] then 0 else ParseNat(s[..|s| - 1]) * 10 + DigitValue(s[|s| - 1])
  }

  /** Reading back the decimal text of `n` gives `n`. */
  lemma {:induction false} ParseNatToString(n: nat)
    ensures ParseNat(NatToString(n)) == n
    decreases n
  {
    var s := NatToString(n);
    if n >= 10 {
      ParseNatToString(n / 10);
      assert s[..|s| - 1] == NatToString(n / 10);
    }
  }

  function Zeros(k: nat): (z: string)
    ensures |z| == k && forall i :: 0 <= i < k ==> z[i] == '0'
  {
    seq(k, _ => '0')
  }

  /** Python's `s.zfill(width)`: left-pad with '0' to `width` characters,
      keeping a leading sign in front of the padding. */
  function ZFill(s: string, width: nat): (r: string)
    ensures |r| == if |s| >= width then |s| else width
  {
    if |s| >= width then s
    else if |s| > 0 && (s[0] == '+' || s[0] == '-') then [s[0]] + Zeros(width - |s|) + s[1..]
    else Zeros(width - |s|) + s
  }

  /** Leading zeros do not change the value of a digit string. */
  lemma {:induction false} ParseNatLeadingZeros(k: nat, s: string)
    requires forall i :: 0 <= i < |s| ==> IsDigit(s[i])
    ensures forall i :: 0 <= i < |Zeros(k) + s| ==> IsDigit((Zeros(k) + s)[i])
    ensures ParseNat(Zeros(k) + s) == ParseNat(s)
    decreases |s| + k
  {
    var t := Zeros(k) + s;
    if s == [] {
      assert t == Zeros(k);
      if k > 0 {
        assert t[..|t| - 1] == Zeros(k - 1) + [];
        ParseNatLeadingZeros(k - 1, []);
      }
    } else {
      assert t[..|t| - 1] == Zeros(k) + s[..|s| - 1];
      ParseNatLeadingZeros(k, s[..|s| - 1]);
    }
  }

  /** Zero-padding a digit string keeps it a digit string with the same value,
      ending in the original. */
  lemma ZFillDigits(s: string, width: nat)
    requires |s| >= 1 && forall i :: 0 <= i < |s| ==> IsDigit(s[i])
    ensures forall i :: 0 <= i < |ZFill(s, width)| ==> IsDigit(ZFill(s, width)[i])
    ensures ParseNat(ZFill(s, width)) == ParseNat(s)
    ensures EndsWith(ZFill(s, width), s)
  {
    if |s| < width {
      assert !(s[0] == '+' || s[0] == '-') by { assert IsDigit(s[0]); }
      assert ZFill(s, width) == Zeros(width - |s|) + s;
      ParseNatLeadingZeros(width - |s|, s);
    }
  }

  /** Zero-padding the decimal text of `n` keeps its value and its digits at the end. */
  lemma ZFillNat(n: nat, width: nat)
    ensures forall i :: 0 <= i < |ZFill(NatToString(n), width)| ==> IsDigit(ZFill(NatToString(n), width)[i])
    ensures ParseNat(ZFill(NatToString(n), width)) == n
    ensures EndsWith(ZFill(NatToString(n), width), NatToString(n))
  {
    ParseNatToString(n);
    ZFillDigits(NatToString(n), width);
  }

  /** Index of the first occurrence of `c` in `s` (|s| when absent). */
  function FindChar(s: string, c: char): (k: nat)
    ensures k <= |s| && c !in s[..k]
    ensures k < |s| ==> s[k] == c
  {
    if s == [] then 0
    else if s[0] == c then 0
    else 1 + FindChar(s[1..], c)
  }

  lemma {:induction false} FindCharAfter(a: string, c: char, b: string)
    requires c !in a
    ensures FindChar(a + [c] + b, c) == |a|
    decreases |a|
  {
    if a != [] {
      assert (a + [c] + b)[1..] == a[1..] + [c] + b;
      assert a[0] in a;
      forall x | x in a[1..] ensures x in a { }
      FindCharAfter(a[1..], c, b);
    }
  }
}
