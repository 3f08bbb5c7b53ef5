/** ASCII string helpers standing in for the Python `str` operations the core uses. */
module Text {

  predicate IsDigit(c: char) { '0' <= c <= '9' }

  predicate AllDigits(s: string) { forall j :: 0 <= j < |s| ==> IsDigit(s[j]) }

  predicate IsAscii(s: string) { forall j :: 0 <= j < |s| ==> s[j] as int < 128 }

  function DigitValue(c: char): (v: nat)
    requires IsDigit(c)
    ensures v < 10
  {
    (c as int) - ('0' as int)
  }

  /** The ASCII digit of a value below ten. */
  function Digit(n: nat): (c: char)
    requires n < 10
    ensures IsDigit(c) && DigitValue(c) == n
  {
    (('0' as int) + n) as char
  }

  /** `int(s)` for a non-empty run of ASCII digits: `|s|` digits give a value below `10^|s|`. */
  function Dec(s: string): (v: nat)
    requires AllDigits(s)
    ensures v < Pow10(|s|)
  {
    if s == [] then 0
    else
      assert AllDigits(s[..|s| - 1]);
      Dec(s[..|s| - 1]) * 10 + DigitValue(s[|s| - 1])
  }

  /** `int()` reads back a zero-padded two-digit rendering. */
  lemma DecTwoDigits(n: nat)
    requires n < 100
    ensures AllDigits([Digit(n / 10), Digit(n % 10)])
    ensures Dec([Digit(n / 10), Digit(n % 10)]) == n
  {
    var s := [Digit(n / 10), Digit(n % 10)];
    assert s[..1] == [Digit(n / 10)] && s[..1][..0] == [];
  }

  function Pow10(n: nat): (p: nat)
    ensures p >= 1
  {
    if n == 0 then 1 else 10 * Pow10(n - 1)
  }

  /** `str.lower()` restricted to ASCII: A-Z map to a-z, every other character is kept. */
  function Lower(s: string): (r: string)
    ensures |r| == |s|
    ensures forall j :: 0 <= j < |s| ==> r[j] == LowerChar(s[j])
  {
    if s == [] then [] else Lower(s[..|s| - 1]) + [LowerChar(s[|s| - 1])]
  }

  function LowerChar(c: char): char {
    if 'A' <= c <= 'Z' then ((c as int) + 32) as char else c
  }

  /** `s.endswith(suffix)`: the last `|suffix|` characters of `s` are those of `suffix`. */
  function EndsWith(s: string, suffix: string): (b: bool)
    ensures b <==> |suffix| <= |s| && forall j :: 0 <= j < |suffix| ==> s[|s| - |suffix| + j] == suffix[j]
  {
    |suffix| <= |s| && s[|s| - |suffix|..] == suffix
  }

  /** `t` occurs in `s` starting at index `i`. */
  predicate OccursAt(s: string, t: string, i: int) {
    0 <= i <= |s| - |t| && s[i..i + |t|] == t
  }

  /**
   * Python's `t in s` for strings: some index of `s` starts an occurrence of `t`. The
   * empty text is in every string; a one- or two-character text is in `s` exactly when
   * those characters appear at some index, in order.
   */
  function Contains(s: string, t: string): (b: bool)
    ensures t == [] ==> b
    ensures |t| > |s| ==> !b
    ensures |t| == 1 ==> (b <==> t[0] in s)
    ensures |t| == 2 ==> (b <==> exists j :: 0 <= j && j + 1 < |s| && s[j] == t[0] && s[j + 1] == t[1])
  {
    if t == [] then
      assert OccursAt(s, t, 0);
      true
    else
      OneCharOccurs(s, t);
      TwoCharOccurs(s, t);
      exists i :: 0 <= i <= |s| && OccursAt(s, t, i)
  }

  lemma OneCharOccurs(s: string, t: string)
    ensures |t| == 1 ==> ((exists i :: 0 <= i <= |s| && OccursAt(s, t, i)) <==> t[0] in s)
  {
    if |t| == 1 && t[0] in s {
      var j :| 0 <= j < |s| && s[j] == t[0];
      assert s[j..j + 1] == t;
      assert OccursAt(s, t, j);
    }
    if |t| == 1 && exists i :: 0 <= i <= |s| && OccursAt(s, t, i) {
      var i :| 0 <= i <= |s| && OccursAt(s, t, i);
      assert s[i] == s[i..i + 1][0];
    }
  }

  lemma TwoCharOccurs(s: string, t: string)
    ensures |t| == 2 ==> ((exists i :: 0 <= i <= |s| && OccursAt(s, t, i))
      <==> exists j :: 0 <= j && j + 1 < |s| && s[j] == t[0] && s[j + 1] == t[1])
  {
    if |t| == 2 && exists j :: 0 <= j && j + 1 < |s| && s[j] == t[0] && s[j + 1] == t[1] {
      var j :| 0 <= j && j + 1 < |s| && s[j] == t[0] && s[j + 1] == t[1];
      assert s[j..j + 2] == t;
      assert OccursAt(s, t, j);
    }
    if |t| == 2 && exists i :: 0 <= i <= |s| && OccursAt(s, t, i) {
      var i :| 0 <= i <= |s| && OccursAt(s, t, i);
      assert s[i] == s[i..i + 2][0] && s[i + 1] == s[i..i + 2][1];
    }
  }

  /**
   * An occurrence of a one- or two-character marker in `p + r` lies inside `p` or inside
   * `r`, unless a two-character marker straddles the seam.
   */
  lemma ContainsAppend(p: string, r: string, t: string)
    requires 1 <= |t| <= 2
    requires |t| == 2 && p != [] ==> p[|p| - 1] != t[0]
    ensures Contains(p + r, t) <==> Contains(p, t) || Contains(r, t)
  {
    if Contains(p + r, t) {
      var i :| OccursAt(p + r, t, i);
      OccurrenceSplits(p, r, t, i);
    }
    if Contains(p, t) {
      var i :| OccursAt(p, t, i);
      OccursInLeft(p, r, t, i);
    }
    if Contains(r, t) {
      var i :| OccursAt(r, t, i);
      OccursInRight(p, r, t, i);
    }
  }

  lemma OccurrenceSplits(p: string, r: string, t: string, i: int)
    requires 1 <= |t| <= 2
    requires |t| == 2 && p != [] ==> p[|p| - 1] != t[0]
    requires OccursAt(p + r, t, i)
    ensures OccursAt(p, t, i) || OccursAt(r, t, i - |p|)
  {
    if i + |t| <= |p| {
      assert p[i..i + |t|] == (p + r)[i..i + |t|];
    } else if i >= |p| {
      assert r[i - |p|..i - |p| + |t|] == (p + r)[i..i + |t|];
    }
  }

  lemma OccursInLeft(p: string, r: string, t: string, i: int)
    requires OccursAt(p, t, i)
    ensures OccursAt(p + r, t, i)
  {
    assert (p + r)[i..i + |t|] == p[i..i + |t|];
  }

  lemma OccursInRight(p: string, r: string, t: string, i: int)
    requires OccursAt(r, t, i)
    ensures OccursAt(p + r, t, |p| + i)
  {
    assert (p + r)[|p| + i..|p| + i + |t|] == r[i..i + |t|];
  }
}
