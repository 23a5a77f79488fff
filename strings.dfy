/** The string primitives the services rely on, restricted to ASCII:
    `String.prototype.trim` as the validators' `trim` sanitizer uses it,
    lower-casing as PostgreSQL's ILIKE applies it, substring search for the
    `%q%` pattern, and the decimal conversions `String(n)` and `Number(s)`. */
module Strings {
  import opened Common

  /** The ASCII characters that JavaScript's `\s` class contains. */
  predicate IsSpace(c: char) {
    c == ' ' || c == '\t' || c == '\n' || c == '\r' || c == '\U{000B}' || c == '\U{000C}'
  }

  predicate AllSpace(s: string) {
    forall i :: 0 <= i < |s| ==> IsSpace(s[i])
  }

  predicate IsDigit(c: char) { '0' <= c <= '9' }

  /** The leading whitespace removed: what is left is a suffix of `s` that
      starts with a non-space character, and what was dropped is all space. */
  function TrimStart(s: string): (r: string)
    ensures |r| <= |s| && r == s[|s| - |r|..]
    ensures forall i :: 0 <= i < |s| - |r| ==> IsSpace(s[i])
    ensures r != [] ==> !IsSpace(r[0])
    decreases |s|
  {
    if s != [] && IsSpace(s[0]) then TrimStart(s[1..]) else s
  }

  /** The trailing whitespace removed: a prefix of `s` that ends with a
      non-space character, followed in `s` only by space. */
  function TrimEnd(s: string): (r: string)
    ensures |r| <= |s| && r == s[..|r|]
    ensures forall i :: |r| <= i < |s| ==> IsSpace(s[i])
    ensures r != [] ==> !IsSpace(r[|r| - 1])
    decreases |s|
  {
    if s != [] && IsSpace(s[|s| - 1]) then TrimEnd(s[..|s| - 1]) else s
  }

  function Trim(s: string): string {
    TrimEnd(TrimStart(s))
  }

  /** `Trim(s)` is the window `s[lo..hi]` between the leading and the
      trailing whitespace; the window starts and ends with a non-space. */
  lemma TrimWindow(s: string) returns (lo: nat, hi: nat)
    ensures lo <= hi <= |s| && Trim(s) == s[lo..hi]
    ensures forall i :: 0 <= i < lo ==> IsSpace(s[i])
    ensures forall i :: hi <= i < |s| ==> IsSpace(s[i])
    ensures lo < hi ==> !IsSpace(s[lo]) && !IsSpace(s[hi - 1])
  {
    var t := TrimStart(s);
    lo := |s| - |t|;
    assert t == s[lo..];
    var r := TrimEnd(t);
    hi := lo + |r|;
    assert r == t[..|r|];
    assert r == s[lo..hi];
    forall i | hi <= i < |s| ensures IsSpace(s[i]) {
      assert s[i] == t[i - lo];
    }
    if lo < hi {
      assert s[lo] == r[0];
      assert s[hi - 1] == r[|r| - 1];
    }
  }

  /** A character strictly between two non-space characters survives trimming. */
  lemma TrimKeepsInterior(s: string, j: nat, i: nat, k: nat)
    requires j <= i <= k < |s| && !IsSpace(s[j]) && !IsSpace(s[k])
    ensures s[i] in Trim(s)
  {
    var lo, hi := TrimWindow(s);
    assert lo <= j;
    assert k < hi;
    assert Trim(s)[i - lo] == s[i];
  }

  lemma TrimStartSkips(a: string, t: string)
    requires AllSpace(a) && (t == [] || !IsSpace(t[0]))
    ensures TrimStart(a + t) == t
    decreases |a|
  {
    if a == [] {
      assert a + t == t;
    } else {
      assert (a + t)[1..] == a[1..] + t;
      TrimStartSkips(a[1..], t);
    }
  }

  lemma {:induction false} TrimEndSkips(t: string, b: string)
    requires AllSpace(b) && (t == [] || !IsSpace(t[|t| - 1]))
    ensures TrimEnd(t + b) == t
    decreases |b|
  {
    var u := t + b;
    if b == [] {
      assert u == t;
    } else {
      var b' := b[..|b| - 1];
      assert u[|u| - 1] == b[|b| - 1];
      assert IsSpace(u[|u| - 1]);
      assert u[..|u| - 1] == t + b';
      assert TrimEnd(u) == TrimEnd(t + b');
      TrimEndSkips(t, b');
    }
  }

  /** Surrounding whitespace is exactly what trimming removes. */
  lemma {:induction false} TrimPadded(a: string, p: string, b: string)
    requires AllSpace(a) && AllSpace(b)
    requires p == [] || (!IsSpace(p[0]) && !IsSpace(p[|p| - 1]))
    ensures Trim(a + p + b) == p
  {
    assert a + p + b == a + (p + b);
    if p == [] {
      assert AllSpace(a + p + b) by {
        forall i | 0 <= i < |a + p + b| ensures IsSpace((a + p + b)[i]) {
          if i < |a| { assert (a + p + b)[i] == a[i]; } else { assert (a + p + b)[i] == b[i - |a|]; }
        }
      }
      TrimStartAllSpace(a + p + b);
    } else {
      TrimStartSkips(a, p + b);
      TrimEndSkips(p, b);
    }
  }

  lemma TrimStartAllSpace(s: string)
    requires AllSpace(s)
    ensures TrimStart(s) == []
    decreases |s|
  {
    if s != [] {
      TrimStartAllSpace(s[1..]);
    }
  }

  /** Trimming twice is trimming once. */
  lemma TrimIdempotent(s: string)
    ensures Trim(Trim(s)) == Trim(s)
  {
    var t := Trim(s);
    TrimPadded([], t, []);
    assert [] + t + [] == t;
  }

  /** ASCII lower-casing, the folding ILIKE applies to both operands. */
  function LowerChar(c: char): (d: char)
    ensures 'A' <= c <= 'Z' ==> d as int == c as int + 32
    ensures !('A' <= c <= 'Z') ==> d == c
  {
    if 'A' <= c <= 'Z' then (c as int + 32) as char else c
  }

  function Lower(s: string): (r: string)
    ensures |r| == |s| && forall i :: 0 <= i < |s| ==> r[i] == LowerChar(s[i])
  {
    seq(|s|, i requires 0 <= i < |s| => LowerChar(s[i]))
  }

  /** `p` occurs in `s` as a contiguous substring (the pattern `%p%`). */
  function Contains(s: string, p: string): (r: bool)
    ensures r <==> exists i :: 0 <= i <= |s| && p <= s[i..]
    decreases |s|
  {
    if p <= s then
      assert p <= s[0..];
      true
    else if s == [] then
      false
    else
      var r := Contains(s[1..], p);
      assert forall i :: 1 <= i <= |s| ==> s[i..] == s[1..][i - 1..];
      assert r ==> exists i :: 1 <= i <= |s| && p <= s[i..];
      r
  }

  function DigitChar(d: nat): (c: char)
    requires d < 10
    ensures IsDigit(c)
  {
    (48 + d) as char
  }

  function DigitValue(c: char): (d: nat)
    requires IsDigit(c)
    ensures d < 10
  {
    c as int - 48
  }

  /** `String(n)` for a non-negative integer: its decimal digits. */
  function NatToString(n: nat): (s: string)
    ensures s != [] && forall i :: 0 <= i < |s| ==> IsDigit(s[i])
    decreases n
  {
    if n < 10 then [DigitChar(n)] else NatToString(n / 10) + [DigitChar(n % 10)]
  }

  /** The value of a string of decimal digits; the empty string is 0, as in
      JavaScript; any other character makes it not a number. */
  function ParseDigits(s: string): Option<nat>
    decreases |s|
  {
    if s == [] then Some(0)
    else if !IsDigit(s[|s| - 1]) then None
    else match ParseDigits(s[..|s| - 1])
      case None => None
      case Some(v) => Some(10 * v + DigitValue(s[|s| - 1]))
  }

  /** `Number(s)` on strings of decimal digits surrounded by optional
      whitespace; `None` stands for NaN. */
  function NumberOf(s: string): Option<nat> {
    ParseDigits(Trim(s))
  }

  lemma {:induction false} ParseNatToString(n: nat)
    ensures ParseDigits(NatToString(n)) == Some(n)
    decreases n
  {
    var s := NatToString(n);
    if n < 10 {
      assert s[..|s| - 1] == [];
      assert DigitValue(DigitChar(n)) == n;
    } else {
      assert s[..|s| - 1] == NatToString(n / 10);
      ParseNatToString(n / 10);
      assert DigitValue(DigitChar(n % 10)) == n % 10;
    }
  }

  /** `Number(String(n)) == n`: the decimal conversions are inverse. */
  lemma {:induction false} NumberOfNatToString(n: nat)
    ensures NumberOf(NatToString(n)) == Some(n)
  {
    var s := NatToString(n);
    TrimPadded([], s, []);
    assert [] + s + [] == s;
    ParseNatToString(n);
  }

  /** Distinct numbers have distinct decimal spellings. */
  lemma NatToStringInjective(m: nat, n: nat)
    requires NatToString(m) == NatToString(n)
    ensures m == n
  {
    ParseNatToString(m);
    ParseNatToString(n);
  }
}
