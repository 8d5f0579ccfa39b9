/**
  ASCII stand-ins for the JavaScript string operations the planner relies on:
  `toLowerCase`, `includes`, `trim` used as a truth value, `Number#toString`
  and `padStart(2, '0')`, plus the splitting and decimal parsing used to read
  the formatted strings back.
 */
module Text {
  import opened Wrappers

  predicate IsUpper(c: char) { 'A' <= c <= 'Z' }

  /** `toLowerCase` on a single character (ASCII letters only). */
  function LowerChar(c: char): (r: char)
    ensures !IsUpper(r)
    ensures IsUpper(c) ==> r != c && r as int == c as int + 32
    ensures !IsUpper(c) ==> r == c
  {
    if IsUpper(c) then (c as int + 32) as char else c
  }

  /** `s.toLowerCase()`, character by character. */
  function ToLower(s: string): (r: string)
    ensures |r| == |s|
    ensures forall i :: 0 <= i < |r| ==> r[i] == LowerChar(s[i])
  {
    seq(|s|, i requires 0 <= i < |s| => LowerChar(s[i]))
  }

  /** Lower-casing a second time changes nothing. */
  lemma ToLowerIdempotent(s: string)
    ensures ToLower(ToLower(s)) == ToLower(s)
  {
    var once := ToLower(s);
    assert forall i :: 0 <= i < |once| ==> LowerChar(once[i]) == once[i];
  }

  /** Lower-casing leaves a text without capitals as it is. */
  lemma LowerWithoutCapitals(s: string)
    requires forall i | 0 <= i < |s| :: !IsUpper(s[i])
    ensures ToLower(s) == s
  {
  }

  predicate IsPrefix(p: string, s: string) { |p| <= |s| && s[..|p|] == p }

  /** `sub` occurs in `s` starting at position `i`. */
  predicate OccursAt(s: string, sub: string, i: int)
  {
    0 <= i && i + |sub| <= |s| && s[i..i + |sub|] == sub
  }

  /** `s.includes(sub)`: `sub` occurs somewhere in `s`. */
  predicate Contains(s: string, sub: string)
  {
    exists i | 0 <= i <= |s| - |sub| :: OccursAt(s, sub, i)
  }

  /**
   * A left-to-right search (some suffix of `s` starts with `sub`), kept as
   * the reference definition that `Contains` is checked against in
   * `ScanIffContains`; the rest of the model uses `Contains`.
   */
  predicate Scan(s: string, sub: string)
    decreases |s|
  {
    IsPrefix(sub, s) || (|s| > 0 && Scan(s[1..], sub))
  }

  /** The search finds `sub` exactly when it occurs somewhere. */
  lemma {:induction false} ScanIffContains(s: string, sub: string)
    ensures Scan(s, sub) <==> Contains(s, sub)
    decreases |s|
  {
    if IsPrefix(sub, s) {
      assert OccursAt(s, sub, 0);
    } else if |s| > 0 {
      ScanIffContains(s[1..], sub);
      if Scan(s[1..], sub) {
        var i :| 0 <= i <= |s[1..]| - |sub| && OccursAt(s[1..], sub, i);
        assert s[1..][i..i + |sub|] == s[i + 1..i + 1 + |sub|];
        assert OccursAt(s, sub, i + 1);
      }
      if Contains(s, sub) {
        var i :| 0 <= i <= |s| - |sub| && OccursAt(s, sub, i);
        assert i != 0;
        assert s[1..][i - 1..i - 1 + |sub|] == s[i..i + |sub|];
        assert OccursAt(s[1..], sub, i - 1);
      }
    }
  }

  /** A string embedded in a longer one is found by `includes`. */
  lemma ContainsMiddle(a: string, sub: string, b: string)
    ensures Contains(a + sub + b, sub)
  {
    assert OccursAt(a + sub + b, sub, |a|);
  }

  /** The characters that `String.prototype.trim` strips (their ASCII members). */
  predicate IsBlank(c: char) { c == ' ' || c == '\t' || c == '\n' || c == '\r' || c == '\U{000C}' || c == '\U{000B}' }

  /** `s.trim()` is truthy: something other than white space is left. */
  predicate HasContent(s: string) { exists i :: 0 <= i < |s| && !IsBlank(s[i]) }

  predicate IsDigit(c: char) { '0' <= c <= '9' }

  predicate AllDigits(s: string) { forall i :: 0 <= i < |s| ==> IsDigit(s[i]) }

  function DigitChar(d: nat): (c: char)
    requires d < 10
    ensures IsDigit(c) && c as int - '0' as int == d
  {
    ('0' as int + d) as char
  }

  /** `n.toString()` for a non-negative integer: its decimal digits, most significant first. */
  function NatToString(n: nat): (r: string)
    ensures |r| >= 1 && AllDigits(r)
    ensures n < 10 <==> |r| == 1
    ensures r[0] == '0' <==> n == 0
    ensures Numeral(r)
    decreases n
  {
    if n < 10 then [DigitChar(n)] else NatToString(n / 10) + [DigitChar(n % 10)]
  }

  /** `i.toString()` for any integer: a minus sign before the digits of a negative value. */
  function IntToString(i: int): (r: string)
    ensures |r| >= 1
    ensures ':' !in r && ' ' !in r
    ensures IntNumeral(r)
  {
    if i < 0 then
      var digits := NatToString(-i);
      assert ("-" + digits)[1..] == digits;
      "-" + digits
    else NatToString(i)
  }

  /** A numeral as `toString` writes a natural number: digits, with a leading zero only in "0" itself. */
  predicate Numeral(f: string)
  {
    f != [] && AllDigits(f) && (|f| == 1 || f[0] != '0')
  }

  /** A numeral as `padStart(2, '0')` leaves it: at least two digits, with a leading zero only to make up two. */
  predicate PaddedNumeral(f: string)
  {
    |f| >= 2 && AllDigits(f) && (|f| == 2 || f[0] != '0')
  }

  /** A numeral as `toString` writes an integer: a minus sign only before a numeral that is not "0". */
  predicate IntNumeral(f: string)
  {
    if |f| > 0 && f[0] == '-' then Numeral(f[1..]) && f[1] != '0' else Numeral(f)
  }

  /** The value of a string of decimal digits. */
  function DigitsValue(s: string): nat
    requires AllDigits(s)
    decreases |s|
  {
    if s == [] then 0 else DigitsValue(s[..|s| - 1]) * 10 + (s[|s| - 1] as int - '0' as int)
  }

  /** A non-empty string of decimal digits read as a number; anything else is rejected. */
  function ParseNat(s: string): (r: Option<nat>)
    ensures r.Some? <==> s != [] && AllDigits(s)
  {
    if s != [] && AllDigits(s) then Some(DigitsValue(s)) else None
  }

  /** An optional minus sign followed by digits, read as an integer. */
  function ParseInt(s: string): Option<int>
  {
    if |s| > 0 && s[0] == '-' then
      match ParseNat(s[1..])
      case Some(n) => var v: int := -(n as int); Some(v)
      case None => None
    else
      match ParseNat(s)
      case Some(n) => Some(n)
      case None => None
  }

  lemma {:induction false} DigitsValueOfNatToString(n: nat)
    ensures DigitsValue(NatToString(n)) == n
    decreases n
  {
    if n >= 10 {
      var s := NatToString(n);
      DigitsValueOfNatToString(n / 10);
      assert s[..|s| - 1] == NatToString(n / 10);
    }
  }

  /** Rendering a natural number and parsing it back gives the number. */
  lemma ParseNatToString(n: nat)
    ensures ParseNat(NatToString(n)) == Some(n)
  {
    DigitsValueOfNatToString(n);
  }

  /** Rendering an integer and parsing it back gives the integer. */
  lemma ParseIntToString(i: int)
    ensures ParseInt(IntToString(i)) == Some(i)
  {
    var s := IntToString(i);
    if i < 0 {
      var digits := NatToString(-i);
      ParseNatToString(-i);
      assert s == "-" + digits;
      assert s[0] == '-' && s[1..] == digits;
    } else {
      ParseNatToString(i);
      assert s == NatToString(i) && s[0] != '-';
    }
  }


  /** A digit string that does not start with '0' has a positive value. */
  lemma {:induction false} DigitsValuePositive(s: string)
    requires s != [] && AllDigits(s) && s[0] != '0'
    ensures DigitsValue(s) > 0
    decreases |s|
  {
    if |s| > 1 {
      DigitsValuePositive(s[..|s| - 1]);
    } else {
      assert s[..0] == [];
    }
  }

  /** A numeral is the text `toString` gives for its value, so no other text reads as that value. */
  lemma {:induction false} NumeralIsNatToString(f: string)
    requires Numeral(f)
    ensures f == NatToString(DigitsValue(f))
    decreases |f|
  {
    var n := DigitsValue(f);
    var d := f[|f| - 1] as int - '0' as int;
    var p := f[..|f| - 1];
    assert n == DigitsValue(p) * 10 + d;
    if |f| == 1 {
      assert p == [];
      assert NatToString(n) == [DigitChar(d)];
    } else {
      DigitsValuePositive(p);
      NumeralIsNatToString(p);
      assert n / 10 == DigitsValue(p) && n % 10 == d;
      assert f == p + [f[|f| - 1]];
    }
  }

  /** A padded numeral is the padded `toString` of its value. */
  lemma PaddedNumeralIsPadTwo(f: string)
    requires PaddedNumeral(f)
    ensures f == PadTwo(NatToString(DigitsValue(f)))
  {
    if f[0] == '0' {
      var t := f[1..];
      assert f == "0" + t;
      DigitsValueLeadingZero(t);
      NumeralIsNatToString(t);
      assert Repeat('0', 1) == "0";
    } else {
      NumeralIsNatToString(f);
    }
  }

  /** A signed numeral is the `toString` of the integer it reads as. */
  lemma IntNumeralIsIntToString(f: string)
    requires IntNumeral(f)
    ensures ParseInt(f).Some? && f == IntToString(ParseInt(f).value)
  {
    if |f| > 0 && f[0] == '-' {
      NumeralIsNatToString(f[1..]);
      DigitsValuePositive(f[1..]);
      assert f == "-" + f[1..];
    } else {
      NumeralIsNatToString(f);
    }
  }

  /** Leading zeros do not change the value of a digit string. */
  lemma {:induction false} DigitsValueLeadingZero(s: string)
    requires AllDigits(s)
    ensures AllDigits("0" + s) && DigitsValue("0" + s) == DigitsValue(s)
    decreases |s|
  {
    if s != [] {
      var t := "0" + s;
      assert t[..|t| - 1] == "0" + s[..|s| - 1];
      DigitsValueLeadingZero(s[..|s| - 1]);
    }
  }

  function Repeat(c: char, n: nat): (r: string)
    ensures |r| == n && forall i :: 0 <= i < n ==> r[i] == c
  {
    if n == 0 then [] else [c] + Repeat(c, n - 1)
  }

  /** `s.padStart(2, '0')`: zeros in front until the string is two characters long. */
  function PadTwo(s: string): (r: string)
    ensures |r| == if |s| < 2 then 2 else |s|
    ensures r[|r| - |s|..] == s
    ensures forall i :: 0 <= i < |r| - |s| ==> r[i] == '0'
  {
    if |s| < 2 then Repeat('0', 2 - |s|) + s else s
  }

  /** A padded number reads back as the number. */
  lemma ParsePadTwo(n: nat)
    ensures ParseNat(PadTwo(NatToString(n))) == Some(n)
    ensures ':' !in PadTwo(NatToString(n)) && ' ' !in PadTwo(NatToString(n))
    ensures PaddedNumeral(PadTwo(NatToString(n)))
  {
    var s := NatToString(n);
    DigitsValueOfNatToString(n);
    if |s| < 2 {
      assert PadTwo(s) == "0" + s;
      DigitsValueLeadingZero(s);
    }
    assert AllDigits(PadTwo(s));
  }

  /** Cuts `s` at the first `sep`: the text before it and the text after it. */
  function Split(s: string, sep: char): (r: Option<(string, string)>)
    ensures r.Some? ==> s == r.value.0 + [sep] + r.value.1 && sep !in r.value.0
    ensures r.None? ==> sep !in s
  {
    if s == [] then None
    else if s[0] == sep then Some(([], s[1..]))
    else
      match Split(s[1..], sep)
      case None => None
      case Some(parts) => Some(([s[0]] + parts.0, parts.1))
  }

  /** Splitting at a separator that the first part does not contain recovers both parts. */
  lemma {:induction false} SplitJoin(a: string, sep: char, b: string)
    requires sep !in a
    ensures Split(a + [sep] + b, sep) == Some((a, b))
    decreases |a|
  {
    if a != [] {
      assert (a + [sep] + b)[1..] == a[1..] + [sep] + b;
      SplitJoin(a[1..], sep, b);
      assert [a[0]] + a[1..] == a;
    } else {
      assert a + [sep] + b == [sep] + b;
    }
  }
}
