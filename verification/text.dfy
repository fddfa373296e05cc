/**
 * The handful of Rust `str` operations the workflow core relies on, over
 * strings modelled as sequences of Unicode scalar values:
 * `contains`, `trim`, `split(',')`, `join`, and `i32::from_str`.
 */
module Text {
  import opened Wrappers

  // ---------------------------------------------------------------------
  // Substring search (`str::contains` with a string pattern)
  // ---------------------------------------------------------------------

  /** `p` occurs in `s` starting at position `i`. */
  predicate OccursAt(s: string, p: string, i: int) {
    0 <= i && i + |p| <= |s| && s[i..i + |p|] == p
  }

  /** Left-to-right scan for `p` inside `s`. */
  predicate Contains(s: string, p: string)
    decreases |s|
  {
    if |p| > |s| then false
    else if s[..|p|] == p then true
    else Contains(s[1..], p)
  }

  /** The scan agrees with the positional definition of an occurrence. */
  lemma {:induction false} ContainsIff(s: string, p: string)
    ensures Contains(s, p) <==> exists i :: OccursAt(s, p, i)
    decreases |s|
  {
    if |p| > |s| {
      assert forall i :: !OccursAt(s, p, i);
    } else if s[..|p|] == p {
      assert OccursAt(s, p, 0);
    } else {
      ContainsIff(s[1..], p);
      if Contains(s[1..], p) {
        var i :| OccursAt(s[1..], p, i);
        assert s[1..][i..i + |p|] == s[i + 1..i + 1 + |p|];
        assert OccursAt(s, p, i + 1);
      } else {
        forall i | OccursAt(s, p, i)
          ensures false
        {
          assert i != 0;
          assert s[1..][i - 1..i - 1 + |p|] == s[i..i + |p|];
          assert OccursAt(s[1..], p, i - 1);
        }
      }
    }
  }

  // ---------------------------------------------------------------------
  // Whitespace trimming (`str::trim`)
  // ---------------------------------------------------------------------

  /** The Unicode `White_Space` property, which `str::trim` strips. */
  predicate IsWhitespace(c: char) {
    || c == '\t' || c == '\n' || c == '\U{000B}' || c == '\U{000C}' || c == '\r' || c == ' '
    || c == '\U{0085}' || c == '\U{00A0}' || c == '\U{1680}'
    || ('\U{2000}' <= c <= '\U{200A}')
    || c == '\U{2028}' || c == '\U{2029}' || c == '\U{202F}' || c == '\U{205F}' || c == '\U{3000}'
  }

  predicate AllWhitespace(s: string) {
    forall i :: 0 <= i < |s| ==> IsWhitespace(s[i])
  }

  /** `str::trim_start`: the suffix left after dropping leading whitespace. */
  function TrimStart(s: string): (r: string)
    ensures |r| <= |s| && r == s[|s| - |r|..]
    ensures AllWhitespace(s[..|s| - |r|])
    ensures r != [] ==> !IsWhitespace(r[0])
  {
    if s != [] && IsWhitespace(s[0]) then
      var r := TrimStart(s[1..]);
      assert s[1..][|s| - 1 - |r|..] == s[|s| - |r|..];
      assert forall i :: 1 <= i < |s| - |r| ==> s[i] == s[1..][..|s| - 1 - |r|][i - 1];
      r
    else s
  }

  /** `str::trim_end`: the prefix left after dropping trailing whitespace. */
  function TrimEnd(s: string): (r: string)
    ensures |r| <= |s| && r == s[..|r|]
    ensures AllWhitespace(s[|r|..])
    ensures r != [] ==> !IsWhitespace(r[|r| - 1])
  {
    if s != [] && IsWhitespace(s[|s| - 1]) then
      var r := TrimEnd(s[..|s| - 1]);
      assert s[..|s| - 1][..|r|] == s[..|r|];
      assert forall i :: |r| <= i < |s| - 1 ==> s[i] == s[..|s| - 1][|r|..][i - |r|];
      r
    else s
  }

  /** `str::trim`. */
  function Trim(s: string): (r: string)
    ensures r != [] ==> !IsWhitespace(r[0]) && !IsWhitespace(r[|r| - 1])
  {
    TrimEnd(TrimStart(s))
  }

  /** A string is blank when it trims to nothing: it holds only whitespace. */
  lemma TrimEmptyIff(s: string)
    ensures Trim(s) == [] <==> AllWhitespace(s)
  {
    var t := TrimStart(s);
    if Trim(s) == [] {
      assert s == s[..|s| - |t|] + t;
      assert AllWhitespace(t) by { assert t[0..] == t; }
    } else {
      var r := Trim(s);
      var k := |s| - |t|;
      assert t[0] == s[k] && !IsWhitespace(t[0]);
    }
  }

  /** Whitespace around a word that neither starts nor ends with whitespace is trimmed away exactly. */
  lemma {:induction false} TrimPadded(a: string, w: string, b: string)
    requires AllWhitespace(a) && AllWhitespace(b)
    requires w != [] && !IsWhitespace(w[0]) && !IsWhitespace(w[|w| - 1])
    ensures Trim(a + w + b) == w
  {
    TrimStartPadded(a, w + b);
    assert a + w + b == a + (w + b);
    TrimEndPadded(w, b);
  }

  lemma {:induction false} TrimStartPadded(a: string, t: string)
    requires AllWhitespace(a)
    requires t != [] && !IsWhitespace(t[0])
    ensures TrimStart(a + t) == t
    decreases |a|
  {
    var s := a + t;
    if a == [] {
      assert s == t;
    } else {
      assert s[0] == a[0] && IsWhitespace(s[0]);
      assert s[1..] == a[1..] + t;
      assert AllWhitespace(a[1..]) by {
        forall i | 0 <= i < |a| - 1 ensures IsWhitespace(a[1..][i]) {
          assert a[1..][i] == a[i + 1];
        }
      }
      TrimStartPadded(a[1..], t);
      assert TrimStart(s) == TrimStart(s[1..]);
    }
  }

  lemma {:induction false} TrimEndPadded(t: string, b: string)
    requires AllWhitespace(b)
    requires t != [] && !IsWhitespace(t[|t| - 1])
    ensures TrimEnd(t + b) == t
    decreases |b|
  {
    if b == [] {
      assert t + b == t;
    } else {
      assert (t + b)[..|t + b| - 1] == t + b[..|b| - 1];
      TrimEndPadded(t, b[..|b| - 1]);
    }
  }

  // ---------------------------------------------------------------------
  // Splitting on a separator and joining (`str::split`, `[String]::join`)
  // ---------------------------------------------------------------------

  /** Parts joined back together with `sep` between neighbours. */
  function Join(parts: seq<string>, sep: string): string
  {
    if parts == [] then ""
    else if |parts| == 1 then parts[0]
    else parts[0] + sep + Join(parts[1..], sep)
  }

  /** `str::split(sep)`: always at least one part; `sep` itself never survives in a part. */
  function Split(s: string, sep: char): (parts: seq<string>)
    ensures |parts| >= 1
    ensures forall i :: 0 <= i < |parts| ==> sep !in parts[i]
  {
    if s == [] then [""]
    else
      var rest := Split(s[1..], sep);
      assert s == [s[0]] + s[1..];
      if s[0] == sep then [""] + rest
      else [[s[0]] + rest[0]] + rest[1..]
  }

  /** Joining the parts with the separator gives back the split string. */
  lemma {:induction false} JoinSplit(s: string, sep: char)
    ensures Join(Split(s, sep), [sep]) == s
    decreases |s|
  {
    if s != [] {
      JoinSplit(s[1..], sep);
      var rest := Split(s[1..], sep);
      assert s == [s[0]] + s[1..];
      if s[0] != sep && |rest| > 1 {
        assert Join(rest, [sep]) == rest[0] + [sep] + Join(rest[1..], [sep]);
      }
    }
  }

  /** Splitting undoes joining when no part contains the separator. */
  lemma {:induction false} SplitJoin(parts: seq<string>, sep: char)
    requires |parts| >= 1
    requires forall i :: 0 <= i < |parts| ==> sep !in parts[i]
    ensures Split(Join(parts, [sep]), sep) == parts
    decreases |parts|, |parts[0]|
  {
    if |parts| == 1 {
      SplitNoSep(parts[0], sep);
    } else if parts[0] == [] {
      var tail := parts[1..];
      SplitJoin(tail, sep);
      assert Join(parts, [sep]) == [sep] + Join(tail, [sep]);
      assert ([sep] + Join(tail, [sep]))[1..] == Join(tail, [sep]);
      assert Split(Join(parts, [sep]), sep) == [""] + tail;
    } else {
      var p0 := parts[0];
      var shorter := [p0[1..]] + parts[1..];
      assert sep !in p0[1..];
      assert forall i :: 0 <= i < |shorter| ==> sep !in shorter[i];
      SplitJoin(shorter, sep);
      var j := Join(parts, [sep]);
      assert j == [p0[0]] + Join(shorter, [sep]);
      assert j[1..] == Join(shorter, [sep]);
      assert p0 == [p0[0]] + p0[1..];
    }
  }

  lemma {:induction false} SplitNoSep(s: string, sep: char)
    requires sep !in s
    ensures Split(s, sep) == [s]
    decreases |s|
  {
    if s != [] {
      assert sep !in s[1..];
      SplitNoSep(s[1..], sep);
      assert s == [s[0]] + s[1..];
    }
  }

  // ---------------------------------------------------------------------
  // Decimal integers (`i32::from_str` and the `{}` rendering of an integer)
  // ---------------------------------------------------------------------

  const I32_MIN: int := -0x8000_0000
  const I32_MAX: int := 0x7FFF_FFFF

  predicate IsI32(v: int) {
    I32_MIN <= v <= I32_MAX
  }

  /** One more than the largest `u32`; the width of the 32-bit integer types. */
  const TWO_TO_32: int := 0x1_0000_0000

  /** Two's-complement wrap-around of an integer into the `i32` range. */
  function WrapI32(v: int): (r: int)
    ensures IsI32(r)
    ensures IsI32(v) ==> r == v
    ensures (r - v) % TWO_TO_32 == 0
  {
    (v - I32_MIN) % TWO_TO_32 + I32_MIN
  }

  predicate IsDigit(c: char) {
    '0' <= c <= '9'
  }

  predicate AllDigits(s: string) {
    forall i :: 0 <= i < |s| ==> IsDigit(s[i])
  }

  /** The value of a run of decimal digits, most significant first. */
  function DigitsValue(ds: string): nat
    requires AllDigits(ds)
  {
    if ds == [] then 0
    else DigitsValue(ds[..|ds| - 1]) * 10 + ((ds[|ds| - 1] as int) - ('0' as int))
  }

  /**
   * `i32::from_str`: an optional `+` or `-`, then one or more ASCII digits,
   * with the value inside the 32-bit signed range; anything else is rejected.
   */
  function ParseI32(s: string): (r: Option<int>)
    ensures r.Some? ==> IsI32(r.value)
    ensures r.Some? ==> s != [] && AllDigits(if s[0] == '+' || s[0] == '-' then s[1..] else s)
  {
    if s == [] then None
    else if (s[0] == '+' || s[0] == '-') && |s| == 1 then None
    else
      var negative := s[0] == '-';
      var digits := if s[0] == '+' || s[0] == '-' then s[1..] else s;
      if !AllDigits(digits) then None
      else
        var v: int := if negative then 0 - DigitsValue(digits) as int else DigitsValue(digits);
        if IsI32(v) then Some(v) else None
  }

  function DigitChar(d: nat): char
    requires d < 10
  {
    ('0' as int + d) as char
  }

  /** Decimal rendering of a natural number, without leading zeros. */
  function ShowNat(n: nat): (r: string)
    ensures r != [] && AllDigits(r)
  {
    if n < 10 then [DigitChar(n)] else ShowNat(n / 10) + [DigitChar(n % 10)]
  }

  /** Decimal rendering of an integer, with a leading `-` when negative. */
  function Show(v: int): (r: string)
    ensures r != [] && IsDigit(r[|r| - 1])
  {
    if v < 0 then "-" + ShowNat(-v) else ShowNat(v)
  }

  lemma {:induction false} ShowNatValue(n: nat)
    ensures DigitsValue(ShowNat(n)) == n
  {
    if n >= 10 {
      ShowNatValue(n / 10);
      var r := ShowNat(n);
      assert r[..|r| - 1] == ShowNat(n / 10);
    }
  }

  /** Parsing the decimal rendering of any 32-bit integer gives it back. */
  lemma ParseShow(v: int)
    requires IsI32(v)
    ensures ParseI32(Show(v)) == Some(v)
  {
    var s := Show(v);
    if v < 0 {
      var ds := ShowNat(-v);
      ShowNatValue(-v);
      assert s == "-" + ds;
      assert s[0] == '-' && |s| > 1;
      assert s[1..] == ds;
      assert AllDigits(ds);
    } else {
      var ds := ShowNat(v);
      ShowNatValue(v);
      assert s == ds;
      assert IsDigit(s[0]);
      assert s[0] != '+' && s[0] != '-';
    }
  }
}
