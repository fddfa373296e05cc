/**
 * `truncate` from `src/models/common.rs`, which shortens a string for table
 * display. Rust measures a `str` in UTF-8 bytes and slices it by byte
 * offset, panicking when the offset falls inside a character; the model
 * keeps strings as characters and computes their UTF-8 lengths.
 */
module Common {
  import opened Wrappers

  /** Bytes UTF-8 needs for one Unicode scalar value. */
  function Utf8Width(c: char): (w: nat)
    ensures 1 <= w <= 4
    ensures w == 1 <==> c as int < 0x80
  {
    if c as int < 0x80 then 1
    else if c as int < 0x800 then 2
    else if c as int < 0x10000 then 3
    else 4
  }

  /** `str::len`: the UTF-8 length in bytes. */
  function ByteLen(s: string): nat {
    if s == [] then 0 else ByteLen(s[..|s| - 1]) + Utf8Width(s[|s| - 1])
  }

  /** Each additional character adds at least one byte. */
  lemma {:induction false} ByteLenIncreasing(s: string, j: nat, k: nat)
    requires j < k <= |s|
    ensures ByteLen(s[..j]) < ByteLen(s[..k])
    decreases k - j
  {
    var p := s[..k];
    assert p[..|p| - 1] == s[..k - 1];
    if j < k - 1 {
      ByteLenIncreasing(s, j, k - 1);
    }
  }

  /** An ASCII string is as many bytes long as it has characters. */
  lemma {:induction false} ByteLenAscii(s: string)
    requires forall i :: 0 <= i < |s| ==> s[i] as int < 0x80
    ensures ByteLen(s) == |s|
    decreases |s|
  {
    if s != [] {
      ByteLenAscii(s[..|s| - 1]);
    }
  }

  function SaturatingSub(a: nat, b: nat): (r: nat)
    ensures r == if a >= b then a - b else 0
  {
    if a >= b then a - b else 0
  }

  /** The number of leading characters occupying exactly `n` bytes, searching from `k` on. */
  function BoundaryFrom(s: string, n: nat, k: nat): (r: Option<nat>)
    requires k <= |s|
    ensures r.Some? ==> k <= r.value <= |s| && ByteLen(s[..r.value]) == n
    ensures r.None? ==> forall j :: k <= j <= |s| ==> ByteLen(s[..j]) != n
    decreases |s| - k
  {
    if ByteLen(s[..k]) == n then Some(k)
    else if k == |s| then None
    else BoundaryFrom(s, n, k + 1)
  }

  /** `str::is_char_boundary`: byte offset `n` starts a character or ends the string. */
  function CharBoundary(s: string, n: nat): (r: Option<nat>)
    ensures r.Some? ==> r.value <= |s| && ByteLen(s[..r.value]) == n
    ensures r.None? ==> forall j :: 0 <= j <= |s| ==> ByteLen(s[..j]) != n
  {
    BoundaryFrom(s, n, 0)
  }

  /** The most leading characters, at most `k` of them, that fit in `n` bytes. */
  function FloorFrom(s: string, n: nat, k: nat): (r: nat)
    requires k <= |s|
    ensures r <= k && ByteLen(s[..r]) <= n
    ensures forall j :: r < j <= k ==> ByteLen(s[..j]) > n
  {
    if ByteLen(s[..k]) <= n then k
    else FloorFrom(s, n, k - 1)
  }

  /** `str::floor_char_boundary`: the longest prefix that fits in `n` bytes. */
  function FloorBoundary(s: string, n: nat): (r: nat)
    ensures r <= |s| && ByteLen(s[..r]) <= n
    ensures forall j :: r < j <= |s| ==> ByteLen(s[..j]) > n
  {
    FloorFrom(s, n, |s|)
  }

  const Ellipsis: string := "..."

  /**
   * `truncate(s, max_len)` as written: a string within `max_len` bytes is
   * returned whole; a longer one is cut to its first `max_len - 3` bytes
   * (saturating at 0) and followed by `...`. The cut is a byte slice, so an
   * offset inside a multi-byte character panics, modelled as `Err`.
   */
  function TruncateAsWritten(s: string, maxLen: nat): (r: Result<string, string>)
    ensures ByteLen(s) <= maxLen ==> r == Ok(s)
    ensures r.Err? <==>
      ByteLen(s) > maxLen && forall j :: 0 <= j <= |s| ==> ByteLen(s[..j]) != SaturatingSub(maxLen, 3)
  {
    if ByteLen(s) <= maxLen then Ok(s)
    else match CharBoundary(s, SaturatingSub(maxLen, 3))
      case None => Err("byte index is not a char boundary")
      case Some(k) => Ok(s[..k] + Ellipsis)
  }

  /** A two-byte character straddling the cut makes the slice panic. */
  lemma TruncateAsWrittenPanics()
    ensures TruncateAsWritten("éabc", 4).Err?
  {
    var s := "éabc";
    assert s[..0] == [];
    assert s[..1] == ['é'] && s[..1][..0] == [];
    assert ByteLen(s[..1]) == 2;
    ByteLenIncreasing(s, 1, 2);
    ByteLenIncreasing(s, 2, 3);
    ByteLenIncreasing(s, 3, 4);
    assert s[..4] == s;
  }

  /** Strings of ASCII characters never make the written version panic. */
  lemma TruncateAsWrittenAscii(s: string, maxLen: nat)
    requires forall i :: 0 <= i < |s| ==> s[i] as int < 0x80
    ensures TruncateAsWritten(s, maxLen).Ok?
  {
    var cut := SaturatingSub(maxLen, 3);
    ByteLenAscii(s);
    if ByteLen(s) > maxLen {
      ByteLenAscii(s[..cut]);
    }
  }

  /**
   * `truncate` with the cut moved back to the nearest character boundary,
   * so that it never panics. It agrees with the written version wherever
   * that one does not panic (`TruncateAgrees`).
   */
  function Truncate(s: string, maxLen: nat): (r: string)
    ensures ByteLen(s) <= maxLen ==> r == s
    ensures ByteLen(s) > maxLen ==>
      exists k :: 0 <= k < |s| && r == s[..k] + Ellipsis
        && ByteLen(s[..k]) <= SaturatingSub(maxLen, 3)
        && ByteLen(s[..k + 1]) > SaturatingSub(maxLen, 3)
  {
    if ByteLen(s) <= maxLen then s
    else
      var k := FloorBoundary(s, SaturatingSub(maxLen, 3));
      assert s[..|s|] == s;
      assert k < |s|;
      assert ByteLen(s[..k + 1]) > SaturatingSub(maxLen, 3);
      s[..k] + Ellipsis
  }

  lemma ByteLenAppend(a: string, b: string)
    ensures ByteLen(a + b) == ByteLen(a) + ByteLen(b)
    decreases |b|
  {
    if b != [] {
      var ab := a + b;
      assert ab[..|ab| - 1] == a + b[..|b| - 1];
      assert ab[|ab| - 1] == b[|b| - 1];
      ByteLenAppend(a, b[..|b| - 1]);
    } else {
      assert a + b == a;
    }
  }

  /** The ellipsis is three ASCII bytes. */
  lemma EllipsisBytes()
    ensures ByteLen(Ellipsis) == 3
  {
    assert Ellipsis[..2] == ".." && ".."[..1] == "." && "."[..0] == [];
  }

  /**
   * For a limit of at least 3, a string the written version does shorten
   * (without panicking) comes out exactly `max_len` bytes long.
   */
  lemma TruncateAsWrittenExactLength(s: string, maxLen: nat)
    requires maxLen >= 3 && ByteLen(s) > maxLen
    requires TruncateAsWritten(s, maxLen).Ok?
    ensures ByteLen(TruncateAsWritten(s, maxLen).value) == maxLen
  {
    var k := CharBoundary(s, maxLen - 3).value;
    ByteLenAppend(s[..k], Ellipsis);
    EllipsisBytes();
  }

  /**
   * Below a limit of 3 every string that is too long becomes the bare
   * ellipsis, which is itself longer than the limit.
   */
  lemma TruncateAsWrittenTinyLimit(s: string, maxLen: nat)
    requires maxLen < 3 && ByteLen(s) > maxLen
    ensures TruncateAsWritten(s, maxLen) == Ok(Ellipsis)
    ensures ByteLen(Ellipsis) > maxLen
  {
    assert s[..0] == [];
    assert CharBoundary(s, 0) == Some(0);
    assert s[..0] + Ellipsis == Ellipsis;
    EllipsisBytes();
  }

  /** When it shortens, the result fits in `max_len` bytes (for `max_len` of at least 3). */
  lemma TruncateFits(s: string, maxLen: nat)
    requires maxLen >= 3
    ensures ByteLen(Truncate(s, maxLen)) <= maxLen
  {
    if ByteLen(s) > maxLen {
      var k := FloorBoundary(s, maxLen - 3);
      ByteLenAppend(s[..k], Ellipsis);
      EllipsisBytes();
    }
  }

  /** Wherever the written version succeeds, the corrected one returns the same string. */
  lemma TruncateAgrees(s: string, maxLen: nat)
    requires TruncateAsWritten(s, maxLen).Ok?
    ensures TruncateAsWritten(s, maxLen).value == Truncate(s, maxLen)
  {
    if ByteLen(s) > maxLen {
      var cut := SaturatingSub(maxLen, 3);
      var k := CharBoundary(s, cut).value;
      var f := FloorBoundary(s, cut);
      if f < k {
        ByteLenIncreasing(s, f, k);
      } else if k < f {
        ByteLenIncreasing(s, k, f);
      }
    }
  }
}
