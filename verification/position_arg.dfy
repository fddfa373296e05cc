/**
 * `parse_position` from `src/cli/workflows.rs`: the `--position x,y`
 * argument of the node-adding command.
 */
module PositionArg {
  import opened Wrappers
  import opened Text

  const FormatError: string := "Position must be in format 'x,y'"
  const BadX: string := "Invalid x coordinate"
  const BadY: string := "Invalid y coordinate"

  /**
   * Splits at every comma and requires exactly two parts; each part is
   * trimmed and parsed as an `i32`, the x part first.
   */
  function ParsePosition(s: string): (r: Result<(int, int), string>)
    ensures r.Ok? ==> IsI32(r.value.0) && IsI32(r.value.1)
    ensures r == Err(FormatError) <==> |Split(s, ',')| != 2
    ensures r.Err? ==> r.error in {FormatError, BadX, BadY}
  {
    var parts := Split(s, ',');
    if |parts| != 2 then Err(FormatError)
    else match ParseI32(Trim(parts[0]))
      case None => Err(BadX)
      case Some(x) =>
        match ParseI32(Trim(parts[1]))
        case None => Err(BadY)
        case Some(y) => Ok((x, y))
  }

  /** The number of commas decides the number of parts. */
  lemma {:induction false} SplitCount(s: string, sep: char)
    ensures |Split(s, sep)| == multiset(s)[sep] + 1
    decreases |s|
  {
    if s != [] {
      SplitCount(s[1..], sep);
      assert s == [s[0]] + s[1..];
      assert multiset(s) == multiset{s[0]} + multiset(s[1..]);
    }
  }

  /** Anything but exactly one comma is a format error. */
  lemma FormatErrorIff(s: string)
    ensures ParsePosition(s) == Err(FormatError) <==> multiset(s)[','] != 1
  {
    SplitCount(s, ',');
  }

  lemma ShowEnds(v: int)
    ensures !IsWhitespace(Show(v)[0]) && !IsWhitespace(Show(v)[|Show(v)| - 1])
    ensures ',' !in Show(v)
  {
    var s := Show(v);
    if v < 0 {
      assert s == "-" + ShowNat(-v);
      assert forall i :: 1 <= i < |s| ==> s[i] == ShowNat(-v)[i - 1];
    } else {
      assert IsDigit(s[0]);
    }
  }

  /** Two comma-free parts joined by one comma split back into those parts. */
  lemma SplitPair(p: string, q: string)
    requires ',' !in p && ',' !in q
    ensures Split(p + "," + q, ',') == [p, q]
  {
    assert Join([p, q], [',']) == p + "," + q;
    SplitJoin([p, q], ',');
  }

  lemma NoCommaInWhitespace(a: string)
    requires AllWhitespace(a)
    ensures ',' !in a
  {
    assert !IsWhitespace(',');
  }

  /** A rendered integer with white space around it trims back to the rendering. */
  lemma TrimShow(a: string, v: int, b: string)
    requires AllWhitespace(a) && AllWhitespace(b)
    ensures Trim(a + Show(v) + b) == Show(v)
    ensures ',' !in a + Show(v) + b
  {
    ShowEnds(v);
    TrimPadded(a, Show(v), b);
    NoCommaInWhitespace(a);
    NoCommaInWhitespace(b);
  }

  /** How `parse_position` reads two parts whose trimmed forms are known. */
  lemma ParseParts(p: string, q: string, tp: string, tq: string)
    requires ',' !in p && ',' !in q
    requires Trim(p) == tp && Trim(q) == tq
    ensures ParsePosition(p + "," + q) ==
      match ParseI32(tp)
      case None => Err(BadX)
      case Some(x) =>
        match ParseI32(tq)
        case None => Err(BadY)
        case Some(y) => Ok((x, y))
  {
    SplitPair(p, q);
  }

  lemma RoundTripParts(x: int, y: int, p: string, q: string)
    requires IsI32(x) && IsI32(y)
    requires ',' !in p && ',' !in q
    requires Trim(p) == Show(x) && Trim(q) == Show(y)
    ensures ParsePosition(p + "," + q) == Ok((x, y))
  {
    ParseShow(x);
    ParseShow(y);
    ParseParts(p, q, Show(x), Show(y));
  }

  /**
   * Any two 32-bit integers written as `x,y`, with any white space around
   * either number, parse back to the same pair.
   */
  lemma ParsePositionRoundTrip(x: int, y: int, a: string, b: string, c: string, d: string)
    requires IsI32(x) && IsI32(y)
    requires AllWhitespace(a) && AllWhitespace(b) && AllWhitespace(c) && AllWhitespace(d)
    ensures ParsePosition((a + Show(x) + b) + "," + (c + Show(y) + d)) == Ok((x, y))
  {
    TrimShow(a, x, b);
    TrimShow(c, y, d);
    RoundTripParts(x, y, a + Show(x) + b, c + Show(y) + d);
  }

  /**
   * The x coordinate is checked first: when it does not parse, the x error
   * is reported whatever the y part holds.
   */
  lemma BadXFirst(p: string, q: string)
    requires ',' !in p && ',' !in q
    requires ParseI32(Trim(p)) == None
    ensures ParsePosition(p + "," + q) == Err(BadX)
  {
    ParseParts(p, q, Trim(p), Trim(q));
  }

  /** A good x and a bad y report the y error. */
  lemma BadYSecond(p: string, q: string)
    requires ',' !in p && ',' !in q
    requires ParseI32(Trim(p)).Some? && ParseI32(Trim(q)) == None
    ensures ParsePosition(p + "," + q) == Err(BadY)
  {
    ParseParts(p, q, Trim(p), Trim(q));
  }
}
