/**
 * The parts of java.lang.String and java.lang.Long that the CSV import relies on:
 * String.split with a one-character literal separator, String.trim, Long.parseLong,
 * and Long.toString as the inverse of Long.parseLong.
 */
module JavaText {
  import opened Wrappers

  // ---------------------------------------------------------------------------
  // String.split(",")
  // ---------------------------------------------------------------------------

  /** The text between consecutive separators; always one more piece than separators. */
  function Pieces(s: string, sep: char): (r: seq<string>)
    ensures |r| >= 1
    ensures forall j | 0 <= j < |r| :: sep !in r[j]
    decreases |s|
  {
    if s == [] then [[]]
    else
      var rest := Pieces(s[1..], sep);
      if s[0] == sep then [[]] + rest
      else [[s[0]] + rest[0]] + rest[1..]
  }

  /** The pieces glued back together with the separator between them. */
  function Join(ps: seq<string>, sep: char): string
  {
    if ps == [] then []
    else if |ps| == 1 then ps[0]
    else ps[0] + [sep] + Join(ps[1..], sep)
  }

  /** Removes the empty strings at the end, as split does when no limit is given. */
  function DropTrailingEmpty(ps: seq<string>): (r: seq<string>)
    ensures |r| <= |ps| && r == ps[..|r|]
    ensures forall j | |r| <= j < |ps| :: ps[j] == []
    ensures r != [] ==> r[|r| - 1] != []
  {
    if ps != [] && ps[|ps| - 1] == [] then DropTrailingEmpty(ps[..|ps| - 1]) else ps
  }

  /**
   * String.split with a one-character separator that is not a regular-expression
   * metacharacter: a string without the separator comes back whole (so "" gives
   * one empty field); otherwise the pieces between separators, with the trailing
   * empty ones dropped.
   */
  function Split(s: string, sep: char): (r: seq<string>)
    ensures forall j | 0 <= j < |r| :: sep !in r[j]
    ensures sep !in s ==> r == [s]
    ensures sep in s ==> |r| <= |Pieces(s, sep)| && r == Pieces(s, sep)[..|r|]
    ensures sep in s ==> forall j | |r| <= j < |Pieces(s, sep)| :: Pieces(s, sep)[j] == []
    ensures sep in s && r != [] ==> r[|r| - 1] != []
  {
    if sep !in s then [s] else DropTrailingEmpty(Pieces(s, sep))
  }

  /** Splitting and joining again gives back the original text. */
  lemma {:induction false} JoinPieces(s: string, sep: char)
    ensures Join(Pieces(s, sep), sep) == s
    decreases |s|
  {
    if s != [] {
      var rest := Pieces(s[1..], sep);
      JoinPieces(s[1..], sep);
      if s[0] == sep {
        assert Pieces(s, sep) == [[]] + rest;
        assert ([[]] + rest)[1..] == rest;
      } else if |rest| == 1 {
        assert Pieces(s, sep) == [[s[0]] + rest[0]];
      } else {
        var ps := Pieces(s, sep);
        assert ps == [[s[0]] + rest[0]] + rest[1..];
        assert ps[1..] == rest[1..];
        assert Join(rest, sep) == rest[0] + [sep] + Join(rest[1..], sep);
      }
    }
  }

  /** Text without the separator is a single piece. */
  lemma {:induction false} PiecesOfPlain(a: string, sep: char)
    requires sep !in a
    ensures Pieces(a, sep) == [a]
    decreases |a|
  {
    if a != [] {
      PiecesOfPlain(a[1..], sep);
      assert [a[0]] + a[1..] == a;
    }
  }

  /** A separator splits the pieces of its two sides apart. */
  lemma {:induction false} PiecesAppend(a: string, b: string, sep: char)
    ensures Pieces(a + [sep] + b, sep) == Pieces(a, sep) + Pieces(b, sep)
    decreases |a|
  {
    var s := a + [sep] + b;
    if a == [] {
      assert s[1..] == b;
    } else {
      assert s[1..] == a[1..] + [sep] + b;
      PiecesAppend(a[1..], b, sep);
      var pa := Pieces(a[1..], sep);
      if a[0] != sep {
        assert ([[a[0]] + pa[0]] + pa[1..]) + Pieces(b, sep)
            == [[a[0]] + (pa + Pieces(b, sep))[0]] + (pa + Pieces(b, sep))[1..];
      }
    }
  }

  /** Joining pieces that contain no separator and splitting again gives back the pieces. */
  lemma {:induction false} PiecesJoin(ps: seq<string>, sep: char)
    requires |ps| >= 1
    requires forall j | 0 <= j < |ps| :: sep !in ps[j]
    ensures Pieces(Join(ps, sep), sep) == ps
    decreases |ps|
  {
    if |ps| == 1 {
      PiecesOfPlain(ps[0], sep);
    } else {
      PiecesJoin(ps[1..], sep);
      PiecesAppend(ps[0], Join(ps[1..], sep), sep);
      PiecesOfPlain(ps[0], sep);
      assert [ps[0]] + ps[1..] == ps;
    }
  }

  /** Dropping trailing empties from a longer list keeps what was kept from its prefix. */
  lemma DropTrailingEmptyPrefix(p: seq<string>, q: seq<string>)
    ensures |DropTrailingEmpty(p + q)| >= |DropTrailingEmpty(p)|
    ensures DropTrailingEmpty(p + q)[..|DropTrailingEmpty(p)|] == DropTrailingEmpty(p)
  {
    var r, r' := DropTrailingEmpty(p), DropTrailingEmpty(p + q);
    if r != [] {
      var last := |r| - 1;
      assert (p + q)[last] == p[last] == r[last] != [];
    }
    assert |r'| >= |r|;
    assert r'[..|r|] == (p + q)[..|r|];
    assert (p + q)[..|r|] == p[..|r|];
  }

  /**
   * Appending a separator and more text to a non-empty line keeps every field the
   * line already had, in the same positions.
   */
  lemma SplitExtend(a: string, b: string, sep: char)
    requires a != []
    ensures |Split(a + [sep] + b, sep)| >= |Split(a, sep)|
    ensures Split(a + [sep] + b, sep)[..|Split(a, sep)|] == Split(a, sep)
  {
    var s := a + [sep] + b;
    assert s[|a|] == sep;
    PiecesAppend(a, b, sep);
    if sep in a {
      DropTrailingEmptyPrefix(Pieces(a, sep), Pieces(b, sep));
    } else {
      PiecesOfPlain(a, sep);
      DropTrailingEmptyPrefix([a], Pieces(b, sep));
    }
  }

  /** A line written as at least two separator-free fields, the last one non-empty, splits back into exactly those fields. */
  lemma SplitJoin(fields: seq<string>, sep: char)
    requires |fields| >= 2 && fields[|fields| - 1] != []
    requires forall j | 0 <= j < |fields| :: sep !in fields[j]
    ensures Split(Join(fields, sep), sep) == fields
  {
    var s := Join(fields, sep);
    assert s == fields[0] + [sep] + Join(fields[1..], sep);
    assert s[|fields[0]|] == sep;
    PiecesJoin(fields, sep);
  }

  /** A trailing separator adds only an empty field, and split drops it again. */
  lemma SplitTrailingSeparator(fields: seq<string>, sep: char)
    requires |fields| >= 1 && fields[|fields| - 1] != []
    requires forall j | 0 <= j < |fields| :: sep !in fields[j]
    ensures Split(Join(fields, sep) + [sep], sep) == fields
  {
    var s := Join(fields, sep);
    assert s + [sep] == s + [sep] + [];
    assert (s + [sep])[|s|] == sep;
    PiecesAppend(s, [], sep);
    PiecesJoin(fields, sep);
    assert Pieces(s + [sep], sep) == fields + [[]];
    assert (fields + [[]])[..|fields|] == fields;
  }

  // ---------------------------------------------------------------------------
  // String.trim()
  // ---------------------------------------------------------------------------

  /** trim removes every character whose code is at most U+0020 (space and control characters). */
  predicate IsSpace(c: char) { c <= ' ' }

  /** No removable character at either end. */
  predicate IsTrimmed(s: string) { s == [] || (!IsSpace(s[0]) && !IsSpace(s[|s| - 1])) }

  function TrimStart(s: string): (r: string)
    ensures |r| <= |s| && r == s[|s| - |r|..]
    ensures forall k | 0 <= k < |s| - |r| :: IsSpace(s[k])
    ensures r != [] ==> !IsSpace(r[0])
  {
    if s != [] && IsSpace(s[0]) then TrimStart(s[1..]) else s
  }

  function TrimEnd(s: string): (r: string)
    ensures |r| <= |s| && r == s[..|r|]
    ensures forall k | |r| <= k < |s| :: IsSpace(s[k])
    ensures r != [] ==> !IsSpace(r[|r| - 1])
  {
    if s != [] && IsSpace(s[|s| - 1]) then TrimEnd(s[..|s| - 1]) else s
  }

  /** `r` is `s` with the removable characters before index `i` and after `r` taken away. */
  predicate StrippedAt(s: string, i: int, r: string)
  {
    && 0 <= i <= |s| - |r|
    && r == s[i..i + |r|]
    && (forall k | 0 <= k < i :: IsSpace(s[k]))
    && (forall k | i + |r| <= k < |s| :: IsSpace(s[k]))
  }

  /** Removable characters taken from the start, then from the end, leave `r` stripped at `|s| - |t|`. */
  lemma StrippedAtTrim(s: string, t: string, r: string)
    requires |t| <= |s| && t == s[|s| - |t|..] && forall k | 0 <= k < |s| - |t| :: IsSpace(s[k])
    requires |r| <= |t| && r == t[..|r|] && forall k | |r| <= k < |t| :: IsSpace(t[k])
    ensures StrippedAt(s, |s| - |t|, r)
  {
    var i := |s| - |t|;
    assert r == s[i..i + |r|];
    forall k | i + |r| <= k < |s| ensures IsSpace(s[k]) {
      assert s[k] == t[k - i];
    }
  }

  /** String.trim: the text between the leading and the trailing removable characters. */
  function Trim(s: string): (r: string)
    ensures IsTrimmed(r)
    ensures |r| <= |s|
    ensures forall c | c in r :: c in s
    ensures IsTrimmed(s) ==> r == s
    ensures exists i :: StrippedAt(s, i, r)
  {
    var t := TrimStart(s);
    var r := TrimEnd(t);
    StrippedAtTrim(s, t, r);
    forall c | c in r ensures c in s {
      var k :| 0 <= k < |r| && r[k] == c;
      assert s[|s| - |t| + k] == c;
    }
    assert r != [] ==> r[0] == t[0];
    r
  }

  /** Trimming twice is the same as trimming once. */
  lemma TrimIdempotent(s: string)
    ensures Trim(Trim(s)) == Trim(s)
  {
  }

  // ---------------------------------------------------------------------------
  // Long.parseLong and Long.toString
  // ---------------------------------------------------------------------------

  /** The range of a Java long. */
  const LongMin: int := -0x8000_0000_0000_0000
  const LongMax: int := 0x7FFF_FFFF_FFFF_FFFF

  predicate IsDigit(c: char) { '0' <= c <= '9' }

  predicate AllDigits(s: string) { forall k | 0 <= k < |s| :: IsDigit(s[k]) }

  /** The value of a string of decimal digits, most significant first. */
  function DigitsValue(ds: string): nat
    requires AllDigits(ds)
  {
    if ds == [] then 0
    else DigitsValue(ds[..|ds| - 1]) * 10 + (ds[|ds| - 1] as int - '0' as int)
  }

  /**
   * Long.parseLong: an optional '+' or '-', then at least one decimal digit, and
   * the value must fit in a long; anything else is a NumberFormatException (None).
   */
  function ParseLong(s: string): (r: Option<int>)
    ensures r.Some? ==> LongMin <= r.value <= LongMax
    ensures r.Some? ==> s != [] && IsDigit(s[|s| - 1])
    ensures r.Some? ==> var ds := if s[0] == '-' || s[0] == '+' then s[1..] else s; ds != [] && AllDigits(ds)
    ensures s != [] && AllDigits(s) ==> r == if DigitsValue(s) <= LongMax then Some(DigitsValue(s)) else None
    ensures |s| >= 2 && s[0] == '+' && AllDigits(s[1..]) ==>
      r == if DigitsValue(s[1..]) <= LongMax then Some(DigitsValue(s[1..])) else None
    ensures |s| >= 2 && s[0] == '-' && AllDigits(s[1..]) ==>
      r == if DigitsValue(s[1..]) <= -LongMin then Some(-(DigitsValue(s[1..]) as int)) else None
  {
    if s == [] then None
    else
      var digits := if s[0] == '-' || s[0] == '+' then s[1..] else s;
      if digits == [] || !AllDigits(digits) then None
      else
        var v: int := if s[0] == '-' then -(DigitsValue(digits) as int) else DigitsValue(digits);
        if LongMin <= v <= LongMax then Some(v) else None
  }

  /** The decimal digits of n without leading zeros. */
  function FormatNat(n: nat): (r: string)
    ensures r != [] && AllDigits(r)
    ensures DigitsValue(r) == n
  {
    var d := ['0' + (n % 10) as char];
    if n < 10 then d
    else
      var r := FormatNat(n / 10) + d;
      assert r[..|r| - 1] == FormatNat(n / 10);
      r
  }

  /** Long.toString: a '-' for negative values, then the digits of the magnitude. */
  function FormatLong(n: int): (r: string)
    ensures r != [] && IsTrimmed(r)
    ensures ',' !in r
  {
    if n < 0 then "-" + FormatNat(-n) else FormatNat(n)
  }

  /** Every long survives printing and parsing back. */
  lemma ParseFormatLong(n: int)
    requires LongMin <= n <= LongMax
    ensures ParseLong(FormatLong(n)) == Some(n)
  {
    var s := FormatLong(n);
    if n < 0 {
      assert s[1..] == FormatNat(-n);
    } else {
      assert s[0] != '-' && s[0] != '+';
    }
  }
}
