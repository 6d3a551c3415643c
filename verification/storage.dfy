/**
 * How SQLite stores and compares the transactions table's `date` column.
 * The column is declared `DATE`, a type name that gives it NUMERIC
 * affinity: a text that is a well-formed integer or real literal (leading
 * and trailing whitespace allowed) is stored as a number, and any other
 * text is stored as it is. In a comparison or an `ORDER BY` every number
 * sorts before every text; numbers compare by value and texts under the
 * BINARY collation.
 */
module Storage {
  import opened Text

  /** A stored value of a NUMERIC-affinity column. INTEGER and REAL values are both `Num`. */
  datatype Value = Num(n: real) | Txt(s: string)

  /** The order SQLite compares stored values in: numbers first, then texts. */
  predicate ValueLe(a: Value, b: Value)
  {
    match a
    case Num(x) => b.Txt? || x <= b.n
    case Txt(s) => b.Txt? && TextLe(s, b.s)
  }

  lemma ValueLeReflexive(a: Value)
    ensures ValueLe(a, a)
  {
    if a.Txt? {
      TextLeReflexive(a.s);
    }
  }

  lemma ValueLeAntisymmetric(a: Value, b: Value)
    requires ValueLe(a, b) && ValueLe(b, a)
    ensures a == b
  {
    if a.Txt? {
      TextLeAntisymmetric(a.s, b.s);
    }
  }

  lemma ValueLeTransitive(a: Value, b: Value, c: Value)
    requires ValueLe(a, b) && ValueLe(b, c)
    ensures ValueLe(a, c)
  {
    if a.Txt? {
      TextLeTransitive(a.s, b.s, c.s);
    }
  }

  lemma ValueLeTotal(a: Value, b: Value)
    ensures ValueLe(a, b) || ValueLe(b, a)
  {
    if a.Txt? && b.Txt? {
      TextLeTotal(a.s, b.s);
    }
  }

  /** The characters SQLite skips around a numeric literal: space, tab, newline, vertical tab, form feed, carriage return. */
  predicate IsSpace(c: char)
  {
    c == ' ' || '\t' <= c <= '\r'
  }

  /** `s` without its leading whitespace. */
  function TrimStart(s: string): (r: string)
    ensures |r| <= |s| && r == s[|s| - |r|..]
    ensures r != [] ==> !IsSpace(r[0])
    ensures s != [] && !IsSpace(s[0]) ==> r == s
  {
    if s != [] && IsSpace(s[0]) then TrimStart(s[1..]) else s
  }

  /** `s` without its trailing whitespace. */
  function TrimEnd(s: string): (r: string)
    ensures |r| <= |s| && r == s[..|r|]
    ensures r != [] ==> !IsSpace(r[|r| - 1])
    ensures s != [] && !IsSpace(s[|s| - 1]) ==> r == s
  {
    if s != [] && IsSpace(s[|s| - 1]) then TrimEnd(s[..|s| - 1]) else s
  }

  /** Length of the run of decimal digits that starts `s`. */
  function DigitRun(s: string): (n: nat)
    ensures n <= |s|
    ensures forall k :: 0 <= k < n ==> IsDigit(s[k])
    ensures n < |s| ==> !IsDigit(s[n])
  {
    if s != [] && IsDigit(s[0]) then
      var rest := DigitRun(s[1..]);
      assert forall k :: 1 <= k <= rest ==> s[k] == s[1..][k - 1];
      1 + rest
    else 0
  }

  function Pow10(e: nat): (r: real)
    ensures r >= 1.0
  {
    if e == 0 then 1.0 else 10.0 * Pow10(e - 1)
  }

  /** `m` times ten to the power `e`. */
  function Scale(m: real, e: int): real
  {
    if e >= 0 then m * Pow10(e) else m / Pow10(-e)
  }

  /**
   * The exponent part of a literal: `e` or `E`, an optional sign and at
   * least one digit, with nothing after them.
   */
  function Exponent(tail: string): (r: Option<int>)
    ensures r.Some? ==> tail != [] && (tail[0] == 'e' || tail[0] == 'E')
  {
    if tail == [] || (tail[0] != 'e' && tail[0] != 'E') then None
    else
      var rest := tail[1..];
      var digits := if rest != [] && (rest[0] == '-' || rest[0] == '+') then rest[1..] else rest;
      if digits == [] || !AllDigits(digits) then None
      else
        var e: int := DigitsValue(digits);
        Some(if rest[0] == '-' then -e else e)
  }

  /**
   * The value of a literal with no surrounding whitespace: an optional sign,
   * digits, an optional point followed by digits (at least one digit in
   * all), and an optional exponent. Any other text has no value.
   */
  function Literal(t: string): Option<real>
  {
    if t != [] && t[0] == '-' then
      match Unsigned(t[1..])
      case None => None
      case Some(m) => Some(-m)
    else if t != [] && t[0] == '+' then Unsigned(t[1..])
    else Unsigned(t)
  }

  /** A literal without its sign: the leading digits, then the rest. */
  function Unsigned(body: string): Option<real>
  {
    var i := DigitRun(body);
    assert AllDigits(body[..i]);
    Fraction(body[..i], body[i..])
  }

  /** After the integer digits: an optional point with its digits, then the rest. */
  function Fraction(intPart: string, rest: string): Option<real>
    requires AllDigits(intPart)
  {
    if rest != [] && rest[0] == '.' then
      var j := DigitRun(rest[1..]);
      assert AllDigits(rest[1..][..j]);
      Finish(intPart, rest[1..][..j], rest[1..][j..])
    else Finish(intPart, [], rest)
  }

  /**
   * The value of integer digits and fraction digits, scaled by the exponent
   * in `tail`; none when there is no digit at all or `tail` is not an
   * exponent.
   */
  function Finish(intPart: string, frac: string, tail: string): Option<real>
    requires AllDigits(intPart) && AllDigits(frac)
  {
    if |intPart| + |frac| == 0 then None
    else
      var mantissa := DigitsValue(intPart) as real + DigitsValue(frac) as real / Pow10(|frac|);
      if tail == [] then Some(mantissa)
      else
        match Exponent(tail)
        case None => None
        case Some(e) => Some(Scale(mantissa, e))
  }

  /** The number a text denotes under NUMERIC affinity, if it is a well-formed literal. */
  function Numeric(s: string): Option<real>
  {
    Literal(TrimEnd(TrimStart(s)))
  }

  /**
   * The value stored when text `s` is written into a NUMERIC-affinity
   * column, or compared with one: a number when `s` is a well-formed
   * literal, the text itself otherwise.
   */
  function Affinity(s: string): (v: Value)
    ensures v.Num? <==> Numeric(s).Some?
    ensures v.Txt? ==> v.s == s
  {
    match Numeric(s)
    case Some(x) => Num(x)
    case None => Txt(s)
  }

  /** The `YYYY-MM-DD` shape that `strftime('%Y-%m-%d')` produces. */
  predicate IsoDate(s: string)
  {
    && |s| == 10 && s[4] == '-' && s[7] == '-'
    && forall i :: 0 <= i < 10 && i != 4 && i != 7 ==> IsDigit(s[i])
  }

  /** A date in `YYYY-MM-DD` form is not a numeric literal, so it is stored and compared as text. */
  lemma IsoDateIsText(s: string)
    requires IsoDate(s)
    ensures Numeric(s).None?
    ensures Affinity(s) == Txt(s)
  {
    assert IsDigit(s[0]) && IsDigit(s[9]);
    assert TrimEnd(TrimStart(s)) == s;
    assert IsDigit(s[1]) && IsDigit(s[2]) && IsDigit(s[3]) && !IsDigit(s[4]);
    assert DigitRun(s) == 4;
    assert s[4..][0] == '-';
  }

  /** A non-empty run of digits is stored as the number it spells. */
  lemma DigitTextIsNumber(s: string)
    requires s != [] && AllDigits(s)
    ensures Numeric(s) == Some(DigitsValue(s) as real)
    ensures Affinity(s) == Num(DigitsValue(s) as real)
  {
    assert IsDigit(s[0]) && IsDigit(s[|s| - 1]);
    assert TrimEnd(TrimStart(s)) == s;
    LiteralOfDigits(s);
  }

  lemma LiteralOfDigits(t: string)
    requires t != [] && AllDigits(t)
    ensures Literal(t) == Some(DigitsValue(t) as real)
  {
    assert t[0] != '-' && t[0] != '+';
    assert DigitRun(t) == |t| by {
      assert IsDigit(t[0]);
    }
    assert t[|t|..] == [] && t[..|t|] == t;
    assert Fraction(t, []) == Finish(t, [], []);
  }

  /** Every stored number sorts strictly before every stored `YYYY-MM-DD` date. */
  lemma NumberBeforeIsoDate(x: real, s: string)
    requires IsoDate(s)
    ensures ValueLe(Num(x), Affinity(s))
    ensures !ValueLe(Affinity(s), Num(x))
  {
    IsoDateIsText(s);
  }

  /** Two `YYYY-MM-DD` dates compare as stored values exactly as they compare as texts. */
  lemma IsoDatesCompareAsText(a: string, b: string)
    requires IsoDate(a) && IsoDate(b)
    ensures ValueLe(Affinity(a), Affinity(b)) <==> TextLe(a, b)
  {
    IsoDateIsText(a);
    IsoDateIsText(b);
  }
}
