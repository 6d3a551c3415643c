/**
 * Normalisation of amounts typed in Indonesian number format ("." groups
 * thousands, "," marks the decimal part) before they are handed to the
 * number parser: every "." is deleted, then every "," becomes ".".
 * The parser itself (Python's `float`) is not modelled; callers receive it
 * as a partial function `parse`.
 */
module AmountText {
  import opened Text

  /** Deletes every '.' (the first of the two replacements). */
  function StripDots(s: string): (r: string)
    ensures '.' !in r
    ensures |r| == |s| - Count(s, '.')
  {
    if s == [] then []
    else
      var rest := StripDots(s[1..]);
      if s[0] == '.' then rest else [s[0]] + rest
  }

  /** Replaces every ',' by '.' (the second replacement). */
  function CommaToPoint(s: string): (r: string)
    ensures |r| == |s|
  {
    if s == [] then []
    else [if s[0] == ',' then '.' else s[0]] + CommaToPoint(s[1..])
  }

  /** The amount text with both replacements applied, in the source's order. */
  function Normalize(s: string): string
  {
    CommaToPoint(StripDots(s))
  }

  /** The text Python's `float` sees, parsed by `parse`. */
  function ParseAmount(s: string, parse: string -> Option<real>): Option<real>
  {
    parse(Normalize(s))
  }

  lemma {:induction false} StripDotsCounts(s: string, c: char)
    requires c != '.'
    ensures Count(StripDots(s), c) == Count(s, c)
  {
    if s != [] {
      StripDotsCounts(s[1..], c);
      if s[0] != '.' {
        assert ([s[0]] + StripDots(s[1..]))[1..] == StripDots(s[1..]);
      }
    }
  }

  lemma {:induction false} CommaToPointCounts(s: string)
    ensures ',' !in CommaToPoint(s)
    ensures Count(CommaToPoint(s), '.') == Count(s, '.') + Count(s, ',')
    ensures forall c :: c != '.' && c != ',' ==> Count(CommaToPoint(s), c) == Count(s, c)
  {
    if s != [] {
      CommaToPointCounts(s[1..]);
      assert CommaToPoint(s)[1..] == CommaToPoint(s[1..]);
    }
  }

  /**
   * What normalisation promises: no ',' survives, the text shrinks by the
   * number of '.' removed, each ',' turns into the one '.' left, and every
   * other character is kept with its multiplicity.
   */
  lemma NormalizeProperties(s: string)
    ensures ',' !in Normalize(s)
    ensures |Normalize(s)| == |s| - Count(s, '.')
    ensures Count(Normalize(s), '.') == Count(s, ',')
    ensures forall c :: c != '.' && c != ',' ==> Count(Normalize(s), c) == Count(s, c)
  {
    var t := StripDots(s);
    CommaToPointCounts(t);
    assert Count(t, '.') == 0;
    StripDotsCounts(s, ',');
    forall c | c != '.' && c != ','
      ensures Count(Normalize(s), c) == Count(s, c)
    {
      StripDotsCounts(s, c);
    }
  }

  /** Text already in the parser's own format (no '.' or ',') passes through unchanged. */
  lemma {:induction false} NormalizePlain(s: string)
    requires '.' !in s && ',' !in s
    ensures Normalize(s) == s
  {
    if s != [] {
      NormalizePlain(s[1..]);
      assert StripDots(s) == [s[0]] + StripDots(s[1..]);
    }
  }

  /** What one input character becomes after both replacements. */
  function CharStep(c: char): string
  {
    if c == '.' then [] else if c == ',' then ['.'] else [c]
  }

  lemma {:induction false} CommaToPointConcat(a: string, b: string)
    ensures CommaToPoint(a + b) == CommaToPoint(a) + CommaToPoint(b)
  {
    if a == [] {
      assert a + b == b;
    } else {
      assert (a + b)[1..] == a[1..] + b;
      CommaToPointConcat(a[1..], b);
    }
  }

  /** Position by position, the second replacement maps ',' to '.' and keeps everything else. */
  lemma {:induction false} CommaToPointAt(s: string, i: int)
    requires 0 <= i < |s|
    ensures CommaToPoint(s)[i] == (if s[i] == ',' then '.' else s[i])
  {
    if i > 0 {
      CommaToPointAt(s[1..], i - 1);
    }
  }

  /** Normalisation works character by character. */
  lemma NormalizeCons(c: char, t: string)
    ensures Normalize([c] + t) == CharStep(c) + Normalize(t)
  {
    assert ([c] + t)[1..] == t;
    var st := StripDots(t);
    if c == '.' {
      assert StripDots([c] + t) == st;
    } else {
      assert StripDots([c] + t) == [c] + st;
      CommaToPointConcat([c], st);
    }
  }

  lemma NormalizeSuffix(s: string, i: int)
    requires 0 <= i < |s|
    ensures Normalize(s[i..]) == CharStep(s[i]) + Normalize(s[i + 1..])
  {
    assert s[i..] == [s[i]] + s[i + 1..];
    NormalizeCons(s[i], s[i + 1..]);
  }

  /** Consuming position `i` moves its output from the pending suffix to the emitted prefix. */
  lemma StepKeepsInvariant(s: string, i: int, r: string)
    requires 0 <= i < |s|
    requires r + Normalize(s[i..]) == Normalize(s)
    ensures (r + CharStep(s[i])) + Normalize(s[i + 1..]) == Normalize(s)
  {
    NormalizeSuffix(s, i);
    assert r + (CharStep(s[i]) + Normalize(s[i + 1..])) == (r + CharStep(s[i])) + Normalize(s[i + 1..]);
  }

  /** One left-to-right pass doing the same work as the two replacements. */
  method NormalizeInPlace(s: string) returns (r: string)
    ensures r == Normalize(s)
  {
    r := [];
    var i := 0;
    while i < |s|
      invariant 0 <= i <= |s|
      invariant r + Normalize(s[i..]) == Normalize(s)
    {
      var next;
      if s[i] == ',' {
        next := r + ['.'];
      } else if s[i] != '.' {
        next := r + [s[i]];
      } else {
        next := r;
      }
      assert next == r + CharStep(s[i]);
      StepKeepsInvariant(s, i, r);
      r, i := next, i + 1;
    }
    assert s[i..] == [];
  }
}
