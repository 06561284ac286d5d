/** The pure arithmetic of `UIUtils`: the display weight of a string and the
    integer rating handed to a rating bar. Strings are Java strings, i.e.
    sequences of UTF-16 code units; both results are Java `int`s. */
module UIUtils {
  import opened Wrappers
  import opened JavaInt

  /** A UTF-16 code unit (a Java `char`). */
  newtype Unit = x: int | 0 <= x < 0x1_0000

  predicate IsHighSurrogate(c: Unit) {
    0xD800 <= c <= 0xDBFF
  }

  predicate IsLowSurrogate(c: Unit) {
    0xDC00 <= c <= 0xDFFF
  }

  /** `Character.codePointAt(s, i)`: a high surrogate followed by a low one
      yields the supplementary code point they encode, any other unit its own
      value. */
  function CodePointAt(s: seq<Unit>, i: nat): (cp: int)
    requires i < |s|
    ensures 0 <= cp < 0x11_0000
    ensures IsHighSurrogate(s[i]) && i + 1 < |s| && IsLowSurrogate(s[i + 1]) ==> cp >= 0x1_0000
  {
    if IsHighSurrogate(s[i]) && i + 1 < |s| && IsLowSurrogate(s[i + 1]) then
      (s[i] as int - 0xD800) * 0x400 + (s[i + 1] as int - 0xDC00) + 0x1_0000
    else
      s[i] as int
  }

  /** Weight of one code unit: 1 for a Latin-1 unit, 2 for any other. */
  function UnitWeight(c: Unit): nat {
    if c <= 255 then 1 else 2
  }

  /** Reference weight of a string: the sum of its units' weights. */
  function Weight(s: seq<Unit>): nat {
    if s == [] then 0 else Weight(s[..|s| - 1]) + UnitWeight(s[|s| - 1])
  }

  /** The code point read at i is Latin-1 exactly when the unit at i is: a
      surrogate is never Latin-1 and neither is a pair's code point. */
  lemma CodePointLatin1(s: seq<Unit>, i: nat)
    requires i < |s|
    ensures 0 <= CodePointAt(s, i) <= 255 <==> s[i] <= 255
  {
  }

  /** `getWordCount`: walks every unit index, including the low half of a
      surrogate pair, and adds 1 for a Latin-1 code point, 2 otherwise, in
      `int` arithmetic: the result is the weight wrapped to 32 bits. */
  method GetWordCount(s: seq<Unit>) returns (length: Int32)
    ensures length == Wrap32(Weight(s))
    ensures Weight(s) < 0x8000_0000 ==> length == Weight(s)
  {
    length := 0;
    var i := 0;
    while i < |s|
      invariant 0 <= i <= |s|
      invariant length == Wrap32(Weight(s[..i]))
    {
      var ascii := CodePointAt(s, i);
      CodePointLatin1(s, i);
      WrapAdd(Weight(s[..i]), UnitWeight(s[i]));
      if 0 <= ascii <= 255 {
        length := Wrap32(length + 1);
      } else {
        length := Wrap32(length + 2);
      }
      assert s[..i + 1][..i] == s[..i];
      i := i + 1;
    }
    assert s[..|s|] == s;
  }

  lemma {:induction false} WeightBounds(s: seq<Unit>)
    ensures |s| <= Weight(s) <= 2 * |s|
  {
    if s != [] {
      WeightBounds(s[..|s| - 1]);
    }
  }

  lemma {:induction false} WeightAppend(s: seq<Unit>, t: seq<Unit>)
    ensures Weight(s + t) == Weight(s) + Weight(t)
    decreases |t|
  {
    if t == [] {
      assert s + t == s;
    } else {
      var t' := t[..|t| - 1];
      assert (s + t)[..|s + t| - 1] == s + t';
      WeightAppend(s, t');
    }
  }

  /** The weight equals the length exactly when every unit is Latin-1. */
  lemma {:induction false} WeightIsLengthIffLatin1(s: seq<Unit>)
    ensures Weight(s) == |s| <==> forall i :: 0 <= i < |s| ==> s[i] <= 255
  {
    if s != [] {
      var p := s[..|s| - 1];
      WeightIsLengthIffLatin1(p);
      WeightBounds(p);
      if forall i :: 0 <= i < |s| ==> s[i] <= 255 {
        assert forall i :: 0 <= i < |p| ==> p[i] <= 255 by {
          forall i | 0 <= i < |p| ensures p[i] <= 255 {
            assert p[i] == s[i];
          }
        }
      } else {
        var k :| 0 <= k < |s| && s[k] > 255;
        if k == |s| - 1 {
          assert UnitWeight(s[k]) == 2;
        } else {
          assert p[k] == s[k];
          assert Weight(p) != |p|;
        }
      }
    }
  }

  /** A supplementary character (a surrogate pair) weighs 4: the loop visits
      its low half too. */
  lemma SurrogatePairWeighsFour(h: Unit, l: Unit)
    requires IsHighSurrogate(h) && IsLowSurrogate(l)
    ensures Weight([h, l]) == 4
    ensures CodePointAt([h, l], 0) >= 0x1_0000
  {
    assert [h, l][..1] == [h];
    assert [h][..0] == [];
    assert Weight([h]) == 2;
  }

  // ---------------------------------------------------------------------
  // setRatingBar

  datatype ArithError = DivideByZero

  /** The rating bar always has this many stars. */
  const NumStars := 5

  /** `setRatingBar`: the rating is `average * 5 / max` in 32-bit int
      arithmetic (product wrapped, quotient truncated, then wrapped), before
      any conversion to float; a zero maximum raises an arithmetic exception. */
  function Rating(max: Int32, average: Int32): (r: Result<Int32, ArithError>)
    ensures r.Err? <==> max == 0
  {
    if max == 0 then Err(DivideByZero)
    else Ok(Wrap32(TruncDiv(Wrap32(average * NumStars), max)))
  }

  /** Without overflow, a non-negative average gives the floor of
      average * 5 / max, which is at most 5 when average <= max. */
  lemma RatingIsFloorQuotient(max: Int32, average: Int32)
    requires max > 0 && average >= 0 && average * NumStars < 0x8000_0000
    ensures Rating(max, average).Ok?
    ensures var r := Rating(max, average).value;
            r * max <= average * NumStars < (r + 1) * max
    ensures average <= max ==> 0 <= Rating(max, average).value <= NumStars
  {
    var p := average * NumStars;
    assert Wrap32(p) == p;
    var q := p / max;
    assert TruncDiv(p, max) == q;
    FloorQuotient(p, max);
    assert Wrap32(q) == q;
    if average <= max {
      assert p <= NumStars * max;
      QuotientBound(q, max, NumStars);
    }
  }

  /** Dafny's `/` on a non-negative dividend and positive divisor is the floor. */
  lemma FloorQuotient(p: int, b: int)
    requires p >= 0 && b > 0
    ensures 0 <= p / b <= p
    ensures (p / b) * b <= p < (p / b + 1) * b
  {
    var q, m := p / b, p % b;
    assert p == q * b + m && 0 <= m < b;
    assert (q + 1) * b == q * b + b;
    if q < 0 {
      ProductMonotone(q + 1, 0, b);
    } else {
      ProductMonotone(1, b, q);
    }
  }

  /** Multiplying by a non-negative factor keeps the order. */
  lemma ProductMonotone(x: int, y: int, c: int)
    requires x <= y && c >= 0
    ensures x * c <= y * c
  {
    assert y * c - x * c == (y - x) * c;
  }

  lemma QuotientBound(q: int, b: int, k: int)
    requires b > 0 && q * b <= k * b
    ensures q <= k
  {
    if q > k {
      ProductMonotone(k + 1, q, b);
    }
  }

  /** A negative product is truncated toward zero, not floored: -5 / 2 is -2. */
  lemma RatingTruncatesTowardZero()
    ensures Rating(2, -1) == Ok(-2)
  {
  }

  /** A large average overflows the product and yields a negative rating. */
  lemma RatingOverflows()
    ensures Rating(1, 500_000_000) == Ok(-1_794_967_296)
  {
  }
}
