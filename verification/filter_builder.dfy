/** `AbstractTextSensitiveWordFilterBuilder`: the capacity estimates for the two repositories and
    the rule that builds only the repositories that are still missing. */
module FilterBuilder {
  import opened Arith
  import opened StopChars
  import opened WordRepository
  import opened WordFilter

  const DefaultSensitiveWordAvgLength: int := 5
  const DefaultSensitiveWordText: string := "sensitive_word.txt"
  const DefaultStopCharText: string := "stopchar.txt"

  const TwoTo31: int := 0x8000_0000
  const TwoTo32: int := 0x1_0000_0000

  predicate IsInt32(x: int) { -TwoTo31 <= x < TwoTo31 }

  /** Java `int` arithmetic: the value modulo 2^32, in the signed range. */
  function Wrap32(x: int): (r: int)
    ensures IsInt32(r) && (x - r) % TwoTo32 == 0
    ensures IsInt32(x) ==> r == x
  {
    var m := x % TwoTo32;
    if m < TwoTo31 then m else m - TwoTo32
  }

  /** Java `/` on `int`: the quotient truncated toward zero. */
  function JavaDiv(a: int, b: int): int
    requires b != 0
  {
    var q := (if a < 0 then -a else a) / (if b < 0 then -b else b);
    if (a < 0) == (b < 0) then q else -q
  }

  /** Dividing by `b` and then by `c` is dividing by `b * c`, for a non-negative dividend. */
  lemma DivDiv(a: int, b: int, c: int)
    requires a >= 0 && b > 0 && c > 0
    ensures (a / b) / c == a / (b * c)
  {
    var q1, r1 := a / b, a % b;
    var q2, r2 := q1 / c, q1 % c;
    assert q1 * b == (q2 * c + r2) * b == q2 * (b * c) + r2 * b;
    DigitBound(r2, c, r1, b);
    assert c * b == b * c;
    DivModUnique(a, b * c, q2, r2 * b + r1);
  }

  /** `computeSensitiveWordRepositorySpace`: `(bytes / (3 * avg)) >> 2` in `int` arithmetic. The
      product and the quotient wrap at 32 bits; `>> 2` is division by 4 rounding down. The wrapped
      product is zero only for `avg == 0`, where Java throws `ArithmeticException`. */
  function SensitiveWordRepositorySpace(bytes: int, avg: int): (r: int)
    requires IsInt32(bytes) && IsInt32(avg) && avg != 0
    ensures IsInt32(r)
  {
    var d := Wrap32(3 * avg);
    assert d != 0 by {
      if 0 < 3 * avg < TwoTo32 {
        DivModUnique(3 * avg, TwoTo32, 0, 3 * avg);
      } else if TwoTo32 <= 3 * avg {
        DivModUnique(3 * avg, TwoTo32, 1, 3 * avg - TwoTo32);
      } else if -TwoTo32 <= 3 * avg {
        DivModUnique(3 * avg, TwoTo32, -1, 3 * avg + TwoTo32);
      } else {
        DivModUnique(3 * avg, TwoTo32, -2, 3 * avg + 2 * TwoTo32);
      }
    }
    Wrap32(JavaDiv(bytes, d)) / 4
  }

  /** The design intent: for a non-negative byte count and an average length whose triple fits an
      `int`, the space is the byte count over `12 * avg`, a quarter of the estimated word count,
      and never negative. */
  lemma SensitiveWordSpaceIsQuarterOfWordCount(bytes: int, avg: int)
    requires 0 <= bytes < TwoTo31 && 0 < avg && 3 * avg < TwoTo31
    ensures SensitiveWordRepositorySpace(bytes, avg) == bytes / (12 * avg)
    ensures 0 <= SensitiveWordRepositorySpace(bytes, avg) <= bytes
  {
    var q := bytes / (3 * avg);
    DivModUnique(bytes, 3 * avg, q, bytes % (3 * avg));
    MulLe(1, 3 * avg, q);
    assert 0 <= q <= bytes;
    DivDiv(bytes, 3 * avg, 4);
    assert 3 * avg * 4 == 12 * avg;
  }

  /** Beyond that range the product wraps: an average length of 1431655765 makes `3 * avg` equal
      to -1, and the space for 100 bytes comes out negative. */
  lemma WrappedAverageGivesNegativeSpace()
    ensures SensitiveWordRepositorySpace(100, 1431655765) == -25
  {
    assert Wrap32(3 * 1431655765) == -1;
  }

  /** `computeStopCharRepositorySpace`: `bytes / 3`, truncated toward zero. */
  function StopCharRepositorySpace(bytes: int): (r: int)
    requires IsInt32(bytes)
    ensures IsInt32(r)
    ensures bytes >= 0 ==> 0 <= r <= bytes && r == bytes / 3
    ensures bytes < 0 ==> bytes <= r <= 0 && r == -((-bytes) / 3)
  {
    JavaDiv(bytes, 3)
  }

  class AbstractTextSensitiveWordFilterBuilder {
    var sensitiveWordRepository: DefaultSensitiveWordRepository?
    var stopCharRepository: DefaultStopCharRepository?
    var sensitiveWordAvgLength: int
    /** The texts the repositories were built from, in order. */
    ghost var loadedTexts: seq<string>

    constructor ()
      ensures sensitiveWordRepository == null && stopCharRepository == null
      ensures sensitiveWordAvgLength == DefaultSensitiveWordAvgLength && loadedTexts == []
    {
      sensitiveWordRepository := null;
      stopCharRepository := null;
      sensitiveWordAvgLength := DefaultSensitiveWordAvgLength;
      loadedTexts := [];
    }

    constructor WithAvgLength(sensitiveWordAvgLength: int)
      ensures sensitiveWordRepository == null && stopCharRepository == null
      ensures this.sensitiveWordAvgLength == sensitiveWordAvgLength && loadedTexts == []
    {
      this.sensitiveWordRepository := null;
      this.stopCharRepository := null;
      this.sensitiveWordAvgLength := sensitiveWordAvgLength;
      loadedTexts := [];
    }

    /** `buildSensitiveWordRepository(text)`: a new repository, filled from `text`. */
    method BuildSensitiveWordRepository(text: string)
      modifies this
      ensures sensitiveWordRepository != null && fresh(sensitiveWordRepository)
      ensures stopCharRepository == old(stopCharRepository) && sensitiveWordAvgLength == old(sensitiveWordAvgLength)
      ensures loadedTexts == old(loadedTexts) + [text]
    {
      sensitiveWordRepository := new DefaultSensitiveWordRepository();
      loadedTexts := loadedTexts + [text];
    }

    /** `buildStopCharRepository(text)`: a new repository, filled from `text`. */
    method BuildStopCharRepository(text: string)
      modifies this
      ensures stopCharRepository != null && fresh(stopCharRepository)
      ensures sensitiveWordRepository == old(sensitiveWordRepository) && sensitiveWordAvgLength == old(sensitiveWordAvgLength)
      ensures loadedTexts == old(loadedTexts) + [text]
    {
      stopCharRepository := new DefaultStopCharRepository();
      loadedTexts := loadedTexts + [text];
    }

    /** `build`: with both repositories set, a filter over exactly those and nothing rebuilt;
        otherwise the default-repository path. */
    method Build() returns (f: DefaultSensitiveWordFilter)
      modifies this
      ensures fresh(f) && f.greedy && f.replaceChar == DefaultReplaceChar
      ensures f.sensitiveWordRepository == sensitiveWordRepository && f.stopCharRepository == stopCharRepository
      ensures old(sensitiveWordRepository) != null ==> sensitiveWordRepository == old(sensitiveWordRepository)
      ensures old(sensitiveWordRepository) == null ==> fresh(sensitiveWordRepository)
      ensures old(stopCharRepository) != null ==> stopCharRepository == old(stopCharRepository)
      ensures old(stopCharRepository) == null ==> fresh(stopCharRepository)
      ensures sensitiveWordAvgLength == old(sensitiveWordAvgLength)
      ensures loadedTexts == old(loadedTexts)
        + (if old(sensitiveWordRepository) == null then [DefaultSensitiveWordText] else [])
        + (if old(stopCharRepository) == null then [DefaultStopCharText] else [])
    {
      if sensitiveWordRepository != null && stopCharRepository != null {
        f := new DefaultSensitiveWordFilter.WithRepositories(sensitiveWordRepository, stopCharRepository);
      } else {
        f := BuildDefaultRepositorySensitiveWordFilter();
      }
    }

    /** `buildDefaultRepositorySensitiveWordFilter`: build only the missing repositories, each
        from its default text, then a filter over both. */
    method BuildDefaultRepositorySensitiveWordFilter() returns (f: DefaultSensitiveWordFilter)
      modifies this
      ensures fresh(f) && f.greedy && f.replaceChar == DefaultReplaceChar
      ensures f.sensitiveWordRepository == sensitiveWordRepository && f.stopCharRepository == stopCharRepository
      ensures old(sensitiveWordRepository) != null ==> sensitiveWordRepository == old(sensitiveWordRepository)
      ensures old(sensitiveWordRepository) == null ==> fresh(sensitiveWordRepository)
      ensures old(stopCharRepository) != null ==> stopCharRepository == old(stopCharRepository)
      ensures old(stopCharRepository) == null ==> fresh(stopCharRepository)
      ensures sensitiveWordAvgLength == old(sensitiveWordAvgLength)
      ensures loadedTexts == old(loadedTexts)
        + (if old(sensitiveWordRepository) == null then [DefaultSensitiveWordText] else [])
        + (if old(stopCharRepository) == null then [DefaultStopCharText] else [])
    {
      if sensitiveWordRepository == null {
        BuildSensitiveWordRepository(DefaultSensitiveWordText);
      }
      if stopCharRepository == null {
        BuildStopCharRepository(DefaultStopCharText);
      }
      f := new DefaultSensitiveWordFilter.WithRepositories(sensitiveWordRepository, stopCharRepository);
    }
  }
}
