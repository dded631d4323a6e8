/** `DefaultStopCharRepository`: characters the matcher skips over, on top of Java whitespace. */
module StopChars {
  import opened JavaText

  /** A character is a stop char when it is whitespace or was added explicitly. */
  predicate IsStop(stopChars: set<char>, c: char) {
    IsWhitespace(c) || c in stopChars
  }

  class DefaultStopCharRepository {
    /** `stopChars`: the explicitly added characters. */
    var stopChars: set<char>

    constructor ()
      ensures stopChars == {}
    {
      stopChars := {};
    }

    /** `addStopChar`: afterwards `c` is a stop char; the count grows only for a new character. */
    method AddStopChar(c: char)
      modifies this
      ensures stopChars == old(stopChars) + {c}
      ensures IsStopChar(c)
      ensures StopCharRepositorySize() == old(StopCharRepositorySize()) + (if c in old(stopChars) then 0 else 1)
    {
      if c in stopChars {
        assert stopChars + {c} == stopChars;
      } else {
        assert |stopChars + {c}| == |stopChars| + 1;
      }
      stopChars := stopChars + {c};
    }

    /** `removeStopChar`: afterwards `c` is a stop char only if it is whitespace. */
    method RemoveStopChar(c: char)
      modifies this
      ensures stopChars == old(stopChars) - {c}
      ensures IsStopChar(c) <==> IsWhitespace(c)
      ensures StopCharRepositorySize() == old(StopCharRepositorySize()) - (if c in old(stopChars) then 1 else 0)
    {
      if c in stopChars {
        assert |stopChars - {c}| == |stopChars| - 1;
      } else {
        assert stopChars - {c} == stopChars;
      }
      stopChars := stopChars - {c};
    }

    /** `isStopChar`: whitespace is always a stop char, whatever the set holds; any other character
        is one exactly when it was added. */
    function IsStopChar(c: char): (r: bool)
      reads this
      ensures IsWhitespace(c) ==> r
      ensures !IsWhitespace(c) ==> (r <==> c in stopChars)
    {
      IsStop(stopChars, c)
    }

    /** `stopCharRepositorySize`: the number of distinct added characters. */
    function StopCharRepositorySize(): nat
      reads this
    {
      |stopChars|
    }
  }
}
