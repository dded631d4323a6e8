/** `AbstractSensitiveWordFilter` and `DefaultSensitiveWordFilter`: a filter holding a word
    repository, a stop-char repository, the greedy switch and the replacement string. */
module WordFilter {
  import opened Wrappers
  import opened JavaText
  import opened SensitiveWordTrie
  import opened StopChars
  import opened SensitiveWordScan
  import opened WordRepository

  const DefaultReplaceChar: string := "*"

  /** `getSensitiveWordReplaceChar`: double the replacement string until it is at least `n` long.
      It never overshoots by a factor of two or more, and a long enough string is kept as is. */
  function DoubleUntil(s: string, n: int): (r: string)
    requires s != [] || n <= 0
    ensures |r| >= n
    ensures |s| >= n ==> r == s
    ensures |s| < n ==> |r| < 2 * n
    decreases n - |s|
  {
    if |s| >= n then s else DoubleUntil(s + s, n)
  }

  /** `s` doubled `k` times. */
  function Doubled(s: string, k: nat): string {
    if k == 0 then s else Doubled(s, k - 1) + Doubled(s, k - 1)
  }

  lemma {:induction false} DoubledOfDouble(s: string, k: nat)
    ensures Doubled(s + s, k) == Doubled(s, k + 1)
  {
    if k > 0 {
      DoubledOfDouble(s, k - 1);
    }
  }

  /** The padded replacement is the replacement doubled `k` times, for the least such `k` that
      reaches the length `n`. */
  lemma {:induction false} DoubleUntilDoubles(s: string, n: int) returns (k: nat)
    requires s != [] || n <= 0
    ensures DoubleUntil(s, n) == Doubled(s, k)
    ensures k > 0 ==> |Doubled(s, k - 1)| < n
    decreases n - |s|
  {
    if |s| >= n {
      k := 0;
    } else {
      var k' := DoubleUntilDoubles(s + s, n);
      DoubledOfDouble(s, k');
      if k' > 0 {
        DoubledOfDouble(s, k' - 1);
      }
      k := k' + 1;
    }
  }

  class DefaultSensitiveWordFilter {
    const sensitiveWordRepository: DefaultSensitiveWordRepository
    const stopCharRepository: DefaultStopCharRepository
    var greedy: bool
    var replaceChar: string

    /** The no-argument constructor: fresh, empty repositories, greedy, replacing with "*". */
    constructor ()
      ensures fresh(sensitiveWordRepository) && fresh(stopCharRepository)
      ensures sensitiveWordRepository.root == map[] && sensitiveWordRepository.size == 0
      ensures stopCharRepository.stopChars == {}
      ensures greedy && replaceChar == DefaultReplaceChar
    {
      sensitiveWordRepository := new DefaultSensitiveWordRepository();
      stopCharRepository := new DefaultStopCharRepository();
      greedy := true;
      replaceChar := DefaultReplaceChar;
    }

    constructor WithRepositories(words: DefaultSensitiveWordRepository, stops: DefaultStopCharRepository)
      ensures sensitiveWordRepository == words && stopCharRepository == stops
      ensures greedy && replaceChar == DefaultReplaceChar
    {
      sensitiveWordRepository := words;
      stopCharRepository := stops;
      greedy := true;
      replaceChar := DefaultReplaceChar;
    }

    constructor WithGreedy(words: DefaultSensitiveWordRepository, stops: DefaultStopCharRepository, greedy: bool)
      ensures sensitiveWordRepository == words && stopCharRepository == stops
      ensures this.greedy == greedy && replaceChar == DefaultReplaceChar
    {
      sensitiveWordRepository := words;
      stopCharRepository := stops;
      this.greedy := greedy;
      replaceChar := DefaultReplaceChar;
    }

    constructor WithReplaceChar(words: DefaultSensitiveWordRepository, stops: DefaultStopCharRepository, greedy: bool, replaceChar: string)
      ensures sensitiveWordRepository == words && stopCharRepository == stops
      ensures this.greedy == greedy && this.replaceChar == replaceChar
    {
      sensitiveWordRepository := words;
      stopCharRepository := stops;
      this.greedy := greedy;
      this.replaceChar := replaceChar;
    }

    /** `getSensitiveWords`: nothing for null or blank content, otherwise `checkSensitiveWords`. */
    method GetSensitiveWords(content: Option<string>) returns (r: set<string>)
      ensures IsBlank(content) ==> r == {}
      ensures !IsBlank(content) ==>
        r == FoundWords(sensitiveWordRepository.root, content.value, stopCharRepository.stopChars, greedy)
    {
      if content.None? || content.value == [] || Trim(content.value) == [] {
        return {};
      }
      r := CheckSensitiveWords(content.value);
    }

    /** `checkSensitiveWords`: try every position, record the substring a positive match covers and
        jump past it. The result is the set of substrings of the occurrences `Spans` lists. */
    method CheckSensitiveWords(content: string) returns (r: set<string>)
      ensures r == FoundWords(sensitiveWordRepository.root, content, stopCharRepository.stopChars, greedy)
    {
      var stops := stopCharRepository.stopChars;
      var mode := greedy;
      ghost var root := sensitiveWordRepository.root;
      ghost var found := FoundWords(root, content, stops, mode);
      r := {};
      var i := 0;
      while i < |content|
        invariant 0 <= i <= |content|
        invariant r + WordsFrom(root, content, i, stops, mode) == found
        decreases |content| - i
      {
        var searchMap := GetSensitiveWordRepository();
        var len := GetSensitiveWordLength(searchMap, content, i, mode);
        CheckStep(root, content, i, stops, mode, len, r, found);
        if len > 0 {
          r := r + {content[i..i + len]};
          i := i + len;
        } else {
          i := i + 1;
        }
      }
    }

    /** `getSensitiveWordLength`: walk the tree from `begin`, counting stop chars without moving,
        stopping at a missing character, and in non-greedy mode at the first word end. */
    method GetSensitiveWordLength(searchMap: Level, content: string, begin: nat, greedy: bool) returns (r: nat)
      requires begin <= |content|
      ensures r == MatchLength(searchMap, content, begin, stopCharRepository.stopChars, greedy)
    {
      var level := searchMap;
      var start := 0;
      var flag := false;
      var i := begin;
      while i < |content|
        invariant begin <= i <= |content| && start == i - begin
        invariant flag ==> start > 0
        invariant ScanFrom(level, content, i, stopCharRepository.stopChars, greedy, start, flag)
               == MatchLength(searchMap, content, begin, stopCharRepository.stopChars, greedy)
        decreases |content| - i
      {
        var keyChar := content[i];
        if IsStopChar(keyChar) {
          start := start + 1;
        } else if keyChar !in level {
          break;
        } else {
          var node := level[keyChar];
          level := node.children;
          start := start + 1;
          if node.end {
            flag := true;
            if !greedy {
              break;
            }
          }
        }
        i := i + 1;
      }
      r := if flag then start else 0;
    }

    /** `getSensitiveWordReplaceChar`: the replacement doubled until it covers `length`
        characters. An empty replacement would never grow, so it needs a non-positive length. */
    method GetSensitiveWordReplaceChar(length: int) returns (r: string)
      requires replaceChar != [] || length <= 0
      ensures r == DoubleUntil(replaceChar, length)
    {
      r := replaceChar;
      while |r| < length
        invariant r != [] || length <= 0
        invariant DoubleUntil(r, length) == DoubleUntil(replaceChar, length)
        decreases length - |r|
      {
        r := r + r;
      }
    }

    method AddSensitiveWord(word: Option<string>)
      modifies sensitiveWordRepository
      ensures (sensitiveWordRepository.root, sensitiveWordRepository.size)
           == AfterAdd(old(sensitiveWordRepository.root), old(sensitiveWordRepository.size), word)
    {
      sensitiveWordRepository.AddSensitiveWord(word);
    }

    method RemoveSensitiveWord(word: Option<string>)
      modifies sensitiveWordRepository
      ensures (sensitiveWordRepository.root, sensitiveWordRepository.size)
           == AfterRemove(old(sensitiveWordRepository.root), old(sensitiveWordRepository.size), word)
    {
      sensitiveWordRepository.RemoveSensitiveWord(word);
    }

    method AddStopChar(c: char)
      modifies stopCharRepository
      ensures stopCharRepository.stopChars == old(stopCharRepository.stopChars) + {c}
    {
      stopCharRepository.AddStopChar(c);
    }

    method RemoveStopChar(c: char)
      modifies stopCharRepository
      ensures stopCharRepository.stopChars == old(stopCharRepository.stopChars) - {c}
    {
      stopCharRepository.RemoveStopChar(c);
    }

    function GetSensitiveWordRepository(): Level
      reads sensitiveWordRepository
    {
      sensitiveWordRepository.GetSensitiveWordRepository()
    }

    function GetEndFlag(): string {
      sensitiveWordRepository.GetEndFlag()
    }

    function SensitiveWordRepositorySize(): int
      reads sensitiveWordRepository
    {
      sensitiveWordRepository.SensitiveWordRepositorySize()
    }

    function StopCharRepositorySize(): nat
      reads stopCharRepository
    {
      stopCharRepository.StopCharRepositorySize()
    }

    /** `isStopChar`, answered by the stop-char repository. */
    function IsStopChar(c: char): (r: bool)
      reads stopCharRepository
      ensures r <==> IsStop(stopCharRepository.stopChars, c)
    {
      stopCharRepository.IsStopChar(c)
    }

    method SetGreedy(greedy: bool)
      modifies this
      ensures this.greedy == greedy && replaceChar == old(replaceChar)
    {
      this.greedy := greedy;
    }

    function IsGreedy(): bool
      reads this
    {
      greedy
    }

    method SetReplaceChar(replaceChar: string)
      modifies this
      ensures this.replaceChar == replaceChar && greedy == old(greedy)
    {
      this.replaceChar := replaceChar;
    }

    function GetReplaceChar(): string
      reads this
    {
      replaceChar
    }
  }
}
