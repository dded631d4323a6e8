/** What `DefaultSensitiveWordFilter` computes, as functions over the tree, the content and the
    stop-char set: the length `getSensitiveWordLength` returns from one position, and the positions
    and substrings `checkSensitiveWords` reports. */
module SensitiveWordScan {
  import opened SensitiveWordTrie
  import opened JavaText
  import opened StopChars

  /** The content with its stop chars removed: the characters the tree is walked with. */
  function Strip(s: string, stops: set<char>): string {
    if s == [] then [] else (if IsStop(stops, s[0]) then [] else [s[0]]) + Strip(s[1..], stops)
  }

  /** The scan loop of `getSensitiveWordLength` from position `i`, with the tree cursor `level`,
      the count `start` of characters consumed so far and `flag` set once a word end was reached.
      A stop char is counted without moving the cursor; a character missing from the cursor ends
      the scan; a word end ends it in non-greedy mode. The result is `start` if `flag`, else 0. */
  function ScanFrom(level: Level, content: string, i: nat, stops: set<char>, greedy: bool, start: nat, flag: bool): (r: nat)
    requires i <= |content|
    requires flag ==> start > 0
    ensures r == 0 || start <= r <= start + (|content| - i)
    ensures flag ==> r >= start
    decreases |content| - i
  {
    if i == |content| then (if flag then start else 0)
    else if IsStop(stops, content[i]) then ScanFrom(level, content, i + 1, stops, greedy, start + 1, flag)
    else if content[i] !in level then (if flag then start else 0)
    else
      var node := level[content[i]];
      if node.end && !greedy then start + 1
      else ScanFrom(node.children, content, i + 1, stops, greedy, start + 1, flag || node.end)
  }

  /** `getSensitiveWordLength(map, content, length, begin, greedy)`: never more than what is left. */
  function MatchLength(m: Level, content: string, begin: nat, stops: set<char>, greedy: bool): (r: nat)
    requires begin <= |content|
    ensures r <= |content| - begin
  {
    ScanFrom(m, content, begin, stops, greedy, 0, false)
  }

  lemma StripCons(s: string, i: nat, j: nat, stops: set<char>)
    requires i < j <= |s|
    ensures Strip(s[i..j], stops) == (if IsStop(stops, s[i]) then [] else [s[i]]) + Strip(s[i + 1..j], stops)
  {
    assert s[i..j][0] == s[i] && s[i..j][1..] == s[i + 1..j];
  }

  /** The stretch `content[i..j]`, stop chars skipped, is a sensitive word below `level`. */
  predicate Word(level: Level, content: string, i: nat, j: nat, stops: set<char>)
    requires i <= j <= |content|
  {
    Contains(level, Strip(content[i..j], stops))
  }

  /** Some stretch starting at `i` is a sensitive word below `level`. */
  predicate WordFrom(level: Level, content: string, i: nat, stops: set<char>)
    requires i <= |content|
  {
    exists j :: i < j <= |content| && Word(level, content, i, j, stops)
  }

  /** A stop char at `i` is invisible to the tree. */
  lemma StopStep(level: Level, content: string, i: nat, stops: set<char>)
    requires i < |content| && IsStop(stops, content[i])
    ensures forall j :: i < j <= |content| ==> (Word(level, content, i, j, stops) <==> Word(level, content, i + 1, j, stops))
    ensures !Word(level, content, i, i + 1, stops)
  {
    forall j | i < j <= |content|
      ensures Strip(content[i..j], stops) == Strip(content[i + 1..j], stops)
    {
      StripCons(content, i, j, stops);
    }
    assert content[i + 1..i + 1] == [];
  }

  /** A character at `i` that is neither a stop char nor a key of `level` starts no word. */
  lemma MissStep(level: Level, content: string, i: nat, stops: set<char>)
    requires i < |content| && !IsStop(stops, content[i]) && content[i] !in level
    ensures forall j :: i < j <= |content| ==> !Word(level, content, i, j, stops)
  {
    forall j | i < j <= |content|
      ensures !Word(level, content, i, j, stops)
    {
      var t := Strip(content[i + 1..j], stops);
      StripCons(content, i, j, stops);
      assert ([content[i]] + t)[0] == content[i];
    }
  }

  /** A character at `i` found in `level` moves the walk to its node's children. */
  lemma CharStep(level: Level, content: string, i: nat, stops: set<char>)
    requires i < |content| && !IsStop(stops, content[i]) && content[i] in level
    ensures Word(level, content, i, i + 1, stops) == level[content[i]].end
    ensures forall j :: i < j <= |content| ==>
      (Word(level, content, i, j, stops) <==>
        (Strip(content[i + 1..j], stops) == [] && level[content[i]].end) || Word(level[content[i]].children, content, i + 1, j, stops))
  {
    var c := content[i];
    forall j | i < j <= |content|
      ensures Word(level, content, i, j, stops) <==>
        (Strip(content[i + 1..j], stops) == [] && level[c].end) || Word(level[c].children, content, i + 1, j, stops)
    {
      var t := Strip(content[i + 1..j], stops);
      StripCons(content, i, j, stops);
      var v := [c] + t;
      assert v[0] == c && v[1..] == t;
      if t == [] {
        ContainsSingle(level, v);
      } else {
        ContainsCons(level, v);
      }
    }
    assert content[i + 1..i + 1] == [];
  }

  /** A match is found from position `i` exactly when some stretch of content starting there,
      stop chars skipped, is a sensitive word below `level` (or a word end was already passed). */
  lemma {:induction false} ScanFindsMatch(level: Level, content: string, i: nat, stops: set<char>, greedy: bool, start: nat, flag: bool)
    requires i <= |content| && (flag ==> start > 0)
    ensures ScanFrom(level, content, i, stops, greedy, start, flag) > 0 <==> flag || WordFrom(level, content, i, stops)
    decreases |content| - i
  {
    if i < |content| {
      var c := content[i];
      if IsStop(stops, c) {
        ScanFindsMatch(level, content, i + 1, stops, greedy, start + 1, flag);
        StopStep(level, content, i, stops);
        if WordFrom(level, content, i, stops) {
          var j :| i < j <= |content| && Word(level, content, i, j, stops);
          assert Word(level, content, i + 1, j, stops);
        }
        if WordFrom(level, content, i + 1, stops) {
          var j :| i + 1 < j <= |content| && Word(level, content, i + 1, j, stops);
          assert Word(level, content, i, j, stops);
        }
      } else if c !in level {
        MissStep(level, content, i, stops);
      } else {
        var node := level[c];
        CharStep(level, content, i, stops);
        if node.end {
          assert Word(level, content, i, i + 1, stops);
        }
        if !(node.end && !greedy) {
          ScanFindsMatch(node.children, content, i + 1, stops, greedy, start + 1, flag || node.end);
          if WordFrom(level, content, i, stops) && !node.end {
            var j :| i < j <= |content| && Word(level, content, i, j, stops);
            assert Word(node.children, content, i + 1, j, stops);
          }
          if WordFrom(node.children, content, i + 1, stops) {
            var j :| i + 1 < j <= |content| && Word(node.children, content, i + 1, j, stops);
            assert Word(level, content, i, j, stops);
          }
        }
      }
    }
  }

  /** Soundness with a bound: a positive result from position `i` covers a stretch that is a
      sensitive word below `level`, unless a word end was already passed. */
  lemma {:induction false} ScanMatchWithin(level: Level, content: string, i: nat, stops: set<char>, greedy: bool, start: nat, flag: bool)
    requires i <= |content| && (flag ==> start > 0)
    requires ScanFrom(level, content, i, stops, greedy, start, flag) > 0
    ensures flag || exists j :: i < j <= i + (ScanFrom(level, content, i, stops, greedy, start, flag) - start)
                               && Word(level, content, i, j, stops)
    decreases |content| - i
  {
    var r := ScanFrom(level, content, i, stops, greedy, start, flag);
    if i < |content| && !flag {
      var c := content[i];
      if IsStop(stops, c) {
        ScanMatchWithin(level, content, i + 1, stops, greedy, start + 1, flag);
        var j :| i + 1 < j <= i + 1 + (r - start - 1) && Word(level, content, i + 1, j, stops);
        StopStep(level, content, i, stops);
        assert Word(level, content, i, j, stops);
      } else if c in level {
        var node := level[c];
        CharStep(level, content, i, stops);
        if node.end {
          assert Word(level, content, i, i + 1, stops);
        } else {
          ScanMatchWithin(node.children, content, i + 1, stops, greedy, start + 1, false);
          var j :| i + 1 < j <= i + 1 + (r - start - 1) && Word(node.children, content, i + 1, j, stops);
          assert Word(level, content, i, j, stops);
        }
      }
    }
  }

  /** The match found from `begin` exists exactly when a stretch starting there is a sensitive word
      once its stop chars are skipped, and it reaches at least to the end of one such stretch. */
  lemma MatchLengthMeaning(m: Level, content: string, begin: nat, stops: set<char>, greedy: bool)
    requires begin <= |content|
    ensures MatchLength(m, content, begin, stops, greedy) > 0 <==>
      exists j :: begin < j <= |content| && Contains(m, Strip(content[begin..j], stops))
    ensures MatchLength(m, content, begin, stops, greedy) > 0 ==>
      exists j :: begin < j <= begin + MatchLength(m, content, begin, stops, greedy) && Contains(m, Strip(content[begin..j], stops))
  {
    ScanFindsMatch(m, content, begin, stops, greedy, 0, false);
    forall j | begin < j <= |content|
      ensures Word(m, content, begin, j, stops) == Contains(m, Strip(content[begin..j], stops))
    {
    }
    if MatchLength(m, content, begin, stops, greedy) > 0 {
      ScanMatchWithin(m, content, begin, stops, greedy, 0, false);
      var j :| begin < j <= begin + MatchLength(m, content, begin, stops, greedy) && Word(m, content, begin, j, stops);
      assert Contains(m, Strip(content[begin..j], stops));
    }
  }

  /** Non-greedy mode, from position `i` below `level`: the scan ends on the first word end, so the
      consumed stretch is a word and no shorter stretch is. */
  lemma {:induction false} ScanNonGreedy(level: Level, content: string, i: nat, stops: set<char>, start: nat)
    requires i <= |content|
    requires ScanFrom(level, content, i, stops, false, start, false) > 0
    ensures var e := i + (ScanFrom(level, content, i, stops, false, start, false) - start);
      && i < e <= |content|
      && Word(level, content, i, e, stops)
      && forall j :: i < j < e ==> !Word(level, content, i, j, stops)
    decreases |content| - i
  {
    var r := ScanFrom(level, content, i, stops, false, start, false);
    var e := i + (r - start);
    var c := content[i];
    if IsStop(stops, c) {
      ScanNonGreedy(level, content, i + 1, stops, start + 1);
      StopStep(level, content, i, stops);
    } else {
      var node := level[c];
      CharStep(level, content, i, stops);
      if !node.end {
        ScanNonGreedy(node.children, content, i + 1, stops, start + 1);
      }
    }
  }

  /** `getSensitiveWordLength` in non-greedy mode returns the length of the shortest stretch from
      `begin` that is a sensitive word once stop chars are skipped, stop chars included. */
  lemma NonGreedyMatchIsShortestWord(m: Level, content: string, begin: nat, stops: set<char>)
    requires begin <= |content| && MatchLength(m, content, begin, stops, false) > 0
    ensures var e := begin + MatchLength(m, content, begin, stops, false);
      && Contains(m, Strip(content[begin..e], stops))
      && forall j :: begin < j < e ==> !Contains(m, Strip(content[begin..j], stops))
  {
    ScanNonGreedy(m, content, begin, stops, 0);
    var e := begin + MatchLength(m, content, begin, stops, false);
    forall j | begin < j < e
      ensures !Contains(m, Strip(content[begin..j], stops))
    {
      assert !Word(m, content, begin, j, stops);
    }
  }

  /** Greedy mode returns every character consumed, which can run past the last word end: with the
      words "a" and "abc", the content "abx" yields 2 although "ab" is not a sensitive word. */
  lemma GreedyCanOvershoot()
    ensures var m := Insert(Insert(map[], "a"), "abc");
      && MatchLength(m, "abx", 0, {}, true) == 2
      && Contains(m, "a") && !Contains(m, "ab")
  {
    var m := Insert(Insert(map[], "a"), "abc");
    var leafC := Node(true, map[]);
    var b := Node(false, map['c' := leafC]);
    var a := Node(true, map['b' := b]);
    assert "abc"[1..] == "bc" && "bc"[1..] == "c";
    assert Insert(map[], "a") == map['a' := Node(true, map[])];
    assert Insert(map[], "c") == map['c' := leafC];
    assert Insert(map[], "bc") == map['b' := b];
    assert m == map['a' := a];
    assert !IsWhitespace('a') && !IsWhitespace('b') && !IsWhitespace('x');
    var s := "abx";
    assert ScanFrom(map[], s, 2, {}, true, 2, true) == 2;
    assert ScanFrom(b.children, s, 2, {}, true, 2, true) == 2;
    assert ScanFrom(a.children, s, 1, {}, true, 1, true) == 2;
    assert "ab"[1..] == "b";
    ContainsCons(m, "ab");
    ContainsSingle(a.children, "b");
    ContainsSingle(m, "a");
  }

  // ---------------------------------------------------------------------------------------------
  // checkSensitiveWords

  /** A reported occurrence: its first position and its length. */
  datatype Span = Span(start: nat, len: nat)

  predicate Covers(sp: Span, p: nat) { sp.start <= p < sp.start + sp.len }

  /** The occurrences `checkSensitiveWords` reports from position `i` on: a match of length `len`
      at `i` is reported and scanning resumes at `i + len`; otherwise at `i + 1`. They lie inside
      the content (and in order, without overlap: `SpansOrdered`). */
  function Spans(m: Level, content: string, i: nat, stops: set<char>, greedy: bool): (r: seq<Span>)
    requires i <= |content|
    ensures InContent(content, r)
    decreases |content| - i
  {
    if i == |content| then []
    else
      var len := MatchLength(m, content, i, stops, greedy);
      if len > 0 then
        var rest := Spans(m, content, i + len, stops, greedy);
        var r := [Span(i, len)] + rest;
        assert forall k :: 1 <= k < |r| ==> r[k] == rest[k - 1];
        r
      else Spans(m, content, i + 1, stops, greedy)
  }

  predicate Uncovered(spans: seq<Span>, p: nat) {
    forall k :: 0 <= k < |spans| ==> !Covers(spans[k], p)
  }

  /** Each occurrence is exactly the match found at its start. */
  lemma {:induction false} SpanIsMatch(m: Level, content: string, i: nat, stops: set<char>, greedy: bool, k: nat)
    requires i <= |content| && k < |Spans(m, content, i, stops, greedy)|
    ensures var sp := Spans(m, content, i, stops, greedy)[k];
      sp.len == MatchLength(m, content, sp.start, stops, greedy)
    decreases |content| - i
  {
    var len := MatchLength(m, content, i, stops, greedy);
    if len > 0 {
      var rest := Spans(m, content, i + len, stops, greedy);
      var r := [Span(i, len)] + rest;
      assert Spans(m, content, i, stops, greedy) == r;
      if k > 0 {
        assert r[k] == rest[k - 1];
        SpanIsMatch(m, content, i + len, stops, greedy, k - 1);
      }
    } else {
      assert Spans(m, content, i, stops, greedy) == Spans(m, content, i + 1, stops, greedy);
      SpanIsMatch(m, content, i + 1, stops, greedy, k);
    }
  }

  /** Occurrence `k` starts at or after `i`, is not empty, and ends before occurrence `k + 1`
      starts: the occurrences are in order and never overlap. */
  lemma {:induction false} SpansOrdered(m: Level, content: string, i: nat, stops: set<char>, greedy: bool, k: nat)
    requires i <= |content| && k < |Spans(m, content, i, stops, greedy)|
    ensures var r := Spans(m, content, i, stops, greedy);
      i <= r[k].start && 0 < r[k].len && (k + 1 < |r| ==> r[k].start + r[k].len <= r[k + 1].start)
    decreases |content| - i
  {
    var len := MatchLength(m, content, i, stops, greedy);
    SpansStep(m, content, i, stops, greedy);
    if len > 0 {
      var rest := Spans(m, content, i + len, stops, greedy);
      var r := [Span(i, len)] + rest;
      if k == 0 {
        if |rest| > 0 {
          assert r[1] == rest[0];
          SpansOrdered(m, content, i + len, stops, greedy, 0);
        }
      } else {
        assert r[k] == rest[k - 1];
        if k + 1 < |r| {
          assert r[k + 1] == rest[k];
        }
        SpansOrdered(m, content, i + len, stops, greedy, k - 1);
      }
    } else {
      SpansOrdered(m, content, i + 1, stops, greedy, k);
    }
  }

  lemma UncoveredCons(sp: Span, rest: seq<Span>, p: nat)
    requires Uncovered([sp] + rest, p)
    ensures !Covers(sp, p) && Uncovered(rest, p)
  {
    var r := [sp] + rest;
    assert r[0] == sp;
    forall k | 0 <= k < |rest| ensures !Covers(rest[k], p) {
      assert rest[k] == r[k + 1];
    }
  }

  /** One step of `SpansMissNothing`: either `p` is `i` and nothing matched there, or scanning
      resumes at some `next` not past `p`, and `p` is still uncovered from there on. */
  lemma SpansMissStep(m: Level, content: string, i: nat, stops: set<char>, greedy: bool, p: nat)
    returns (done: bool, next: nat)
    requires i <= p < |content|
    requires Uncovered(Spans(m, content, i, stops, greedy), p)
    ensures done ==> MatchLength(m, content, p, stops, greedy) == 0
    ensures !done ==> i < next <= p && Uncovered(Spans(m, content, next, stops, greedy), p)
  {
    var len := MatchLength(m, content, i, stops, greedy);
    SpansStep(m, content, i, stops, greedy);
    if len > 0 {
      UncoveredCons(Span(i, len), Spans(m, content, i + len, stops, greedy), p);
      done, next := false, i + len;
    } else {
      done, next := p == i, i + 1;
    }
  }

  /** Every position from `i` on that no occurrence covers was tried and matched nothing. */
  lemma {:induction false} SpansMissNothing(m: Level, content: string, i: nat, stops: set<char>, greedy: bool, p: nat)
    requires i <= p < |content|
    requires Uncovered(Spans(m, content, i, stops, greedy), p)
    ensures MatchLength(m, content, p, stops, greedy) == 0
    decreases |content| - i
  {
    var done, next := SpansMissStep(m, content, i, stops, greedy, p);
    if !done {
      SpansMissNothing(m, content, next, stops, greedy, p);
    }
  }

  predicate InContent(content: string, spans: seq<Span>) {
    forall k :: 0 <= k < |spans| ==> spans[k].start + spans[k].len <= |content|
  }

  /** The substring an occurrence covers. */
  function SpanWord(content: string, sp: Span): string
    requires sp.start + sp.len <= |content|
  {
    content[sp.start..sp.start + sp.len]
  }

  /** The set of substrings the occurrences cover. */
  function SpanWords(content: string, spans: seq<Span>): set<string>
    requires InContent(content, spans)
  {
    if spans == [] then {}
    else
      assert InContent(content, spans[1..]) by {
        forall k | 0 <= k < |spans| - 1 ensures spans[1..][k] == spans[k + 1] { }
      }
      {SpanWord(content, spans[0])} + SpanWords(content, spans[1..])
  }

  /** Every string in the set has the shape of one of the occurrences. */
  lemma {:induction false} SpanWordsMembers(content: string, spans: seq<Span>, w: string) returns (k: nat)
    requires InContent(content, spans) && w in SpanWords(content, spans)
    ensures k < |spans| && w == SpanWord(content, spans[k])
    decreases |spans|
  {
    if w == SpanWord(content, spans[0]) {
      k := 0;
    } else {
      assert InContent(content, spans[1..]) by {
        forall i | 0 <= i < |spans| - 1 ensures spans[1..][i] == spans[i + 1] { }
      }
      var k' := SpanWordsMembers(content, spans[1..], w);
      assert spans[1..][k'] == spans[k' + 1];
      k := k' + 1;
    }
  }

  lemma InContentCons(content: string, sp: Span, rest: seq<Span>)
    requires sp.start + sp.len <= |content| && InContent(content, rest)
    ensures InContent(content, [sp] + rest)
  {
    var spans := [sp] + rest;
    forall k | 1 <= k < |spans| ensures spans[k].start + spans[k].len <= |content| {
      assert spans[k] == rest[k - 1];
    }
  }

  lemma SpanWordsCons(content: string, sp: Span, rest: seq<Span>)
    requires sp.start + sp.len <= |content| && InContent(content, rest)
    ensures InContent(content, [sp] + rest)
    ensures SpanWords(content, [sp] + rest) == {SpanWord(content, sp)} + SpanWords(content, rest)
  {
    assert ([sp] + rest)[1..] == rest;
    InContentCons(content, sp, rest);
  }

  lemma SpansStep(m: Level, content: string, i: nat, stops: set<char>, greedy: bool)
    requires i < |content|
    ensures var len := MatchLength(m, content, i, stops, greedy);
      Spans(m, content, i, stops, greedy)
      == if len > 0 then [Span(i, len)] + Spans(m, content, i + len, stops, greedy)
         else Spans(m, content, i + 1, stops, greedy)
  {
  }

  /** One step of `checkSensitiveWords` from position `i`: a positive match of length `len` adds
      its substring and scanning resumes after it. */
  lemma SpanWordsMatchStep(m: Level, content: string, i: nat, stops: set<char>, greedy: bool, len: nat)
    requires i < |content| && len == MatchLength(m, content, i, stops, greedy) && len > 0
    ensures SpanWords(content, Spans(m, content, i, stops, greedy))
      == {content[i..i + len]} + SpanWords(content, Spans(m, content, i + len, stops, greedy))
  {
    var rest := Spans(m, content, i + len, stops, greedy);
    SpansStep(m, content, i, stops, greedy);
    assert Spans(m, content, i, stops, greedy) == [Span(i, len)] + rest;
    SpanWordsCons(content, Span(i, len), rest);
  }

  /** Without a match at `i`, scanning resumes at the next position. */
  lemma SpanWordsMissStep(m: Level, content: string, i: nat, stops: set<char>, greedy: bool)
    requires i < |content| && MatchLength(m, content, i, stops, greedy) == 0
    ensures SpanWords(content, Spans(m, content, i, stops, greedy))
      == SpanWords(content, Spans(m, content, i + 1, stops, greedy))
  {
    SpansStep(m, content, i, stops, greedy);
  }

  /** The substrings `checkSensitiveWords` reports from position `i` on. */
  function WordsFrom(m: Level, content: string, i: nat, stops: set<char>, greedy: bool): set<string>
    requires i <= |content|
  {
    SpanWords(content, Spans(m, content, i, stops, greedy))
  }

  /** The invariant of `checkSensitiveWords`'s loop, `found == r + words from i on`, is kept by
      one step of the loop. */
  lemma CheckStep(m: Level, content: string, i: nat, stops: set<char>, greedy: bool, len: nat, r: set<string>, found: set<string>)
    requires i < |content| && len == MatchLength(m, content, i, stops, greedy)
    requires r + WordsFrom(m, content, i, stops, greedy) == found
    ensures len > 0 ==> (i + len <= |content|
      && (r + {content[i..i + len]}) + WordsFrom(m, content, i + len, stops, greedy) == found)
    ensures len == 0 ==> r + WordsFrom(m, content, i + 1, stops, greedy) == found
  {
    if len > 0 {
      SpanWordsMatchStep(m, content, i, stops, greedy, len);
    } else {
      SpanWordsMissStep(m, content, i, stops, greedy);
    }
  }

  /** The result of `checkSensitiveWords(content)`. */
  function FoundWords(m: Level, content: string, stops: set<char>, greedy: bool): set<string> {
    WordsFrom(m, content, 0, stops, greedy)
  }

  /** Each reported word is `content.substring(p, p + len)` for the match of length `len > 0` found
      at some position `p`. */
  lemma FoundWordOccurs(m: Level, content: string, stops: set<char>, greedy: bool, w: string) returns (sp: Span)
    requires w in FoundWords(m, content, stops, greedy)
    ensures sp.start + sp.len <= |content| && w == content[sp.start..sp.start + sp.len]
    ensures sp.len == MatchLength(m, content, sp.start, stops, greedy) > 0
  {
    var spans := Spans(m, content, 0, stops, greedy);
    var k := SpanWordsMembers(content, spans, w);
    SpanIsMatch(m, content, 0, stops, greedy, k);
    SpansOrdered(m, content, 0, stops, greedy, k);
    sp := spans[k];
  }

  /** ... and its first `j` characters, stop chars skipped, are a sensitive word. */
  lemma FoundWordsAreMatches(m: Level, content: string, stops: set<char>, greedy: bool, w: string) returns (j: nat)
    requires w in FoundWords(m, content, stops, greedy)
    ensures 0 < j <= |w| && Contains(m, Strip(w[..j], stops))
  {
    var sp := FoundWordOccurs(m, content, stops, greedy, w);
    var p := sp.start;
    MatchLengthMeaning(m, content, p, stops, greedy);
    var e :| p < e <= p + sp.len && Contains(m, Strip(content[p..e], stops));
    j := e - p;
    SlicePrefix(content, p, e, p + sp.len);
  }

  lemma SlicePrefix(s: string, a: nat, c: nat, b: nat)
    requires a <= c <= b <= |s|
    ensures s[a..b][..c - a] == s[a..c]
  {
  }
}
