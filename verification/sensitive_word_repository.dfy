/** `DefaultSensitiveWordRepository`: the sensitive-word tree and its word counter. */
module WordRepository {
  import opened Wrappers
  import opened JavaText
  import opened SensitiveWordTrie

  /** `addSensitiveWord` on the (tree, size) pair: a null or blank word changes nothing; otherwise
      the trimmed word is inserted and the counter grows when its end flag was not yet set. */
  function AfterAdd(root: Level, size: int, word: Option<string>): (Level, int) {
    if IsBlank(word) then (root, size)
    else
      var w := Trim(word.value);
      (Insert(root, w), if Contains(root, w) then size else size + 1)
  }

  /** `removeSensitiveWord` on the (tree, size) pair, with the same guard and trimming. */
  function AfterRemove(root: Level, size: int, word: Option<string>): (Level, int) {
    if IsBlank(word) then (root, size)
    else
      var (root', decrement) := Remove(root, Trim(word.value));
      (root', if decrement then size - 1 else size)
  }

  /** Adding: blank words are ignored; otherwise afterwards the trimmed word is a sensitive word,
      every old word still is, nothing else became one, and the counter grows by one exactly when
      the word was new. Re-adding a present word changes nothing at all. */
  lemma AddSemantics(root: Level, size: int, word: Option<string>)
    ensures IsBlank(word) ==> AfterAdd(root, size, word) == (root, size)
    ensures !IsBlank(word) ==>
      var w := Trim(word.value);
      var (root', size') := AfterAdd(root, size, word);
      && (forall v :: Contains(root', v) <==> Contains(root, v) || v == w)
      && (size' == size + 1 <==> !Contains(root, w))
      && (size' == size || size' == size + 1)
      && (Contains(root, w) ==> root' == root)
  {
    if !IsBlank(word) {
      var w := Trim(word.value);
      forall v ensures Contains(Insert(root, w), v) <==> Contains(root, v) || v == w {
        InsertContains(root, w, v);
      }
      if Contains(root, w) {
        InsertExisting(root, w);
      }
    }
  }

  /** Removing: blank words are ignored; a word whose path is missing changes nothing; a present
      word is deleted, no word is added, and the counter drops by one. */
  lemma RemoveSemantics(root: Level, size: int, word: Option<string>)
    ensures IsBlank(word) ==> AfterRemove(root, size, word) == (root, size)
    ensures !IsBlank(word) && !HasPath(root, Trim(word.value)) ==> AfterRemove(root, size, word) == (root, size)
    ensures !IsBlank(word) && Contains(root, Trim(word.value)) ==>
      var w := Trim(word.value);
      var (root', size') := AfterRemove(root, size, word);
      && !Contains(root', w)
      && (forall v :: Contains(root', v) ==> Contains(root, v))
      && size' == size - 1
  {
    if !IsBlank(word) && Contains(root, Trim(word.value)) {
      RemoveDeletesWord(root, Trim(word.value));
    }
  }

  class DefaultSensitiveWordRepository {
    /** `sensitiveWordMap`: the root level of the tree. */
    var root: Level
    /** `size`: the word counter. */
    var size: int

    constructor ()
      ensures root == map[] && size == 0
    {
      root := map[];
      size := 0;
    }

    method AddSensitiveWord(word: Option<string>)
      modifies this
      ensures (root, size) == AfterAdd(old(root), old(size), word)
    {
      BuildSensitiveWordMapTree(word, true);
    }

    method RemoveSensitiveWord(word: Option<string>)
      modifies this
      ensures (root, size) == AfterRemove(old(root), old(size), word)
    {
      BuildSensitiveWordMapTree(word, false);
    }

    /** The shared guard: null, empty and whitespace-only words are ignored, others are trimmed. */
    method BuildSensitiveWordMapTree(word: Option<string>, addOrDelete: bool)
      modifies this
      ensures (root, size) == if addOrDelete then AfterAdd(old(root), old(size), word)
                              else AfterRemove(old(root), old(size), word)
    {
      if word.None? || word.value == [] || Trim(word.value) == [] {
        return;
      }
      var w := Trim(word.value);
      if addOrDelete {
        AddSensitiveWordToMapTree(w);
      } else {
        RemoveSensitiveWordFromMapTree(w);
      }
    }

    /** Walk down the existing part of `w`'s path to learn whether its last node is already a word
        end, then extend the path and set the flag; the counter grows only for a new word. */
    method AddSensitiveWordToMapTree(w: string)
      requires |w| >= 1
      modifies this
      ensures root == Insert(old(root), w)
      ensures size == old(size) + (if Contains(old(root), w) then 0 else 1)
    {
      var level := root;
      var i := 0;
      while i < |w| - 1 && w[i] in level
        invariant 0 <= i <= |w| - 1
        invariant root == old(root) && size == old(size)
        invariant HasPath(root, w[..i]) && level == ChildrenAt(root, w[..i])
      {
        Extend(root, w[..i], w[i]);
        assert w[..i + 1] == w[..i] + [w[i]];
        level := level[w[i]].children;
        i := i + 1;
      }
      Extend(root, w[..i], w[i]);
      assert w[..i + 1] == w[..i] + [w[i]];
      if i < |w| - 1 {
        if HasPath(root, w) {
          PrefixPath(root, w, i + 1);
        }
      } else {
        assert w[..i + 1] == w;
      }
      var alreadyEnd := i == |w| - 1 && w[i] in level && level[w[i]].end;
      assert alreadyEnd == Contains(root, w);
      root := Insert(root, w);
      if !alreadyEnd {
        size := size + 1;
      }
    }

    /** Walk `w`'s path, giving up as soon as a character is missing and recording in `isEndFlag`
        the last word end before the final character; then clear the flag or cut a branch as
        `Remove` describes, and decrement the counter. */
    method RemoveSensitiveWordFromMapTree(w: string)
      requires |w| >= 1
      modifies this
      ensures (root, size) == (Remove(old(root), w).0, if Remove(old(root), w).1 then old(size) - 1 else old(size))
    {
      var searchNode: Option<Trie> := None;
      var prev: Option<Trie> := None;
      var isEndFlag := 0;
      var i := 0;
      while i < |w|
        invariant 0 <= i <= |w|
        invariant root == old(root) && size == old(size)
        invariant HasPath(root, w[..i])
        invariant i == 0 ==> searchNode.None?
        invariant i >= 1 ==> searchNode == Some(NodeAt(root, w[..i]))
        invariant i >= 2 ==> HasPath(root, w[..i - 1]) && prev == Some(NodeAt(root, w[..i - 1]))
        invariant i < 2 ==> prev.None?
        invariant isEndFlag == EndFlag(root, w, i)
      {
        var level := if searchNode.None? then root else searchNode.value.children;
        WalkStep(root, w, i);
        prev := searchNode;
        if w[i] !in level {
          return;
        }
        searchNode := Some(level[w[i]]);
        if i < |w| - 1 && searchNode.value.end {
          isEndFlag := i + 1;
        }
        i := i + 1;
      }
      assert w[..|w|] == w;
      var n := |w|;
      var last := searchNode.value;
      if last.end {
        if last.children != map[] {
          root := SetEndAt(root, w, false);
        } else if prev.None? || prev.value.end {
          PrefixPath(root, w, n - 1);
          root := RemoveAt(root, w[..n - 1], w[n - 1]);
        } else if isEndFlag == 0 {
          PrefixPath(root, w, 1);
          var first := root[w[0]];
          if |first.children| >= 2 {
            root := RemoveAt(root, w[..1], w[1]);
          } else {
            root := RemoveAt(root, [], w[0]);
          }
        } else {
          PrefixPath(root, w, isEndFlag);
          root := RemoveAt(root, w[..isEndFlag], w[isEndFlag]);
        }
      }
      size := size - 1;
    }

    /** `sensitiveWordRepositorySize`. */
    function SensitiveWordRepositorySize(): int
      reads this
    {
      size
    }

    /** `getSensitiveWordRepository`. */
    function GetSensitiveWordRepository(): Level
      reads this
    {
      root
    }

    /** `getEndFlag`: the key of the end flag in every Java node. */
    function GetEndFlag(): string {
      "end"
    }
  }
}
