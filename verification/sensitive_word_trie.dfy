/** The sensitive-word tree of `DefaultSensitiveWordRepository`, as a value. In Java every node is a
    `HashMap` holding one entry per child character plus the `"end"` flag; the root holds child
    entries only. Here a node is `Node(end, children)` and the root is a bare `Level`. */
module SensitiveWordTrie {
  import opened Wrappers

  datatype Trie = Node(end: bool, children: map<char, Trie>)

  /** The child entries of one node (or of the root). */
  type Level = map<char, Trie>

  /** The characters of `p` can be followed from `m`. */
  predicate HasPath(m: Level, p: string)
    decreases |p|
  {
    |p| == 0 || (p[0] in m && HasPath(m[p[0]].children, p[1..]))
  }

  /** The child entries reached after following `p`. */
  function ChildrenAt(m: Level, p: string): Level
    requires HasPath(m, p)
    decreases |p|
  {
    if |p| == 0 then m else ChildrenAt(m[p[0]].children, p[1..])
  }

  /** The node reached after following a non-empty `p`. */
  function NodeAt(m: Level, p: string): Trie
    requires |p| >= 1 && HasPath(m, p)
    decreases |p|
  {
    if |p| == 1 then m[p[0]] else NodeAt(m[p[0]].children, p[1..])
  }

  /** `w` is a sensitive word: its path exists and ends on a node whose end flag is true. */
  predicate Contains(m: Level, w: string) {
    |w| >= 1 && HasPath(m, w) && NodeAt(m, w).end
  }

  predicate IsPrefix(a: string, b: string) { |a| <= |b| && b[..|a|] == a }

  /** Following one more character from the end of an existing path. */
  lemma {:induction false} Extend(m: Level, p: string, c: char)
    requires HasPath(m, p)
    ensures HasPath(m, p + [c]) <==> c in ChildrenAt(m, p)
    ensures c in ChildrenAt(m, p) ==>
      NodeAt(m, p + [c]) == ChildrenAt(m, p)[c] && ChildrenAt(m, p + [c]) == ChildrenAt(m, p)[c].children
    decreases |p|
  {
    if |p| == 0 {
      assert p + [c] == [c];
      assert [c][1..] == [];
    } else {
      assert (p + [c])[0] == p[0] && (p + [c])[1..] == p[1..] + [c];
      Extend(m[p[0]].children, p[1..], c);
    }
  }

  /** Every prefix of an existing path exists. */
  lemma {:induction false} PrefixPath(m: Level, p: string, k: nat)
    requires HasPath(m, p) && k <= |p|
    ensures HasPath(m, p[..k])
    decreases |p|
  {
    if k > 0 {
      assert p[..k][0] == p[0] && p[..k][1..] == p[1..][..k - 1];
      PrefixPath(m[p[0]].children, p[1..], k - 1);
    }
  }

  /** After a non-terminal node, a node's children are the next level. */
  lemma {:induction false} ChildrenOfNode(m: Level, p: string)
    requires |p| >= 1 && HasPath(m, p)
    ensures ChildrenAt(m, p) == NodeAt(m, p).children
    decreases |p|
  {
    if |p| > 1 {
      ChildrenOfNode(m[p[0]].children, p[1..]);
    }
  }

  /** Membership of a word of two or more characters, one level down. */
  lemma ContainsCons(m: Level, v: string)
    requires |v| >= 2
    ensures Contains(m, v) <==> v[0] in m && Contains(m[v[0]].children, v[1..])
  {
  }

  /** Membership of a one-character word. */
  lemma ContainsSingle(m: Level, v: string)
    requires |v| == 1
    ensures Contains(m, v) <==> v[0] in m && m[v[0]].end
  {
    if v[0] in m {
      assert |v[1..]| == 0;
      assert HasPath(m[v[0]].children, v[1..]);
      assert HasPath(m, v) && NodeAt(m, v) == m[v[0]];
    }
  }

  lemma PrefixCons(a: string, b: string)
    requires |a| >= 1 && |b| >= 1 && a[0] == b[0]
    ensures IsPrefix(a, b) <==> IsPrefix(a[1..], b[1..])
  {
    if IsPrefix(a[1..], b[1..]) {
      assert b[..|a|] == [b[0]] + b[1..][..|a| - 1];
      assert a == [a[0]] + a[1..];
    }
    if IsPrefix(a, b) {
      assert b[1..][..|a| - 1] == b[..|a|][1..];
    }
  }

  // ---------------------------------------------------------------------------------------------
  // addSensitiveWordToMapTree

  /** Adding `w` (non-empty): missing nodes along the path are created with end flag false, and the
      last node's end flag is set. */
  function Insert(m: Level, w: string): Level
    requires |w| >= 1
    decreases |w|
  {
    var child := if w[0] in m then m[w[0]] else Node(false, map[]);
    if |w| == 1 then m[w[0] := child.(end := true)]
    else m[w[0] := child.(children := Insert(child.children, w[1..]))]
  }

  /** After adding `w`, the sensitive words are the old ones plus `w`: no end flag is ever cleared. */
  lemma {:induction false} InsertContains(m: Level, w: string, v: string)
    requires |w| >= 1
    ensures Contains(Insert(m, w), v) <==> Contains(m, v) || v == w
    decreases |w|
  {
    var child := if w[0] in m then m[w[0]] else Node(false, map[]);
    var m' := Insert(m, w);
    if |v| == 0 || v[0] != w[0] {
      if |v| >= 1 {
        assert v != w;
        if |v| >= 2 {
          ContainsCons(m, v);
          ContainsCons(m', v);
        }
      }
    } else if |v| == 1 {
      ContainsSingle(m, v);
      ContainsSingle(m', v);
      if |w| >= 2 {
        assert v != w;
      } else {
        assert v == w;
      }
    } else {
      ContainsCons(m, v);
      ContainsCons(m', v);
      if |w| == 1 {
        assert v != w;
        assert !Contains(map[], v[1..]);
      } else {
        InsertContains(child.children, w[1..], v[1..]);
        assert v == w <==> v[1..] == w[1..] by {
          if v[1..] == w[1..] {
            assert v == [v[0]] + v[1..] && w == [w[0]] + w[1..];
          }
        }
        if w[0] !in m {
          assert !Contains(map[], v[1..]);
        }
      }
    }
  }

  /** Adding `w` creates paths only along `w`: a path exists afterwards iff it existed before or is
      a prefix of `w`. With `InsertContains`, the new nodes on proper prefixes have end flag false. */
  lemma {:induction false} InsertPaths(m: Level, w: string, p: string)
    requires |w| >= 1
    ensures HasPath(Insert(m, w), p) <==> HasPath(m, p) || IsPrefix(p, w)
    decreases |w|
  {
    var child := if w[0] in m then m[w[0]] else Node(false, map[]);
    if |p| >= 1 {
      if p[0] == w[0] {
        PrefixCons(p, w);
        if |w| == 1 {
          if |p| >= 2 && w[0] !in m {
            assert !HasPath(map[], p[1..]);
          }
        } else {
          InsertPaths(child.children, w[1..], p[1..]);
          if w[0] !in m && |p| >= 2 {
            assert !HasPath(map[], p[1..]);
          }
        }
      }
    }
  }

  /** Re-adding a word that is already present leaves the tree unchanged. */
  lemma {:induction false} InsertExisting(m: Level, w: string)
    requires Contains(m, w)
    ensures Insert(m, w) == m
    decreases |w|
  {
    if |w| == 1 {
      assert m[w[0]].(end := true) == m[w[0]];
    } else {
      InsertExisting(m[w[0]].children, w[1..]);
      assert m[w[0]].(children := m[w[0]].children) == m[w[0]];
    }
  }

  // ---------------------------------------------------------------------------------------------
  // removeSensitiveWordFromMapTree

  /** `node.put(END_FLAG, b)` on the node at the end of `p`. */
  function SetEndAt(m: Level, p: string, b: bool): Level
    requires |p| >= 1 && HasPath(m, p)
    decreases |p|
  {
    if |p| == 1 then m[p[0] := m[p[0]].(end := b)]
    else m[p[0] := m[p[0]].(children := SetEndAt(m[p[0]].children, p[1..], b))]
  }

  /** `node.remove(c)` on the node at the end of `p` (on the root when `p` is empty). */
  function RemoveAt(m: Level, p: string, c: char): Level
    requires HasPath(m, p)
    decreases |p|
  {
    if |p| == 0 then m - {c}
    else m[p[0] := m[p[0]].(children := RemoveAt(m[p[0]].children, p[1..], c))]
  }

  /** Clearing the end flag at `p` removes exactly the word `p`. */
  lemma {:induction false} SetEndAtContains(m: Level, p: string, v: string)
    requires |p| >= 1 && HasPath(m, p)
    ensures Contains(SetEndAt(m, p, false), v) <==> Contains(m, v) && v != p
    decreases |p|
  {
    var m' := SetEndAt(m, p, false);
    if |v| >= 1 && v[0] != p[0] {
      if |v| >= 2 {
        ContainsCons(m, v);
        ContainsCons(m', v);
      }
    } else if |v| == 1 {
      ContainsSingle(m, v);
      ContainsSingle(m', v);
      if |p| >= 2 { assert v != p; } else { assert v == p; }
    } else if |v| >= 2 {
      ContainsCons(m, v);
      ContainsCons(m', v);
      if |p| == 1 {
        assert v != p;
      } else {
        SetEndAtContains(m[p[0]].children, p[1..], v[1..]);
        assert v == p <==> v[1..] == p[1..] by {
          if v[1..] == p[1..] {
            assert v == [v[0]] + v[1..] && p == [p[0]] + p[1..];
          }
        }
      }
    }
  }

  /** Cutting the entry `c` below `p` removes exactly the words that start with `p + [c]`. */
  lemma {:induction false} RemoveAtContains(m: Level, p: string, c: char, v: string)
    requires HasPath(m, p)
    ensures Contains(RemoveAt(m, p, c), v) <==> Contains(m, v) && !IsPrefix(p + [c], v)
    decreases |p|
  {
    var m' := RemoveAt(m, p, c);
    if |p| == 0 {
      assert p + [c] == [c];
      if |v| >= 2 {
        ContainsCons(m, v);
        ContainsCons(m', v);
      }
    } else if |v| >= 1 && v[0] != p[0] {
      if |v| >= 2 {
        ContainsCons(m, v);
        ContainsCons(m', v);
      }
    } else if |v| == 1 {
      ContainsSingle(m, v);
      ContainsSingle(m', v);
      assert !IsPrefix(p + [c], v);
    } else if |v| >= 2 {
      ContainsCons(m, v);
      ContainsCons(m', v);
      RemoveAtContains(m[p[0]].children, p[1..], c, v[1..]);
      assert (p + [c])[0] == p[0] && (p + [c])[1..] == p[1..] + [c];
      PrefixCons(p + [c], v);
    }
  }

  /** Below a node without children the only word is the node's own. */
  lemma {:induction false} LeafHasNoLongerWords(m: Level, q: string, v: string)
    requires |q| >= 1 && HasPath(m, q) && NodeAt(m, q).children == map[]
    requires Contains(m, v) && IsPrefix(q, v)
    ensures v == q
    decreases |q|
  {
    assert v[0] == q[0];
    if |q| == 1 {
      if |v| >= 2 {
        ContainsCons(m, v);
        assert false;
      }
    } else {
      ContainsCons(m, v);
      PrefixCons(q, v);
      LeafHasNoLongerWords(m[q[0]].children, q[1..], v[1..]);
      assert v == [v[0]] + v[1..] && q == [q[0]] + q[1..];
    }
  }

  /** Java's `prev`: the node above the last one of `w`, or `None` when that is the root (whose
      `get("end")` is null). */
  function Parent(m: Level, w: string): (r: Option<Trie>)
    requires |w| >= 1 && HasPath(m, w)
    ensures r.None? <==> |w| == 1
    ensures r.Some? ==> HasPath(m, w[..|w| - 1]) && r.value == NodeAt(m, w[..|w| - 1])
  {
    if |w| == 1 then None
    else
      PrefixPath(m, w, |w| - 1);
      Some(NodeAt(m, w[..|w| - 1]))
  }

  /** Java's `isEndFlag` after the walk has followed `k` characters: `i + 1` for the last position
      `i < k` before the final character of `w` whose node has its end flag set, else 0. Being
      overwritten at every word end, it is the deepest proper prefix of `w` among the first `k`
      that is a word, and 0 means there is none. */
  function EndFlag(m: Level, w: string, k: nat): (r: nat)
    requires k <= |w| && HasPath(m, w[..k])
    ensures r <= k && (|w| >= 1 ==> r < |w|)
    ensures r > 0 ==> HasPath(m, w[..r]) && NodeAt(m, w[..r]).end
    ensures forall j :: r < j <= k && j < |w| ==> HasPath(m, w[..j]) && !NodeAt(m, w[..j]).end
    decreases k
  {
    if k == 0 then 0
    else if k < |w| && NodeAt(m, w[..k]).end then k
    else
      PrefixPath(m, w[..k], k - 1);
      assert w[..k][..k - 1] == w[..k - 1];
      EndFlag(m, w, k - 1)
  }

  /** One step of the walk along `w`'s path from the prefix of length `i`: the next node exists
      exactly when its character is among the current children, and then the recorded word end
      moves to it if it is a word end before the last character. A missing character means the
      whole path is missing. */
  lemma WalkStep(m: Level, w: string, i: nat)
    requires i < |w| && HasPath(m, w[..i])
    ensures i >= 1 ==> ChildrenAt(m, w[..i]) == NodeAt(m, w[..i]).children
    ensures HasPath(m, w[..i + 1]) <==> w[i] in ChildrenAt(m, w[..i])
    ensures w[i] !in ChildrenAt(m, w[..i]) ==> !HasPath(m, w)
    ensures w[i] in ChildrenAt(m, w[..i]) ==>
      && NodeAt(m, w[..i + 1]) == ChildrenAt(m, w[..i])[w[i]]
      && EndFlag(m, w, i + 1) == if i + 1 < |w| && NodeAt(m, w[..i + 1]).end then i + 1 else EndFlag(m, w, i)
  {
    if i >= 1 {
      ChildrenOfNode(m, w[..i]);
    }
    Extend(m, w[..i], w[i]);
    assert w[..i + 1] == w[..i] + [w[i]];
    if HasPath(m, w) {
      PrefixPath(m, w, i + 1);
    }
    if w[i] in ChildrenAt(m, w[..i]) {
      assert w[..i + 1][..i] == w[..i];
    }
  }

  /** `removeSensitiveWordFromMapTree` as written: the new tree, and whether `--size` runs.
      A missing path changes nothing; otherwise the counter is decremented, even when the final
      node is not the end of a word. */
  function Remove(m: Level, w: string): (r: (Level, bool))
    requires |w| >= 1
    ensures !HasPath(m, w) ==> r == (m, false)
    ensures HasPath(m, w) ==> r.1
    ensures HasPath(m, w) && !NodeAt(m, w).end ==> r.0 == m
  {
    if !HasPath(m, w) then (m, false)
    else
      var n := |w|;
      var last := NodeAt(m, w);
      if !last.end then (m, true)
      else if last.children != map[] then (SetEndAt(m, w, false), true)
      else
        var prev := Parent(m, w);
        PrefixPath(m, w, n - 1);
        if prev.None? || prev.value.end then (RemoveAt(m, w[..n - 1], w[n - 1]), true)
        else
          assert w[..n] == w;
          var k := EndFlag(m, w, n);
          if k == 0 then
            PrefixPath(m, w, 1);
            if |m[w[0]].children| >= 2 then (RemoveAt(m, w[..1], w[1]), true)
            else (RemoveAt(m, [], w[0]), true)
          else
            PrefixPath(m, w, k);
            (RemoveAt(m, w[..k], w[k]), true)
  }

  /** Removing a sensitive word always deletes it and never adds a word. */
  lemma RemoveDeletesWord(m: Level, w: string)
    requires Contains(m, w)
    ensures !Contains(Remove(m, w).0, w)
    ensures forall v :: Contains(Remove(m, w).0, v) ==> Contains(m, v)
  {
    var n := |w|;
    var last := NodeAt(m, w);
    var m' := Remove(m, w).0;
    if last.children != map[] {
      forall v { SetEndAtContains(m, w, v); }
    } else {
      var prev := Parent(m, w);
      PrefixPath(m, w, n - 1);
      if prev.None? || prev.value.end {
        assert w[..n - 1] + [w[n - 1]] == w;
        forall v { RemoveAtContains(m, w[..n - 1], w[n - 1], v); }
        RemoveAtContains(m, w[..n - 1], w[n - 1], w);
      } else {
        assert w[..n] == w;
        var k := EndFlag(m, w, n);
        if k == 0 {
          PrefixPath(m, w, 1);
          if |m[w[0]].children| >= 2 {
            assert w[..1] + [w[1]] == w[..2];
            forall v { RemoveAtContains(m, w[..1], w[1], v); }
          } else {
            assert [] + [w[0]] == w[..1];
            forall v { RemoveAtContains(m, [], w[0], v); }
          }
        } else {
          PrefixPath(m, w, k);
          assert w[..k] + [w[k]] == w[..k + 1];
          forall v { RemoveAtContains(m, w[..k], w[k], v); }
        }
      }
    }
  }

  /** When the last node has children, or its parent is the root or itself a word end, removal
      deletes exactly `w` and every other word survives. */
  lemma RemoveExact(m: Level, w: string, v: string)
    requires Contains(m, w)
    requires NodeAt(m, w).children != map[] || Parent(m, w).None? || Parent(m, w).value.end
    ensures Contains(Remove(m, w).0, v) <==> Contains(m, v) && v != w
  {
    if NodeAt(m, w).children != map[] {
      SetEndAtContains(m, w, v);
    } else {
      RemoveLeafExact(m, w, v);
    }
  }

  /** The leaf case of RemoveExact: the cut is right above the leaf, so only `w` goes. */
  lemma RemoveLeafExact(m: Level, w: string, v: string)
    requires Contains(m, w) && NodeAt(m, w).children == map[]
    requires Parent(m, w).None? || Parent(m, w).value.end
    ensures Contains(Remove(m, w).0, v) <==> Contains(m, v) && v != w
  {
    var n := |w|;
    PrefixPath(m, w, n - 1);
    assert w[..n - 1] + [w[n - 1]] == w;
    RemoveAtContains(m, w[..n - 1], w[n - 1], v);
    if Contains(m, v) && IsPrefix(w, v) {
      LeafHasNoLongerWords(m, w, v);
    }
  }

  /** The cut below the first node or the nearest word end can take other words with it: with the
      words "abc" and "abd", removing "abc" also loses "abd". */
  lemma RemoveCanLoseSiblingWord()
    ensures var m := Insert(Insert(map[], "abc"), "abd");
      Contains(m, "abd") && Contains(m, "abc") && !Contains(Remove(m, "abc").0, "abd")
  {
    var leafC := Node(true, map[]);
    var leafD := Node(true, map[]);
    assert "abc"[1..] == "bc" && "bc"[1..] == "c" && "abd"[1..] == "bd" && "bd"[1..] == "d";
    assert Insert(map[], "c") == map['c' := leafC];
    assert Insert(map[], "bc") == map['b' := Node(false, map['c' := leafC])];
    var m1 := map['a' := Node(false, map['b' := Node(false, map['c' := leafC])])];
    assert Insert(map[], "abc") == m1;
    var cd := map['c' := leafC, 'd' := leafD];
    assert Insert(map['c' := leafC], "d") == cd;
    var b := Node(false, cd);
    assert Insert(map['b' := Node(false, map['c' := leafC])], "bd") == map['b' := b];
    var a := Node(false, map['b' := b]);
    var m := map['a' := a];
    assert Insert(m1, "abd") == m;
    InsertContains(m1, "abd", "abd");
    InsertContains(m1, "abd", "abc");
    InsertContains(map[], "abc", "abc");
    var w := "abc";
    assert w[..2] == "ab" && w[..1] == "a";
    assert HasPath(m, w) && NodeAt(m, w) == leafC;
    assert NodeAt(m, w[..2]) == b;
    assert Parent(m, w) == Some(b);
    assert w[..3] == w;
    assert NodeAt(m, w[..1]) == a;
    assert EndFlag(m, w, 3) == 0;
    assert Remove(m, w).0 == map[];
  }
}
