/** Which pairs pruning and the removal of stale keys leave, and in which order; and what becomes of a node as such. */
module YamlOrder {
  import opened Text
  import opened YamlTree
  import opened YamlMerge
  import opened YamlStructure

  /** Places of keys, from left to right, none before `from`. */
  predicate InOrder(at: seq<nat>, from: nat, length: nat)
  {
    && (forall l :: 0 <= l < |at| ==> from <= at[l] && (at[l] - from) % 2 == 0 && at[l] + 1 < length)
    && (forall l, m :: 0 <= l < m < |at| ==> at[l] < at[m])
  }

  lemma OneInFront(at: seq<nat>, from: nat, length: nat)
    requires InOrder(at, from + 2, length) && from + 1 < length
    ensures InOrder([from] + at, from, length) && InOrder(at, from, length)
  {
    forall l | 0 <= l < |at| ensures from <= at[l] && (at[l] - from) % 2 == 0 {
      assert (at[l] - (from + 2)) % 2 == 0;
    }
  }

  // ---------------------------------------------------------------- pruning

  /** A pair that is written: its value is no default, and something is left of it. */
  predicate Written(path: Path, n: Tree, j: nat)
    requires n.Node?
  {
    j + 1 < |n.content| && n.content[j].Node? && n.content[j + 1].Node? && !Drops(path, n, j)
  }

  /** Pair `l` is the pair at `j` of `n`, its value pruned. */
  predicate PairAt(path: Path, r: seq<Tree>, l: nat, n: Tree, j: nat)
    requires n.Node?
  {
    && j + 1 < |n.content| && 2 * l + 1 < |r| && r[2 * l] == n.content[j]
    && r[2 * l + 1] == Prune(path + [n.content[j].Name()], n.content[j + 1])
  }

  lemma {:induction false} PairsInOrder(path: Path, n: Tree, i: nat) returns (at: seq<nat>)
    requires n.Node? && i <= |n.content|
    ensures InOrder(at, i, |n.content|) && |PrunePairs(path, n, i)| == 2 * |at|
    ensures forall l :: 0 <= l < |at| ==> PairAt(path, PrunePairs(path, n, i), l, n, at[l])
    ensures forall j: nat :: i <= j && (j - i) % 2 == 0 ==> (j in at <==> Written(path, n, j))
    decreases |n.content| - i
  {
    hide InOrder, PairAt, Written, PrunePairs;
    if i + 1 >= |n.content| {
      at := [];
      NoPairs(path, n, i);
      return;
    }
    var more := PairsInOrder(path, n, i + 2);
    OneInFront(more, i, |n.content|);
    FirstPair(path, n, i);
    if !Written(path, n, i) {
      at := more;
      Skipped(path, n, i, at);
    } else {
      at := [i] + more;
      Taken(path, n, i, more);
    }
  }

  lemma NoPairs(path: Path, n: Tree, i: nat)
    requires n.Node? && i <= |n.content| <= i + 1
    ensures InOrder([], i, |n.content|) && PrunePairs(path, n, i) == [] && forall j: nat :: i <= j ==> !Written(path, n, j)
  {
  }

  lemma FirstPair(path: Path, n: Tree, i: nat)
    requires n.Node? && i + 1 < |n.content|
    ensures PrunePairs(path, n, i) ==
      if Written(path, n, i) then [n.content[i], Prune(path + [n.content[i].Name()], n.content[i + 1])] + PrunePairs(path, n, i + 2)
      else PrunePairs(path, n, i + 2)
  {
    hide IsKnownDefault, Prune, IsEmptyCollection;
  }

  lemma Skipped(path: Path, n: Tree, i: nat, at: seq<nat>)
    requires n.Node? && !Written(path, n, i) && InOrder(at, i + 2, |n.content|)
    requires forall j: nat :: i + 2 <= j && (j - (i + 2)) % 2 == 0 ==> (j in at <==> Written(path, n, j))
    ensures forall j: nat :: i <= j && (j - i) % 2 == 0 ==> (j in at <==> Written(path, n, j))
  {
    hide Written;
    forall j: nat | i <= j && (j - i) % 2 == 0 ensures j in at <==> Written(path, n, j) {
      if j > i { assert (j - (i + 2)) % 2 == 0; }
    }
  }

  lemma Taken(path: Path, n: Tree, i: nat, more: seq<nat>)
    requires n.Node? && i + 1 < |n.content| && Written(path, n, i) && InOrder(more, i + 2, |n.content|)
    requires |PrunePairs(path, n, i + 2)| == 2 * |more|
    requires forall l :: 0 <= l < |more| ==> PairAt(path, PrunePairs(path, n, i + 2), l, n, more[l])
    requires forall j: nat :: i + 2 <= j && (j - (i + 2)) % 2 == 0 ==> (j in more <==> Written(path, n, j))
    ensures |PrunePairs(path, n, i)| == 2 * |[i] + more|
    ensures forall l :: 0 <= l < |[i] + more| ==> PairAt(path, PrunePairs(path, n, i), l, n, ([i] + more)[l])
    ensures forall j: nat :: i <= j && (j - i) % 2 == 0 ==> (j in [i] + more <==> Written(path, n, j))
  {
    hide Prune, PrunePairs, PairAt, Written;
    FirstPair(path, n, i);
    var at := [i] + more;
    OwnPairAt(path, n, i, PrunePairs(path, n, i + 2));
    forall l | 0 <= l < |at| ensures PairAt(path, PrunePairs(path, n, i), l, n, at[l]) {
      if l > 0 { LaterPairAt(path, n, i, PrunePairs(path, n, i + 2), l - 1, more[l - 1]); }
    }
    forall j: nat | i <= j && (j - i) % 2 == 0 ensures j in at <==> Written(path, n, j) {
      if j > i { assert (j - (i + 2)) % 2 == 0; }
      assert j in at <==> j == i || j in more;
    }
  }

  lemma OwnPairAt(path: Path, n: Tree, i: nat, rest: seq<Tree>)
    requires n.Node? && i + 1 < |n.content|
    ensures PairAt(path, [n.content[i], Prune(path + [n.content[i].Name()], n.content[i + 1])] + rest, 0, n, i)
  {
    hide Prune;
  }

  lemma LaterPairAt(path: Path, n: Tree, i: nat, rest: seq<Tree>, l: nat, j: nat)
    requires n.Node? && i + 1 < |n.content| && PairAt(path, rest, l, n, j)
    ensures PairAt(path, [n.content[i], Prune(path + [n.content[i].Name()], n.content[i + 1])] + rest, l + 1, n, j)
  {
    hide Prune;
  }

  /** A mapping that is new to the file is written pair by pair in its own order, every key node as it is: exactly the
      pairs whose value is no default and of whose value something is left, that value pruned in its turn. */
  lemma PruneKeepsOrder(path: Path, n: Tree) returns (at: seq<nat>)
    requires n.Is(Mapping)
    ensures InOrder(at, 0, |n.content|) && Prune(path, n) == n.(content := Prune(path, n).content) && |Prune(path, n).content| == 2 * |at|
    ensures forall l :: 0 <= l < |at| ==> PairAt(path, Prune(path, n).content, l, n, at[l])
    ensures forall j: nat :: j % 2 == 0 ==> (j in at <==> Written(path, n, j))
  {
    hide InOrder, PairAt, Written, Prune, PrunePairs;
    PruneMeans(path, n);
    at := PairsInOrder(path, n, 0);
  }

  /** A list that is new to the file keeps every element, each of them pruned. */
  lemma PruneKeepsElements(path: Path, n: Tree, i: nat)
    requires n.Is(Sequence) && i < |n.content|
    ensures Prune(path, n) == n.(content := Prune(path, n).content) && |Prune(path, n).content| == |n.content|
    ensures Prune(path, n).content[i] == Prune(path, n.content[i])
  {
  }

  // ---------------------------------------------------------------- stale keys

  /** Pair `l` is the pair at `j`, untouched. */
  predicate SameAt(r: seq<Tree>, l: nat, d: seq<Tree>, j: nat)
  {
    j + 1 < |d| && 2 * l + 1 < |r| && r[2 * l] == d[j] && r[2 * l + 1] == d[j + 1]
  }

  lemma {:induction false} KeptInOrder(d: seq<Tree>, s: seq<Tree>, i: nat) returns (at: seq<nat>)
    requires PairsOk(d) && i <= |d| && i % 2 == 0
    ensures InOrder(at, i, |d|) && |KeptPairs(d[i..], s)| == 2 * |at|
    ensures forall l :: 0 <= l < |at| ==> SameAt(KeptPairs(d[i..], s), l, d, at[l])
    ensures forall j: nat :: i <= j < |d| && j % 2 == 0 ==> (j in at <==> IsKept(s, d[j].Name()))
    decreases |d| - i
  {
    hide IsKept, KeptPairs, PairsOk, SameAt;
    PairsTail(d);
    if i == |d| {
      at := [];
      KeptOfNone(s);
      assert d[i..] == [];
      return;
    }
    KeyAt(d, i);
    var more := KeptInOrder(d, s, i + 2);
    OneInFront(more, i, |d|);
    KeptStep(d, s, i);
    if IsKept(s, d[i].Name()) {
      at := [i] + more;
      var rest := KeptPairs(d[i + 2..], s);
      forall l | 0 <= l < |at| ensures SameAt(KeptPairs(d[i..], s), l, d, at[l]) {
        KeptFurther(d, rest, i, more, l);
      }
    } else {
      at := more;
    }
  }

  lemma KeptOfNone(s: seq<Tree>)
    ensures KeptPairs([], s) == []
  {
  }

  lemma KeptStep(d: seq<Tree>, s: seq<Tree>, i: nat)
    requires i + 1 < |d| && d[i].Node?
    ensures KeptPairs(d[i..], s) == if IsKept(s, d[i].Name()) then [d[i], d[i + 1]] + KeptPairs(d[i + 2..], s) else KeptPairs(d[i + 2..], s)
  {
    hide IsKept;
    assert d[i..][..2] == [d[i], d[i + 1]] && d[i..][2..] == d[i + 2..];
  }

  lemma KeptFurther(d: seq<Tree>, rest: seq<Tree>, i: nat, more: seq<nat>, l: nat)
    requires i + 1 < |d| && l <= |more| && forall m :: 0 <= m < |more| ==> SameAt(rest, m, d, more[m])
    ensures SameAt([d[i], d[i + 1]] + rest, l, d, ([i] + more)[l])
  {
    if l > 0 { assert SameAt(rest, l - 1, d, more[l - 1]); }
  }

  /** Some key of the source reads so, and it is not blank. */
  ghost predicate InSource(s: seq<Tree>, trimmed: string)
  {
    trimmed != "" && exists i: nat :: i + 1 < |s| && i % 2 == 0 && s[i].Node? && Trim(s[i].value) == trimmed
  }

  /** What is left of a mapping once stale keys are removed: exactly the pairs whose key, blanks aside, is a key of the
      source that is not blank, untouched and in their order. */
  lemma PruneMissingKeepsOrder(d: Tree, s: Tree) returns (at: seq<nat>)
    requires d.Is(Mapping) && FileOk(d) && s.Is(Mapping)
    ensures InOrder(at, 0, |d.content|) && PruneMissing(d, s) == d.(content := PruneMissing(d, s).content)
    ensures |PruneMissing(d, s).content| == 2 * |at|
    ensures forall l :: 0 <= l < |at| ==> SameAt(PruneMissing(d, s).content, l, d.content, at[l])
    ensures forall j: nat :: j < |d.content| && j % 2 == 0 ==> (j in at <==> InSource(s.content, Trim(d.content[j].Name())))
  {
    hide InOrder, SameAt, KeptPairs, FileOk, PairsOk, IsKept, InSource;
    FileIsPairs(d);
    assert d.content[0..] == d.content;
    at := KeptInOrder(d.content, s.content, 0);
    forall j: nat | j < |d.content| && j % 2 == 0
      ensures j in at <==> InSource(s.content, Trim(d.content[j].Name()))
    {
      KeptMeans(s.content, d.content[j].Name());
    }
  }

  lemma KeptMeans(s: seq<Tree>, key: string)
    ensures IsKept(s, key) <==> InSource(s, Trim(key))
  {
    hide Trim;
  }

  // ---------------------------------------------------------------- nodes

  /** A node that becomes a mapping takes over tag and value, one that is a mapping keeps its own; comments stay. */
  lemma MappingNode(path: Path, dst: Tree, src: Tree)
    requires dst.Node? && src.Is(Mapping)
    ensures var r := MergeNode(path, dst, src);
      r.Is(Mapping) && r.trivia == dst.trivia && r.tag == (if dst.Is(Mapping) then dst.tag else src.tag)
      && r.value == if dst.Is(Mapping) then dst.value else src.value
  {
    hide MergePairs;
  }

  /** A scalar or an alias takes over kind, tag and value; the comments of the file stay. A node of no kind changes
      nothing. */
  lemma ScalarNode(path: Path, dst: Tree, src: Tree)
    requires dst.Node? && (src.Is(Scalar) || src.Is(Alias) || src.Is(Unset))
    ensures var r := MergeNode(path, dst, src);
      if src.Is(Unset) then r == dst
      else r.Node? && r.kind == src.kind && r.tag == src.tag && r.value == src.value && r.trivia == dst.trivia && r.content == dst.content
  {
  }
}
