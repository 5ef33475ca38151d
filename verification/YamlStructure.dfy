/** What the merge keeps of the file and what it takes out or leaves out: order, comments, reuse
    of sequence elements, stale keys. */
module YamlStructure {
  import opened Text
  import opened YamlTree
  import opened YamlMerge

  // ---------------------------------------------------------------- order of keys

  /** The pairs a merge appends: the source's own, in source order, for keys the mapping lacks,
      unless what pruning leaves of the value is a default. */
  function Added(path: Path, d: seq<Tree>, s: Tree, i: nat): seq<Tree>
    requires s.Node? && i <= |s.content|
    decreases |s.content| - i
  {
    if i + 1 >= |s.content| then []
    else
      var child := path + [s.content[i].Name()];
      var candidate := Prune(child, s.content[i + 1]);
      var rest := Added(path, d, s, i + 2);
      if HasKey(d, s.content[i].Name()) || IsKnownDefault(child, candidate) then rest else [s.content[i], candidate] + rest
  }

  lemma {:induction false} AddedDependsOnKeys(path: Path, d: seq<Tree>, e: seq<Tree>, s: Tree, i: nat)
    requires s.Node? && i <= |s.content| && i % 2 == 0
    requires forall l :: i <= l < |s.content| && l % 2 == 0 ==> (HasKey(d, s.content[l].Name()) <==> HasKey(e, s.content[l].Name()))
    ensures Added(path, d, s, i) == Added(path, e, s, i)
    decreases |s.content| - i
  {
    hide IsKnownDefault, Prune, HasKey;
    if i + 1 < |s.content| {
      AddedDependsOnKeys(path, d, e, s, i + 2);
    }
  }

  /** What stands at position `j + 1` once the pairs of `s` from `i` on are merged: if `j` is the first place
      of its key and the source has that key, the old value merged once with the source's; else the old value. */
  function Final(path: Path, d: seq<Tree>, s: Tree, i: nat, j: nat): Tree
    requires s.Node? && i <= |s.content| && j + 1 < |d|
  {
    var key := d[j].Name();
    if KeyIndex(d, key) == j && HasKey(s.content[i..], key) then MergeNode(path + [key], d[j + 1], ValueOf(s.content[i..], key))
    else d[j + 1]
  }

  /** Key `j` stays where it is, its value becomes the final one. */
  predicate PairGrown(path: Path, d: seq<Tree>, r: seq<Tree>, s: Tree, i: nat, j: nat)
    requires s.Node? && i <= |s.content| && j + 1 < |d| <= |r|
  {
    r[j] == d[j] && r[j + 1] == Final(path, d, s, i, j)
  }

  /** `r` is `d` with every value final, followed by the added pairs. */
  ghost predicate Grown(path: Path, d: seq<Tree>, r: seq<Tree>, s: Tree, i: nat)
    requires s.Node? && i <= |s.content|
  {
    && |d| % 2 == 0 && |d| <= |r| && r[|d|..] == Added(path, d, s, i)
    && (forall j :: 0 <= j < |d| && j % 2 == 0 ==> PairGrown(path, d, r, s, i, j))
  }

  lemma SourceKeys(s: Tree, i: nat, key: string)
    requires s.Is(Mapping) && SourceOk(s) && i < |s.content| && i % 2 == 0
    ensures i + 1 < |s.content| && s.content[i].Node?
    ensures s.content[i].Name() != key ==> (HasKey(s.content[i..], key) <==> HasKey(s.content[i + 2..], key))
    ensures s.content[i].Name() != key && HasKey(s.content[i..], key) ==> ValueOf(s.content[i..], key) == ValueOf(s.content[i + 2..], key)
    ensures s.content[i].Name() == key ==> HasKey(s.content[i..], key) && ValueOf(s.content[i..], key) == s.content[i + 1]
    ensures s.content[i].Name() == key ==> !HasKey(s.content[i + 2..], key)
  {
    hide SourceOk, KeysOk, KeyIndex;
    SourcePair(s, i);
    LaterKeys(s, i);
    var rest := s.content[i + 2..];
    assert s.content[i..] == [s.content[i], s.content[i + 1]] + rest;
    ConsKey(s.content[i], s.content[i + 1], rest, key);
    if s.content[i].Name() == key {
      assert forall l :: 0 <= l < |rest| - 1 && l % 2 == 0 ==> rest[l] == s.content[i + 2 + l];
      KeyIndexNone(rest, key);
    }
  }

  lemma FinalAfterUpdate(path: Path, d: seq<Tree>, s: Tree, i: nat, j: nat)
    requires PairsOk(d) && s.Is(Mapping) && SourceOk(s) && i < |s.content| && i % 2 == 0 && HasKey(d, s.content[i].Name())
    requires j < |d| && j % 2 == 0
    ensures |MergePair(path, d, s, i)| == |d| && MergePair(path, d, s, i)[j] == d[j]
    ensures Final(path, MergePair(path, d, s, i), s, i + 2, j) == Final(path, d, s, i, j)
  {
    hide MergeNode, SourceOk, PairsOk, KeyIndex, MergePair;
    PairsTail(d);
    var mine, key := s.content[i].Name(), d[j].Name();
    SourceKeys(s, i, key);
    KeyIndexEven(d, mine);
    var k := KeyIndex(d, mine);
    var v := MergeNode(path + [mine], d[k + 1], s.content[i + 1]);
    ExistingPair(path, d, s, i);
    UpdateKeepsKeys(d, k, v, key);
    KeyFound(d, mine);
    assert KeyIndex(d, key) == j ==> (key == mine <==> j == k);
  }

  lemma ExistingPair(path: Path, d: seq<Tree>, s: Tree, i: nat)
    requires s.Node? && i + 1 < |s.content| && HasKey(d, s.content[i].Name())
    ensures var key := s.content[i].Name();
      MergePair(path, d, s, i) == d[KeyIndex(d, key) + 1 := MergeNode(path + [key], ValueOf(d, key), s.content[i + 1])]
  {
    hide MergeNode, KeyIndex, Prune, IsKnownDefault;
  }

  lemma KeyFound(d: seq<Tree>, key: string)
    requires HasKey(d, key)
    ensures d[KeyIndex(d, key)].Name() == key
  {
  }

  lemma KeyAt(d: seq<Tree>, j: nat)
    requires PairsOk(d) && j < |d| && j % 2 == 0
    ensures d[j].Node? && j + 1 < |d| && FileOk(d[j + 1])
  {
  }

  lemma FinalAfterAppend(path: Path, d: seq<Tree>, e: seq<Tree>, v: Tree, s: Tree, i: nat, j: nat)
    requires PairsOk(d) && s.Is(Mapping) && SourceOk(s) && i < |s.content| && i % 2 == 0 && !HasKey(d, s.content[i].Name())
    requires j < |d| && j % 2 == 0 && (e == d || e == d + [s.content[i], v])
    ensures Final(path, e, s, i + 2, j) == Final(path, d, s, i, j)
  {
    hide MergeNode, SourceOk, PairsOk, KeyIndex;
    PairsTail(d);
    KeyAt(d, j);
    var mine, key := s.content[i].Name(), d[j].Name();
    SourceKeys(s, i, key);
    KeyIndexFirst(d, key, j);
    AppendKeepsKeys(d, s.content[i], v, key);
  }

  lemma GrowExisting(path: Path, d: seq<Tree>, r: seq<Tree>, s: Tree, i: nat)
    requires PairsOk(d) && s.Is(Mapping) && SourceOk(s) && i < |s.content| && i % 2 == 0 && HasKey(d, s.content[i].Name())
    requires Grown(path, MergePair(path, d, s, i), r, s, i + 2)
    ensures Grown(path, d, r, s, i)
  {
    hide MergeNode, SourceOk, KeysOk, PairsOk, MergePair, KeyIndex, Added, Final;
    SourcePair(s, i);
    LaterKeys(s, i);
    PairsTail(d);
    var e := MergePair(path, d, s, i);
    ExistingPair(path, d, s, i);
    assert |e| == |d|;
    forall l | i + 2 <= l < |s.content| && l % 2 == 0 ensures HasKey(d, s.content[l].Name()) <==> HasKey(e, s.content[l].Name()) {
      OtherPairs(path, d, s, i, s.content[l].value);
    }
    AddedDependsOnKeys(path, d, e, s, i + 2);
    AddedMeans(path, d, s, i);
    forall j | 0 <= j < |d| && j % 2 == 0 ensures PairGrown(path, d, r, s, i, j) {
      FinalAfterUpdate(path, d, s, i, j);
      assert PairGrown(path, e, r, s, i + 2, j);
    }
  }

  lemma GrowSkipped(path: Path, d: seq<Tree>, r: seq<Tree>, s: Tree, i: nat)
    requires PairsOk(d) && s.Is(Mapping) && SourceOk(s) && i < |s.content| && i % 2 == 0 && !HasKey(d, s.content[i].Name())
    requires Added(path, d, s, i) == Added(path, d, s, i + 2)
    requires i + 2 <= |s.content| && Grown(path, d, r, s, i + 2)
    ensures Grown(path, d, r, s, i)
  {
    hide SourceOk, Final, PairsOk, Added, HasKey;
    forall j | 0 <= j < |d| && j % 2 == 0 ensures PairGrown(path, d, r, s, i, j) {
      FinalAfterAppend(path, d, d, Null, s, i, j);
      assert PairGrown(path, d, r, s, i + 2, j);
    }
  }

  lemma GrowAppended(path: Path, d: seq<Tree>, v: Tree, r: seq<Tree>, s: Tree, i: nat)
    requires PairsOk(d) && s.Is(Mapping) && SourceOk(s) && i < |s.content| && i % 2 == 0 && !HasKey(d, s.content[i].Name())
    requires Added(path, d, s, i) == [s.content[i], v] + Added(path, d, s, i + 2)
    requires Grown(path, d + [s.content[i], v], r, s, i + 2)
    ensures Grown(path, d, r, s, i)
  {
    hide SourceOk, Final, PairsOk, Added, HasKey;
    var e := d + [s.content[i], v];
    AddedAfterAppend(path, d, v, s, i);
    PairsTail(d);
    assert PairGrown(path, e, r, s, i + 2, |d|);
    AppendedValue(path, d, v, s, i);
    assert r[|d|..] == [r[|d|], r[|d| + 1]] + r[|e|..];
    forall j | 0 <= j < |d| && j % 2 == 0 ensures PairGrown(path, d, r, s, i, j) {
      FinalAfterAppend(path, d, e, v, s, i, j);
      assert PairGrown(path, e, r, s, i + 2, j);
    }
  }

  lemma AddedAfterAppend(path: Path, d: seq<Tree>, v: Tree, s: Tree, i: nat)
    requires PairsOk(d) && s.Is(Mapping) && SourceOk(s) && i < |s.content| && i % 2 == 0
    ensures i + 2 <= |s.content| && Added(path, d, s, i + 2) == Added(path, d + [s.content[i], v], s, i + 2)
  {
    hide SourceOk, KeysOk, PairsOk, Added, KeyIndex;
    var e := d + [s.content[i], v];
    SourcePair(s, i);
    LaterKeys(s, i);
    PairsTail(d);
    forall l | i + 2 <= l < |s.content| && l % 2 == 0 ensures HasKey(d, s.content[l].Name()) <==> HasKey(e, s.content[l].Name()) {
      AppendKeepsKeys(d, s.content[i], v, s.content[l].Name());
    }
    AddedDependsOnKeys(path, d, e, s, i + 2);
  }

  lemma AppendedValue(path: Path, d: seq<Tree>, v: Tree, s: Tree, i: nat)
    requires s.Is(Mapping) && SourceOk(s) && i < |s.content| && i % 2 == 0
    ensures i + 2 <= |s.content| && Final(path, d + [s.content[i], v], s, i + 2, |d|) == v
  {
    hide SourceOk, MergeNode, KeyIndex;
    SourceKeys(s, i, s.content[i].Name());
  }

  lemma AddedMeans(path: Path, d: seq<Tree>, s: Tree, i: nat)
    requires s.Node? && i + 1 < |s.content|
    ensures var child := path + [s.content[i].Name()];
      var candidate := Prune(child, s.content[i + 1]);
      Added(path, d, s, i) == if HasKey(d, s.content[i].Name()) || IsKnownDefault(child, candidate) then Added(path, d, s, i + 2)
        else [s.content[i], candidate] + Added(path, d, s, i + 2)
  {
    hide HasKey, IsKnownDefault, Prune;
  }

  lemma PairsGrow(path: Path, d: seq<Tree>, s: Tree, i: nat)
    requires PairsOk(d) && s.Is(Mapping) && SourceOk(s) && i <= |s.content| && i % 2 == 0
    ensures Grown(path, d, MergePairs(path, d, s, i), s, i)
    decreases |s.content| - i
  {
    hide Grown, SourceOk, KeysOk, PairsOk, IsKnownDefault, Prune, MergePair, Added, HasKey;
    SourceKeysOk(s);
    var r := MergePairs(path, d, s, i);
    if i < |s.content| {
      SourcePair(s, i);
      PairMerged(path, d, s, i);
      PairsGrow(path, MergePair(path, d, s, i), s, i + 2);
      var child := path + [s.content[i].Name()];
      var v := Prune(child, s.content[i + 1]);
      AddedMeans(path, d, s, i);
      if HasKey(d, s.content[i].Name()) {
        GrowExisting(path, d, r, s, i);
        return;
      }
      NewPair(path, d, s, i);
      if IsKnownDefault(child, v) {
        GrowSkipped(path, d, r, s, i);
      } else {
        GrowAppended(path, d, v, r, s, i);
      }
    } else {
      PairsTail(d);
      GrownNot(path, d, s);
    }
  }

  lemma NewPair(path: Path, d: seq<Tree>, s: Tree, i: nat)
    requires s.Node? && i + 1 < |s.content| && !HasKey(d, s.content[i].Name())
    ensures var child := path + [s.content[i].Name()];
      var candidate := Prune(child, s.content[i + 1]);
      MergePair(path, d, s, i) == if IsKnownDefault(child, candidate) then d else d + [s.content[i], candidate]
  {
    hide MergeNode, KeyIndex, Prune, IsKnownDefault;
  }

  lemma GrownNot(path: Path, d: seq<Tree>, s: Tree)
    requires s.Node? && |d| % 2 == 0
    ensures Grown(path, d, d, s, |s.content|)
  {
    hide MergeNode;
  }

  lemma AreNodes(dst: Tree, src: Tree)
    requires FileOk(dst) && SourceOk(src)
    ensures dst.Node? && src.Node?
  {
  }

  lemma FileIsPairs(t: Tree)
    requires FileOk(t) && t.Is(Mapping)
    ensures PairsOk(t.content)
  {
  }

  /** Order: the merged mapping begins with every key node it had, each in its place with its comments
      and its value merged exactly once if the source has the key and left alone if not, and ends with
      exactly the new pairs that are not defaults, in source order. */
  lemma MergeKeepsOrder(path: Path, dst: Tree, src: Tree)
    requires FileOk(dst) && SourceOk(src) && dst.kind == Mapping && src.kind == Mapping
    ensures |dst.content| % 2 == 0
    ensures var d, r := dst.content, MergeNode(path, dst, src).content;
      && |d| <= |r| && r[|d|..] == Added(path, d, src, 0)
      && (forall j :: 0 <= j < |d| && j % 2 == 0 ==> PairGrown(path, d, r, src, 0, j))
  {
    hide SourceOk, FileOk, PairsOk, Final, MergeNode, MergeMapping, MergePairs, Added;
    AreNodes(dst, src);
    FileIsPairs(dst);
    PairsGrow(path, dst.content, src, 0);
    MergeNodeMeans(path, dst, src);
    MergeMappingMeans(path, dst, src);
  }

  /** Merging the pairs from `i` on leaves every key alone that is not among them. */
  lemma {:induction false} OthersMerged(path: Path, d: seq<Tree>, s: Tree, i: nat, key: string)
    requires PairsOk(d) && s.Is(Mapping) && SourceOk(s) && i <= |s.content| && i % 2 == 0
    requires forall l :: i <= l < |s.content| && l % 2 == 0 ==> s.content[l].Name() != key
    ensures HasKey(MergePairs(path, d, s, i), key) <==> HasKey(d, key)
    ensures HasKey(d, key) ==> ValueOf(MergePairs(path, d, s, i), key) == ValueOf(d, key)
    decreases |s.content| - i
  {
    hide MergePair, PairsOk, SourceOk, HasKey, KeyIndex, KeysOk;
    SourceKeysOk(s);
    if i < |s.content| {
      SourcePair(s, i);
      PairMerged(path, d, s, i);
      OtherPairs(path, d, s, i, key);
      OthersMerged(path, MergePair(path, d, s, i), s, i + 2, key);
    }
  }

  /** What a mapping holds under a key of the source once it is merged: the old value merged with the
      source's, or the pruned value if the key is new and that is no default. */
  predicate Looked(path: Path, d: seq<Tree>, m: seq<Tree>, key: string, value: Tree)
  {
    var child := path + [key];
    if HasKey(d, key) then HasKey(m, key) && ValueOf(m, key) == MergeNode(child, ValueOf(d, key), value)
    else if IsKnownDefault(child, Prune(child, value)) then !HasKey(m, key)
    else HasKey(m, key) && ValueOf(m, key) == Prune(child, value)
  }

  lemma OwnPair(path: Path, d: seq<Tree>, s: Tree, j: nat)
    requires PairsOk(d) && s.Is(Mapping) && SourceOk(s) && j < |s.content| && j % 2 == 0
    ensures j + 1 < |s.content| && Looked(path, d, MergePair(path, d, s, j), s.content[j].Name(), s.content[j + 1])
  {
    hide MergeNode, Prune, IsKnownDefault, SourceOk, FileOk, KeyIndex, PairsOk, MergePair;
    SourcePair(s, j);
    PairsTail(d);
    var key, value := s.content[j].Name(), s.content[j + 1];
    if HasKey(d, key) {
      ExistingPair(path, d, s, j);
      KeyFound(d, key);
      KeyIndexEven(d, key);
      UpdateKeepsKeys(d, KeyIndex(d, key), MergeNode(path + [key], ValueOf(d, key), value), key);
    } else {
      NewPair(path, d, s, j);
      AppendKeepsKeys(d, s.content[j], Prune(path + [key], value), key);
    }
  }

  lemma {:induction false} PairsLookup(path: Path, d: seq<Tree>, s: Tree, i: nat, j: nat)
    requires PairsOk(d) && s.Is(Mapping) && SourceOk(s) && i <= j < |s.content| && i % 2 == 0 == j % 2
    ensures j + 1 < |s.content| && Looked(path, d, MergePairs(path, d, s, i), s.content[j].Name(), s.content[j + 1])
    decreases |s.content| - i
  {
    hide MergePair, MergeNode, Prune, IsKnownDefault, PairsOk, SourceOk, KeyIndex, KeysOk, Looked;
    SourcePair(s, i);
    SourcePair(s, j);
    PairMerged(path, d, s, i);
    LaterKeys(s, i);
    var e := MergePair(path, d, s, i);
    if i == j {
      OwnPair(path, d, s, j);
      OthersMerged(path, e, s, i + 2, s.content[j].Name());
      LookedElsewhere(path, d, e, MergePairs(path, e, s, i + 2), s.content[j].Name(), s.content[j + 1]);
    } else {
      PairsLookup(path, e, s, i + 2, j);
      OtherPairs(path, d, s, i, s.content[j].Name());
      LookedFrom(path, d, e, MergePairs(path, e, s, i + 2), s.content[j].Name(), s.content[j + 1]);
    }
  }

  lemma LookedElsewhere(path: Path, d: seq<Tree>, e: seq<Tree>, m: seq<Tree>, key: string, value: Tree)
    requires Looked(path, d, e, key, value)
    requires (HasKey(m, key) <==> HasKey(e, key)) && (HasKey(e, key) ==> ValueOf(m, key) == ValueOf(e, key))
    ensures Looked(path, d, m, key, value)
  {
    hide HasKey, MergeNode, Prune, IsKnownDefault;
  }

  lemma LookedFrom(path: Path, d: seq<Tree>, e: seq<Tree>, m: seq<Tree>, key: string, value: Tree)
    requires Looked(path, e, m, key, value)
    requires (HasKey(e, key) <==> HasKey(d, key)) && (HasKey(d, key) ==> ValueOf(e, key) == ValueOf(d, key))
    ensures Looked(path, d, m, key, value)
  {
    hide HasKey, MergeNode, Prune, IsKnownDefault;
  }

  lemma MergedLookup(path: Path, dst: Tree, src: Tree, key: string)
    requires FileOk(dst) && SourceOk(src) && dst.Is(Mapping) && src.Is(Mapping) && HasKey(src.content, key)
    ensures MergeNode(path, dst, src).Is(Mapping) && PairsOk(MergeNode(path, dst, src).content)
    ensures Looked(path, dst.content, MergeNode(path, dst, src).content, key, ValueOf(src.content, key))
  {
    hide MergeNode, MergeMapping, MergePairs, PairsOk, SourceOk, FileOk, KeyIndex, Looked;
    MergeResult(path, dst, src);
    MergeNodeMeans(path, dst, src);
    MergeMappingMeans(path, dst, src);
    FileIsPairs(dst);
    FileIsPairs(MergeNode(path, dst, src));
    KeyIndexEven(src.content, key);
    PairsLookup(path, dst.content, src, 0, KeyIndex(src.content, key));
  }

  // ---------------------------------------------------------------- comments

  /** The node is still there with its comments; and if it still is a mapping, so is every key node, in
      its place, and every value, all the way down. */
  ghost predicate Keeps(before: Tree, after: Tree)
    decreases before, 1, 0
  {
    before.Node? ==>
      (&& after.Node? && after.trivia == before.trivia
       && (before.kind == Mapping && after.kind == Mapping ==> KeepsPairs(before, after)))
  }

  ghost predicate KeepsPairs(before: Tree, after: Tree)
    requires before.Node? && after.Node?
    decreases before, 0, 1
  {
    |before.content| <= |after.content| && forall j :: 0 <= j < |before.content| - 1 && j % 2 == 0 ==> KeepsPair(before, after, j)
  }

  ghost predicate KeepsPair(before: Tree, after: Tree, j: nat)
    requires before.Node? && after.Node? && j + 1 < |before.content| <= |after.content|
    decreases before, 0, 0
  {
    after.content[j] == before.content[j] && Keeps(before.content[j + 1], after.content[j + 1])
  }

  lemma KeepsSelf(t: Tree)
    ensures Keeps(t, t)
    decreases t
  {
    if t.Node? {
      forall j | 0 <= j < |t.content| - 1 && j % 2 == 0 ensures KeepsPair(t, t, j) {
        KeepsSelf(t.content[j + 1]);
      }
    }
  }

  /** Comments survive: nothing the file says about a node or a key is lost by merging into it. */
  lemma MergeKeepsComments(path: Path, dst: Tree, src: Tree)
    requires FileOk(dst) && SourceOk(src)
    ensures Keeps(dst, MergeNode(path, dst, src))
    decreases src, 1
  {
    hide MergeNode, Keeps, Added, SourceOk, FileOk, Final;
    AreNodes(dst, src);
    var r := MergeNode(path, dst, src);
    if dst.kind == Mapping && src.kind == Mapping {
      MergeKeepsOrder(path, dst, src);
      var d := dst.content;
      forall j | 0 <= j < |d| - 1 && j % 2 == 0 ensures KeepsPair(dst, r, j) {
        assert PairGrown(path, d, r.content, src, 0, j);
        FinalKeeps(path, dst, src, j);
      }
      KeepsMapping(dst, r);
    } else {
      KeepsNode(path, dst, src);
    }
  }

  lemma KeepsNode(path: Path, dst: Tree, src: Tree)
    requires FileOk(dst) && SourceOk(src) && !(dst.kind == Mapping && src.kind == Mapping)
    ensures Keeps(dst, MergeNode(path, dst, src))
  {
    hide FileOk, MergeMapping, MergeElements, Reordered, KeepsPairs;
    AreNodes(dst, src);
    MergeNodeMeans(path, dst, src);
    if src.Is(Sequence) { MergeSequenceMeans(path, dst, src); }
  }

  lemma FinalKeeps(path: Path, dst: Tree, src: Tree, j: nat)
    requires FileOk(dst) && SourceOk(src) && dst.kind == Mapping && src.kind == Mapping && j + 1 < |dst.content| && j % 2 == 0
    ensures Keeps(dst.content[j + 1], Final(path, dst.content, src, 0, j))
    decreases src, 0
  {
    hide MergeNode, Keeps, KeyIndex, FileOk, SourceOk, PairsOk;
    AreNodes(dst, src);
    var key := dst.content[j].Name();
    assert src.content[0..] == src.content;
    FileIsPairs(dst);
    KeyAt(dst.content, j);
    if HasKey(src.content, key) {
      ValueIsSource(src, key);
      MergeKeepsComments(path + [key], dst.content[j + 1], ValueOf(src.content, key));
    }
    KeepsSelf(dst.content[j + 1]);
  }

  lemma ValueIsSource(s: Tree, key: string)
    requires s.Is(Mapping) && SourceOk(s) && HasKey(s.content, key)
    ensures SourceOk(ValueOf(s.content, key)) && ValueOf(s.content, key) < s
  {
    hide SourceOk, KeysOk, KeyIndex;
    KeyIndexEven(s.content, key);
    SourcePair(s, KeyIndex(s.content, key));
  }

  lemma KeepsMapping(before: Tree, after: Tree)
    requires before.Node? && after.Node? && after.trivia == before.trivia && |before.content| <= |after.content|
    requires forall j :: 0 <= j < |before.content| - 1 && j % 2 == 0 ==> KeepsPair(before, after, j)
    ensures Keeps(before, after)
  {
  }

  // ---------------------------------------------------------------- sequences

  /** Original indices are used at most once, and never one already used. */
  ghost predicate Unused(originals: seq<Tree>, used: set<nat>, ks: seq<nat>)
  {
    && (forall i :: 0 <= i < |ks| && ks[i] < |originals| ==> ks[i] !in used && originals[ks[i]].Node?)
    && (forall i, j :: 0 <= i < j < |ks| && ks[i] < |originals| && ks[j] < |originals| ==> ks[i] != ks[j])
  }

  lemma UnusedCons(originals: seq<Tree>, used: set<nat>, k: nat, rest: seq<nat>)
    requires k < |originals| ==> k !in used && originals[k].Node?
    requires Unused(originals, if k < |originals| then used + {k} else used, rest)
    ensures Unused(originals, used, [k] + rest)
  {
    var ks := [k] + rest;
    forall i | 0 <= i < |ks| && ks[i] < |originals| ensures ks[i] !in used && originals[ks[i]].Node? {
      if i > 0 { assert ks[i] == rest[i - 1]; }
    }
    forall i, j | 0 <= i < j < |ks| && ks[i] < |originals| && ks[j] < |originals| ensures ks[i] != ks[j] {
      assert ks[j] == rest[j - 1];
      if i > 0 { assert ks[i] == rest[i - 1]; }
    }
  }

  lemma {:induction false} MatchesUnused(originals: seq<Tree>, used: set<nat>, targets: seq<Tree>)
    ensures Unused(originals, used, Matches(originals, used, targets))
    decreases |targets|
  {
    hide Match, Unused;
    if targets == [] {
      UnusedEmpty(originals, used);
    } else {
      var k := Match(originals, used, targets[0]);
      var used' := if k < |originals| then used + {k} else used;
      MatchesUnused(originals, used', targets[1..]);
      UnusedCons(originals, used, k, Matches(originals, used', targets[1..]));
    }
  }

  lemma UnusedEmpty(originals: seq<Tree>, used: set<nat>)
    ensures Unused(originals, used, [])
  {
  }

  /** A merged sequence has the source's length; each element is either its target merged into an original
      element, or a copy of its target; and no original ends up in two places. (A null kept for an empty
      sequence is not one; a node that was no sequence has no original elements.) */
  lemma SequenceReuse(path: Path, dst: Tree, src: Tree)
    requires FileOk(dst) && SourceOk(src) && src.kind == Sequence
    requires !(dst.kind == Scalar && dst.tag == "!!null" && src.content == [])
    ensures var originals := AsSequence(dst).content;
      var ks, r := Matches(originals, {}, src.content), MergeNode(path, dst, src);
      && r.kind == Sequence && |r.content| == |src.content| == |ks|
      && (forall i :: 0 <= i < |ks| ==> Reused(path, originals, src.content, ks[i], i, r.content[i]))
      && Unused(originals, {}, ks)
  {
    hide MergeNode, MergeElements, Matches, FileOk, SourceOk;
    AreNodes(dst, src);
    var originals := AsSequence(dst).content;
    MatchesUnused(originals, {}, src.content);
    MergeSequenceMeans(path, dst, src);
    var ks := Matches(originals, {}, src.content);
    var ds := Reordered(originals, src.content);
    forall i | 0 <= i < |ks| ensures Reused(path, originals, src.content, ks[i], i, MergeElements(path, ds, src)[i]) {
      assert originals != [] ==> ds[i] == Picked(originals, ks[i]);
      MergedElement(path, ds, src, i);
    }
  }

  /** Element `i` of the result: the target merged into the original matched to it, or the target itself. */
  predicate Reused(path: Path, originals: seq<Tree>, targets: seq<Tree>, k: nat, i: nat, r: Tree)
    requires i < |targets|
  {
    if k < |originals| then originals[k].Node? && r == PruneMissing(MergeNode(path, originals[k], targets[i]), targets[i])
    else r == targets[i]
  }

  /** Some key of `s` is, blanks aside, this one. */
  ghost predicate Named(s: seq<Tree>, key: string)
  {
    exists i :: 0 <= i < |s| && i % 2 == 0 && s[i].Node? && Trim(s[i].value) == Trim(key)
  }

  /** Every key of `m` is a key of `s`. */
  ghost predicate KeysWithin(m: seq<Tree>, s: seq<Tree>)
  {
    forall j :: 0 <= j < |m| && j % 2 == 0 && m[j].Node? ==> Named(s, m[j].value)
  }

  lemma KeptIsNamed(s: seq<Tree>, key: string)
    requires IsKept(s, key)
    ensures Named(s, key)
  {
  }

  lemma {:induction false} KeptPairsWithin(d: seq<Tree>, s: seq<Tree>)
    requires |d| % 2 == 0
    ensures KeysWithin(KeptPairs(d, s), s) && |KeptPairs(d, s)| % 2 == 0
    decreases |d|
  {
    hide IsKept, Named;
    if |d| >= 2 {
      KeptPairsWithin(d[2..], s);
      if d[0].Null? || IsKept(s, d[0].value) {
        if d[0].Node? { KeptIsNamed(s, d[0].value); }
        KeysWithinCons(d[..2], KeptPairs(d[2..], s), s);
      }
    }
  }

  lemma KeysWithinCons(pair: seq<Tree>, rest: seq<Tree>, s: seq<Tree>)
    requires |pair| == 2 && KeysWithin(rest, s)
    requires pair[0].Node? ==> Named(s, pair[0].value)
    ensures KeysWithin(pair + rest, s)
  {
    hide Named;
    forall j | 0 <= j < |pair + rest| && j % 2 == 0 && (pair + rest)[j].Node? ensures Named(s, (pair + rest)[j].value) {
      if j >= 2 { assert (pair + rest)[j] == rest[j - 2] && (j - 2) % 2 == 0; }
    }
  }

  /** A mapping element of a merged sequence has no key that its source element lacks. */
  lemma NoStaleKeys(path: Path, dst: Tree, src: Tree, i: nat)
    requires FileOk(dst) && SourceOk(src) && src.kind == Sequence && i < |src.content| && src.content[i].Is(Mapping)
    ensures var r := MergeNode(path, dst, src);
      && r.kind == Sequence && |r.content| == |src.content| && r.content[i].Node?
      && KeysWithin(r.content[i].content, src.content[i].content)
  {
    hide MergeNode, MergeElements, KeptPairs, KeysWithin, Reordered, SourceOk, FileOk;
    AreNodes(dst, src);
    var s := src.content[i];
    var ds := Reordered(AsSequence(dst).content, src.content);
    SourceElement(src, i);
    MergeSequenceMeans(path, dst, src);
    MergedElement(path, ds, src, i);
    AsSequenceIsFile(dst);
    if i < |ds| && ds[i].Node? {
      MergeEven(path, ds[i], s) by { ElementIsFile(AsSequence(dst), src, i); }
      KeptPairsWithin(MergeNode(path, ds[i], s).content, s.content);
    } else {
      KeysWithinSelf(s.content);
    }
  }

  /** Merging a mapping gives a mapping with whole pairs. */
  lemma MergeEven(path: Path, d: Tree, s: Tree)
    requires FileOk(d) && SourceOk(s) && s.Is(Mapping)
    ensures MergeNode(path, d, s).Is(Mapping) && |MergeNode(path, d, s).content| % 2 == 0
  {
    hide MergeNode, SourceOk, BlanksSafe;
    MergeResult(path, d, s);
  }

  lemma AsSequenceIsFile(t: Tree)
    requires FileOk(t)
    ensures FileOk(AsSequence(t))
  {
  }

  lemma ElementIsFile(dst: Tree, src: Tree, i: nat)
    requires FileOk(dst) && dst.kind == Sequence && src.Node? && i < |Reordered(dst.content, src.content)|
    ensures var e := Reordered(dst.content, src.content)[i]; e.Null? || FileOk(e)
  {
  }

  lemma KeysWithinSelf(s: seq<Tree>)
    ensures KeysWithin(s, s)
  {
  }

  /** Removing stale keys takes a key of the source with it exactly when the key is blank. */
  lemma BlankKeysAreStale(d: seq<Tree>, s: seq<Tree>, i: nat)
    requires PairsOk(d) && i + 1 < |s| && i % 2 == 0 && s[i].Node? && HasKey(d, s[i].value)
    ensures HasKey(KeptPairs(d, s), s[i].value) <==> Trim(s[i].value) != ""
  {
    if Trim(s[i].value) != "" {
      KeptLookup(d, s, s[i].value);
    } else {
      BlankIsDropped(d, s, s[i].value);
    }
  }
}
