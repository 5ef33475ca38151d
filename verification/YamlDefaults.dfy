/** What a merge leaves out of a value that is new to the file, told from tags, values and paths. */
module YamlDefaults {
  import opened Text
  import opened YamlTree
  import opened YamlMerge
  import opened YamlStructure

  // ---------------------------------------------------------------- zeros

  const ZEROS: set<(string, string)> :=
    {("!!bool", "false"), ("!!int", "0"), ("!!int", "0.0"), ("!!float", "0"), ("!!float", "0.0"), ("!!str", "")}

  predicate ZeroLeaf(n: Tree)
  {
    n.Is(Scalar) && (n.tag == "!!null" || (n.tag, n.value) in ZEROS)
  }

  /** The nodes a value comes down to: what is neither a list nor a mapping, in order. Keys do not count. */
  function Leaves(n: Tree): seq<Tree>
    decreases n, 1
  {
    if n.Null? then []
    else if n.kind == Sequence || n.kind == Mapping then LeavesFrom(n, 0)
    else [n]
  }

  predicate IsValue(n: Tree, i: nat)
  {
    n.Is(Sequence) || (n.Is(Mapping) && i % 2 == 1)
  }

  function LeavesFrom(n: Tree, i: nat): seq<Tree>
    requires n.Node? && i <= |n.content|
    decreases n, 0, |n.content| - i
  {
    if i == |n.content| then []
    else if IsValue(n, i) then Leaves(n.content[i]) + LeavesFrom(n, i + 1)
    else LeavesFrom(n, i + 1)
  }

  predicate AllZero(leaves: seq<Tree>)
  {
    forall i :: 0 <= i < |leaves| ==> ZeroLeaf(leaves[i])
  }

  lemma AllZeroJoined(a: seq<Tree>, b: seq<Tree>)
    ensures AllZero(a + b) <==> AllZero(a) && AllZero(b)
  {
    if AllZero(a + b) {
      assert forall i :: 0 <= i < |a| ==> a[i] == (a + b)[i];
      assert forall i :: 0 <= i < |b| ==> b[i] == (a + b)[|a| + i];
    }
  }

  /** A value is zero exactly if all it comes down to is. */
  lemma ZeroMeans(n: Tree)
    ensures IsZero(n) <==> AllZero(Leaves(n))
    decreases n, 1
  {
    hide AllZero;
    if n.Is(Sequence) || n.Is(Mapping) {
      ZeroFrom(n, 0);
    } else {
      ZeroAlone(n);
    }
  }

  lemma ZeroAlone(n: Tree)
    ensures n.Null? ==> AllZero([])
    ensures n.Node? ==> (AllZero([n]) <==> ZeroLeaf(n))
  {
    if n.Node? && ZeroLeaf(n) {
      assert forall i :: 0 <= i < |[n]| ==> [n][i] == n;
    }
    if n.Node? && AllZero([n]) {
      assert ZeroLeaf([n][0]);
    }
  }

  lemma ZeroFrom(n: Tree, i: nat)
    requires n.Node? && i <= |n.content|
    ensures AllZero(LeavesFrom(n, i)) <==> forall j :: i <= j < |n.content| && IsValue(n, j) ==> IsZero(n.content[j])
    decreases n, 0, |n.content| - i
  {
    hide AllZero, IsZero;
    if i < |n.content| {
      if IsValue(n, i) {
        ZeroMeans(n.content[i]);
        AllZeroJoined(Leaves(n.content[i]), LeavesFrom(n, i + 1));
      }
      ZeroFrom(n, i + 1);
    } else {
      ZeroAlone(Null);
    }
  }

  // ---------------------------------------------------------------- scalars

  const NAMED: set<(string, string, string)> :=
    {("pprof.addr", "!!str", "127.0.0.1:8316"),
     ("remote-management.panel-github-repository", "!!str", "https://github.com/router-for-me/Cli-Proxy-API-Management-Center"),
     ("plugins.dir", "!!str", "plugins"), ("routing.strategy", "!!str", "round-robin"), ("error-logs-max-files", "!!int", "10")}

  /** Whether a scalar is worth writing at a place where the file has none: an explicit weight always, anything else
      unless it is a zero or the default of its place. */
  predicate WorthWriting(parent: Path, key: string, n: Tree)
    requires n.Node?
  {
    (key == "weight" && n.tag == "!!int") ||
    (!ZeroLeaf(n) && (Dotted(parent + [key]), n.tag, n.value) !in NAMED)
  }

  lemma DefaultMeans(parent: Path, key: string, n: Tree)
    requires n.Is(Scalar)
    ensures IsKnownDefault(parent + [key], n) <==> !WorthWriting(parent, key, n)
    ensures Prune(parent + [key], n) == n
  {
    hide Dotted;
  }

  /** A scalar under a key the file lacks is written exactly if it is worth it, and as it is. */
  lemma ScalarOfNewKey(path: Path, dst: Tree, src: Tree, key: string)
    requires FileOk(dst) && dst.Is(Mapping) && !HasKey(dst.content, key)
    requires SourceOk(src) && src.Is(Mapping) && HasKey(src.content, key) && ValueOf(src.content, key).Is(Scalar)
    ensures var m, u := MergeNode(path, dst, src), ValueOf(src.content, key);
      m.Is(Mapping) && (HasKey(m.content, key) <==> WorthWriting(path, key, u)) && (HasKey(m.content, key) ==> ValueOf(m.content, key) == u)
  {
    hide MergeNode, SourceOk, FileOk, KeyIndex, WorthWriting, IsKnownDefault, Prune, PairsOk;
    MergedLookup(path, dst, src, key);
    DefaultMeans(path, key, ValueOf(src.content, key));
  }

  /** And a scalar inside such a value. */
  lemma ScalarInNewValue(path: Path, n: Tree, j: nat)
    requires n.Is(Mapping) && SourceOk(n) && j < |n.content| && j % 2 == 0
    ensures j + 1 < |n.content| && n.content[j].Node?
    ensures n.content[j + 1].Is(Scalar) ==>
      var m, key, u := Prune(path, n), n.content[j].Name(), n.content[j + 1];
      m.Is(Mapping) && (HasKey(m.content, key) <==> WorthWriting(path, key, u)) && (HasKey(m.content, key) ==> ValueOf(m.content, key) == u)
  {
    hide SourceOk, KeyIndex, WorthWriting, IsKnownDefault, Prune, PrunePairs;
    SourcePair(n, j);
    PruneMeans(path, n);
    PrunedLookup(path, n, 0, j);
    if n.content[j + 1].Is(Scalar) { DefaultMeans(path, n.content[j].Name(), n.content[j + 1]); }
  }

  // ---------------------------------------------------------------- what is left

  /** No mapping in it holds a scalar that is not worth writing, an empty list or an empty mapping. */
  predicate Clean(path: Path, n: Tree)
    decreases n, 1
  {
    (n.Is(Sequence) ==> forall i :: 0 <= i < |n.content| ==> Clean(path, n.content[i])) &&
    (n.Is(Mapping) ==> forall j :: 0 <= j < |n.content| && j % 2 == 0 ==> CleanPair(path, n, j))
  }

  predicate CleanPair(path: Path, n: Tree, j: nat)
    requires n.Node?
    decreases n, 0
  {
    j + 1 < |n.content| &&
    var key, v := n.content[j].Name(), n.content[j + 1];
    (v.Is(Scalar) ==> WorthWriting(path, key, v)) && (v.Is(Mapping) || v.Is(Sequence) ==> v.content != []) && Clean(path + [key], v)
  }

  lemma PruneIsClean(path: Path, n: Tree)
    ensures Clean(path, Prune(path, n))
    decreases n, 1
  {
    hide WorthWriting, IsKnownDefault, PrunePairs, CleanPair;
    PruneMeans(path, n);
    if n.Is(Sequence) {
      forall i | 0 <= i < |n.content| ensures Clean(path, Prune(path, n).content[i]) {
        PruneIsClean(path, n.content[i]);
      }
    } else if n.Is(Mapping) {
      PairsAreClean(path, n, 0);
      var m := Prune(path, n);
      forall j | 0 <= j < |m.content| && j % 2 == 0 ensures CleanPair(path, m, j) {
        Shifted(path, AsMapping(m.content), m, 0, j);
      }
    }
  }

  /** Some pairs as a mapping of their own. */
  function AsMapping(content: seq<Tree>): Tree
  {
    Node(Mapping, "", "", content, 0)
  }

  lemma Shifted(path: Path, m: Tree, whole: Tree, k: nat, j: nat)
    requires m.Node? && whole.Node? && k <= |whole.content| && m.content == whole.content[k..] && j < |m.content|
    ensures CleanPair(path, m, j) <==> CleanPair(path, whole, k + j)
  {
    hide WorthWriting, Clean;
  }

  lemma PairsAreClean(path: Path, n: Tree, i: nat)
    requires n.Node? && i <= |n.content|
    ensures |PrunePairs(path, n, i)| % 2 == 0
    ensures forall j :: 0 <= j < |PrunePairs(path, n, i)| && j % 2 == 0 ==> CleanPair(path, AsMapping(PrunePairs(path, n, i)), j)
    decreases n, 0, |n.content| - i
  {
    hide WorthWriting, IsKnownDefault, Prune, Clean, CleanPair, IsEmptyCollection;
    if i + 1 < |n.content| {
      PairsAreClean(path, n, i + 2);
      var key, value, rest := n.content[i], n.content[i + 1], PrunePairs(path, n, i + 2);
      if key.Node? && value.Node? && !IsKnownDefault(path + [key.value], value) && !IsEmptyCollection(Prune(path + [key.value], value)) {
        var v := Prune(path + [key.value], value);
        PruneIsClean(path + [key.value], value);
        FirstPair(path, key, value, rest);
        forall j | 2 <= j < |rest| + 2 && j % 2 == 0 ensures CleanPair(path, AsMapping([key, v] + rest), j) {
          assert ([key, v] + rest)[2..] == rest;
          Shifted(path, AsMapping(rest), AsMapping([key, v] + rest), 2, j - 2);
        }
      }
    }
  }

  lemma FirstPair(path: Path, key: Tree, value: Tree, rest: seq<Tree>)
    requires key.Node? && value.Node?
    requires var child := path + [key.value];
      !IsKnownDefault(child, value) && !IsEmptyCollection(Prune(child, value)) && Clean(child, Prune(child, value))
    ensures CleanPair(path, AsMapping([key, Prune(path + [key.value], value)] + rest), 0)
  {
    hide WorthWriting, IsKnownDefault, Clean, PrunePairs, PruneElements;
    PruneMeans(path + [key.value], value);
    if value.Is(Scalar) { DefaultMeans(path, key.value, value); }
  }
}
