/** What the comment-preserving merge means: the result agrees with its source, keeps the order,
    comments and nodes of its destination, and adds nothing that is a default. */
module YamlMerge {
  import opened Text
  import opened YamlTree

  // ---------------------------------------------------------------- well-formed trees

  /** Keys are nodes and pairwise different. */
  predicate KeysOk(content: seq<Tree>)
  {
    && |content| % 2 == 0
    && (forall i :: 0 <= i < |content| && i % 2 == 0 ==> content[i].Node?)
    && (forall i, j :: 0 <= i < j < |content| && i % 2 == 0 && j % 2 == 0 ==> content[i].value != content[j].value)
  }

  /** A rendered configuration: scalars, sequences and mappings with distinct keys, no aliases. */
  predicate SourceOk(n: Tree)
  {
    n.Node? &&
    match n.kind
    case Scalar => true
    case Sequence => forall i :: 0 <= i < |n.content| ==> SourceOk(n.content[i])
    case Mapping => KeysOk(n.content) && forall i :: 0 <= i < |n.content| && i % 2 == 1 ==> SourceOk(n.content[i])
    case _ => false
  }

  /** A parsed file: mappings pair keys with values. Anything else goes, duplicate keys and aliases included. */
  predicate FileOk(n: Tree)
  {
    n.Node? &&
    match n.kind
    case Mapping => |n.content| % 2 == 0 && forall i :: 0 <= i < |n.content| ==> if i % 2 == 0 then n.content[i].Node? else FileOk(n.content[i])
    case Sequence => forall i :: 0 <= i < |n.content| ==> n.content[i].Null? || FileOk(n.content[i])
    case _ => true
  }

  predicate PairsOk(content: seq<Tree>)
  {
    |content| % 2 == 0 && forall i :: 0 <= i < |content| ==> if i % 2 == 0 then content[i].Node? else FileOk(content[i])
  }

  lemma SourceIsFile(n: Tree)
    requires SourceOk(n)
    ensures FileOk(n)
  {
    if n.kind == Mapping {
      forall i | 0 <= i < |n.content| && i % 2 == 1 ensures FileOk(n.content[i]) {
        SourceIsFile(n.content[i]);
      }
    }
  }

  lemma SourcePair(s: Tree, i: nat)
    requires s.Is(Mapping) && SourceOk(s) && i < |s.content| && i % 2 == 0
    ensures i + 1 < |s.content| && |s.content| % 2 == 0 && KeysOk(s.content)
    ensures s.content[i].Node? && s.content[i + 1].Node? && SourceOk(s.content[i + 1])
  {
  }

  lemma LaterKeys(s: Tree, i: nat)
    requires s.Is(Mapping) && SourceOk(s) && i < |s.content| && i % 2 == 0
    ensures forall j :: i + 2 <= j < |s.content| && j % 2 == 0 ==> s.content[j].Node? && s.content[j].value != s.content[i].Name()
  {
  }

  lemma SourceElement(s: Tree, i: nat)
    requires s.Is(Sequence) && SourceOk(s) && i < |s.content|
    ensures SourceOk(s.content[i])
  {
  }

  lemma SourceKeysOk(s: Tree)
    requires s.Is(Mapping) && SourceOk(s)
    ensures KeysOk(s.content) && |s.content| % 2 == 0
  {
  }

  // ---------------------------------------------------------------- agreement

  /** `m` says what `s` says: the same scalars, sequences of the same length that agree element by
      element, and under every key of `s` a value that agrees, or none if what `s` has there comes
      down to a default. A null kept for an empty list agrees with it. */
  ghost predicate Agrees(path: Path, m: Tree, s: Tree)
    decreases s, 1
  {
    if s.Null? then true else if m.Null? then false else
    match s.kind
    case Scalar => m.kind == Scalar && m.tag == s.tag && m.value == s.value
    case Sequence =>
      || (m.kind == Scalar && m.tag == "!!null" && s.content == [])
      || (m.kind == Sequence && |m.content| == |s.content| &&
          forall i :: 0 <= i < |s.content| ==> Agrees(path, m.content[i], s.content[i]))
    case Mapping => m.kind == Mapping && forall i :: 0 <= i < |s.content| && i % 2 == 0 ==> AgreesAt(path, m.content, s, i)
    case _ => true
  }

  ghost predicate AgreesAt(path: Path, m: seq<Tree>, s: Tree, i: nat)
    requires s.Node?
    decreases s, 0
  {
    i + 1 < |s.content| ==>
      var key := s.content[i].Name();
      if HasKey(m, key) then Agrees(path + [key], ValueOf(m, key), s.content[i + 1])
      else IsKnownDefault(path + [key], Prune(path + [key], s.content[i + 1]))
  }

  // ---------------------------------------------------------------- blank keys

  predicate IsBlank(key: string)
  {
    Trim(key) == ""
  }

  /** No blank key of the source is at risk. Stale keys are only removed from mappings that are elements of a
      sequence, and there a blank key always counts as stale: that does no harm where its value comes down
      to a default anyway. */
  predicate BlanksSafe(path: Path, n: Tree)
    decreases n, 1
  {
    n.Node? ==>
      match n.kind
      case Sequence => forall i :: 0 <= i < |n.content| ==> ElementSafe(path, n.content[i])
      case Mapping => forall i :: 0 <= i < |n.content| && i % 2 == 0 ==> SafeAt(path, n, i)
      case _ => true
  }

  predicate SafeAt(path: Path, n: Tree, i: nat)
    requires n.Node?
    decreases n, 0
  {
    i + 1 < |n.content| ==> BlanksSafe(path + [n.content[i].Name()], n.content[i + 1])
  }

  predicate ElementSafe(path: Path, e: Tree)
    decreases e, 2
  {
    if e.Is(Mapping) then forall i :: 0 <= i < |e.content| && i % 2 == 0 ==> KeySafe(path, e, i)
    else BlanksSafe(path, e)
  }

  predicate KeySafe(path: Path, e: Tree, i: nat)
    requires e.Node?
    decreases e, 0
  {
    i + 1 < |e.content| ==>
      var child := path + [e.content[i].Name()];
      if IsBlank(e.content[i].Name()) then IsKnownDefault(child, Prune(child, e.content[i + 1]))
      else BlanksSafe(child, e.content[i + 1])
  }

  // ---------------------------------------------------------------- keys in alternating content

  lemma {:induction false} KeyIndexFirst(content: seq<Tree>, key: string, j: nat)
    requires j + 1 < |content| && j % 2 == 0 && content[j].Node? && content[j].value == key
    ensures KeyIndex(content, key) <= j && KeyIndex(content, key) % 2 == 0
    decreases j
  {
    if !(content[0].Node? && content[0].value == key) {
      assert j >= 2;
      KeyIndexFirst(content[2..], key, j - 2);
    }
  }

  /** The first index that carries the key, if there is one. */
  lemma {:induction false} KeyIndexIs(content: seq<Tree>, key: string, j: nat)
    requires j + 1 < |content| && j % 2 == 0 && content[j].Node? && content[j].value == key
    requires forall i :: 0 <= i < j && i % 2 == 0 ==> !(content[i].Node? && content[i].value == key)
    ensures KeyIndex(content, key) == j
    decreases j
  {
    if j > 0 {
      assert !(content[0].Node? && content[0].value == key);
      assert forall i :: 0 <= i < j - 2 && i % 2 == 0 ==> content[2..][i] == content[i + 2];
      KeyIndexIs(content[2..], key, j - 2);
    }
  }

  lemma {:induction false} KeyIndexNone(content: seq<Tree>, key: string)
    requires forall i :: 0 <= i < |content| - 1 && i % 2 == 0 ==> !(content[i].Node? && content[i].value == key)
    ensures KeyIndex(content, key) == |content|
    decreases |content|
  {
    if |content| >= 2 {
      assert !(content[0].Node? && content[0].value == key);
      assert forall i :: 0 <= i < |content| - 3 && i % 2 == 0 ==> content[2..][i] == content[i + 2];
      KeyIndexNone(content[2..], key);
    }
  }

  lemma {:induction false} KeyIndexEven(content: seq<Tree>, key: string)
    requires HasKey(content, key)
    ensures KeyIndex(content, key) % 2 == 0
    ensures forall i :: 0 <= i < KeyIndex(content, key) && i % 2 == 0 ==> !(content[i].Node? && content[i].value == key)
    decreases |content|
  {
    if !(content[0].Node? && content[0].value == key) {
      KeyIndexEven(content[2..], key);
      var k := KeyIndex(content, key);
      forall i | 0 <= i < k && i % 2 == 0 ensures !(content[i].Node? && content[i].value == key) {
        if i >= 2 { assert content[2..][i - 2] == content[i]; }
      }
    }
  }

  // ---------------------------------------------------------------- zero values and pruning

  lemma PruneMeans(path: Path, n: Tree)
    ensures Prune(path, n) ==
      if n.Is(Mapping) then n.(content := PrunePairs(path, n, 0))
      else if n.Is(Sequence) then n.(content := PruneElements(path, n)) else n
  {
  }

  lemma ZeroPrunes(path: Path, n: Tree)
    requires IsZero(n)
    ensures IsZero(Prune(path, n))
    decreases n, 1, 0
  {
    if n.Is(Mapping) {
      ZeroPairs(path, n, 0);
    } else if n.Is(Sequence) {
      forall i | 0 <= i < |n.content| ensures IsZero(PruneElements(path, n)[i]) {
        ZeroPrunes(path, n.content[i]);
      }
    }
  }

  lemma ZeroPairs(path: Path, n: Tree, i: nat)
    requires n.Is(Mapping) && IsZero(n) && i <= |n.content| && i % 2 == 0
    ensures |PrunePairs(path, n, i)| % 2 == 0
    ensures forall j :: 0 <= j < |PrunePairs(path, n, i)| && j % 2 == 1 ==> IsZero(PrunePairs(path, n, i)[j])
    decreases n, 0, |n.content| - i
  {
    if i + 1 < |n.content| {
      ZeroPairs(path, n, i + 2);
      assert IsZero(n.content[i + 1]);
      if n.content[i].Node? {
        ZeroPrunes(path + [n.content[i].value], n.content[i + 1]);
      }
    }
  }

  /** Pruning a value does not make it less of a default. */
  lemma DefaultPrunes(path: Path, n: Tree)
    requires IsKnownDefault(path, n) || IsEmptyCollection(Prune(path, n))
    ensures IsKnownDefault(path, Prune(path, n))
  {
    if IsZero(n) {
      ZeroPrunes(path, n);
    }
  }

  lemma ConsKey(k: Tree, v: Tree, rest: seq<Tree>, key: string)
    ensures KeyIndex([k, v] + rest, key) == if k.Node? && k.value == key then 0 else 2 + KeyIndex(rest, key)
    ensures HasKey([k, v] + rest, key) <==> (k.Node? && k.value == key) || HasKey(rest, key)
    ensures HasKey([k, v] + rest, key) ==>
      ValueOf([k, v] + rest, key) == if k.Node? && k.value == key then v else ValueOf(rest, key)
  {
    assert ([k, v] + rest)[2..] == rest;
  }

  predicate Drops(path: Path, s: Tree, j: nat)
    requires s.Node? && j + 1 < |s.content|
  {
    var child := path + [s.content[j].Name()];
    IsKnownDefault(child, s.content[j + 1]) || IsEmptyCollection(Prune(child, s.content[j + 1]))
  }

  lemma PrunePairsStep(path: Path, s: Tree, i: nat)
    requires s.Is(Mapping) && SourceOk(s) && i + 1 < |s.content| && i % 2 == 0
    ensures s.content[i].Node? && SourceOk(s.content[i + 1])
    ensures PrunePairs(path, s, i) ==
      if Drops(path, s, i) then PrunePairs(path, s, i + 2)
      else [s.content[i], Prune(path + [s.content[i].Name()], s.content[i + 1])] + PrunePairs(path, s, i + 2)
  {
    hide IsKnownDefault, Prune, IsEmptyCollection, SourceOk;
    SourcePair(s, i);
  }

  /** What pruning leaves under a key of the source, looking at the pairs from `i` on. */
  lemma {:induction false} PrunedLookup(path: Path, s: Tree, i: nat, j: nat)
    requires s.Is(Mapping) && SourceOk(s) && i <= j < |s.content| && i % 2 == 0 == j % 2
    ensures var m, key := PrunePairs(path, s, i), s.content[j].Name();
      && (HasKey(m, key) <==> !Drops(path, s, j))
      && (!Drops(path, s, j) ==> ValueOf(m, key) == Prune(path + [key], s.content[j + 1]))
    decreases |s.content| - i
  {
    hide PrunePairs, Drops, Prune, SourceOk, HasKey, KeyIndex, KeysOk;
    SourcePair(s, j);
    if i == j {
      SourcePair(s, i);
      LaterKeys(s, i);
      NotPruned(path, s, i + 2, s.content[i].Name());
      PrunePairsStep(path, s, i);
      ConsKey(s.content[i], Prune(path + [s.content[i].Name()], s.content[i + 1]), PrunePairs(path, s, i + 2), s.content[i].Name());
    } else {
      PrunedFurther(path, s, i, s.content[j].Name()) by { LaterKeys(s, i); }
      PrunedLookup(path, s, i + 2, j);
    }
  }

  /** The first pair has no say in what is found under another key. */
  lemma PrunedFurther(path: Path, s: Tree, i: nat, key: string)
    requires s.Is(Mapping) && SourceOk(s) && i < |s.content| && i % 2 == 0 && s.content[i].Name() != key
    ensures i + 2 <= |s.content|
    ensures HasKey(PrunePairs(path, s, i), key) <==> HasKey(PrunePairs(path, s, i + 2), key)
    ensures HasKey(PrunePairs(path, s, i), key) ==> ValueOf(PrunePairs(path, s, i), key) == ValueOf(PrunePairs(path, s, i + 2), key)
  {
    hide PrunePairs, Drops, Prune, SourceOk, HasKey, KeyIndex, KeysOk;
    SourcePair(s, i);
    PrunePairsStep(path, s, i);
    ConsKey(s.content[i], Prune(path + [s.content[i].Name()], s.content[i + 1]), PrunePairs(path, s, i + 2), key);
  }

  lemma {:induction false} NotPruned(path: Path, s: Tree, i: nat, key: string)
    requires s.Is(Mapping) && SourceOk(s) && i <= |s.content| && i % 2 == 0
    requires forall j :: i <= j < |s.content| && j % 2 == 0 ==> s.content[j].Name() != key
    ensures !HasKey(PrunePairs(path, s, i), key)
    decreases |s.content| - i
  {
    hide Drops, Prune, SourceOk;
    SourceKeysOk(s);
    if i + 1 < |s.content| {
      PrunePairsStep(path, s, i);
      NotPruned(path, s, i + 2, key);
      ConsKey(s.content[i], Prune(path + [s.content[i].Name()], s.content[i + 1]), PrunePairs(path, s, i + 2), key);
    }
  }

  /** A pruned copy still agrees with what was pruned. */
  lemma PruneAgrees(path: Path, s: Tree)
    requires SourceOk(s)
    ensures Agrees(path, Prune(path, s), s) && FileOk(Prune(path, s))
    decreases s, 1, 0
  {
    hide IsKnownDefault;
    if s.kind == Mapping {
      PairsAreFileOk(path, s, 0);
      forall i | 0 <= i < |s.content| && i % 2 == 0 ensures AgreesAt(path, PrunePairs(path, s, 0), s, i) {
        PruneAgreesAt(path, s, i);
      }
    } else if s.kind == Sequence {
      forall i | 0 <= i < |s.content|
        ensures Agrees(path, PruneElements(path, s)[i], s.content[i]) && FileOk(PruneElements(path, s)[i])
      {
        PruneAgrees(path, s.content[i]);
      }
    }
  }

  lemma PruneAgreesAt(path: Path, s: Tree, i: nat)
    requires s.Is(Mapping) && SourceOk(s) && i < |s.content| && i % 2 == 0
    ensures AgreesAt(path, PrunePairs(path, s, 0), s, i)
    decreases s, 0, 0
  {
    hide IsKnownDefault, PrunePairs, Prune, IsEmptyCollection, Agrees, SourceOk, KeyIndex;
    SourcePair(s, i);
    var key, value := s.content[i].Name(), s.content[i + 1];
    PrunedLookup(path, s, 0, i);
    if Drops(path, s, i) {
      DefaultPrunes(path + [key], value);
    } else {
      PruneAgrees(path + [key], value);
    }
  }

  lemma ConsPairs(k: Tree, v: Tree, rest: seq<Tree>)
    requires k.Node? && FileOk(v) && PairsOk(rest)
    ensures PairsOk([k, v] + rest)
  {
  }

  lemma AppendPairs(d: seq<Tree>, k: Tree, v: Tree)
    requires k.Node? && FileOk(v) && PairsOk(d)
    ensures PairsOk(d + [k, v])
  {
  }

  lemma UpdatePairs(d: seq<Tree>, k: nat, v: Tree)
    requires k + 1 < |d| && k % 2 == 0 && FileOk(v) && PairsOk(d)
    ensures PairsOk(d[k + 1 := v])
  {
  }

  lemma PairsAreFileOk(path: Path, s: Tree, i: nat)
    requires s.Is(Mapping) && SourceOk(s) && i <= |s.content| && i % 2 == 0
    ensures PairsOk(PrunePairs(path, s, i))
    decreases s, 0, |s.content| - i
  {
    hide Drops, Prune, Agrees, SourceOk, FileOk;
    SourceKeysOk(s);
    if i + 1 >= |s.content| {
      assert PrunePairs(path, s, i) == [];
    } else {
      SourcePair(s, i);
      PairsAreFileOk(path, s, i + 2);
      PrunePairsStep(path, s, i);
      var child := path + [s.content[i].Name()];
      PruneAgrees(child, s.content[i + 1]);
      ConsPairs(s.content[i], Prune(child, s.content[i + 1]), PrunePairs(path, s, i + 2));
    }
  }

  // ---------------------------------------------------------------- stale keys

  /** A key that is kept is found where it was, with its value. */
  lemma {:induction false} KeptLookup(d: seq<Tree>, src: seq<Tree>, key: string)
    requires PairsOk(d) && IsKept(src, key)
    ensures HasKey(KeptPairs(d, src), key) <==> HasKey(d, key)
    ensures HasKey(d, key) ==> ValueOf(KeptPairs(d, src), key) == ValueOf(d, key)
    ensures PairsOk(KeptPairs(d, src))
    decreases |d|
  {
    hide FileOk, IsKept, PairsOk, KeyIndex;
    if |d| >= 2 {
      var rest := d[2..];
      assert d == [d[0], d[1]] + rest && d[..2] == [d[0], d[1]];
      PairsTail(d);
      KeptLookup(rest, src, key);
      ConsKey(d[0], d[1], rest, key);
      ConsKey(d[0], d[1], KeptPairs(rest, src), key);
      ConsPairs(d[0], d[1], KeptPairs(rest, src));
    } else {
      PairsTail(d);
    }
  }

  lemma PairsTail(d: seq<Tree>)
    requires PairsOk(d)
    ensures |d| >= 2 ==> PairsOk(d[2..]) && d[0].Node? && FileOk(d[1])
    ensures |d| < 2 ==> d == []
    ensures |d| % 2 == 0
  {
  }

  lemma {:induction false} KeptPairsOk(d: seq<Tree>, src: seq<Tree>)
    requires PairsOk(d)
    ensures PairsOk(KeptPairs(d, src))
    decreases |d|
  {
    hide FileOk, IsKept, PairsOk;
    PairsTail(d);
    if |d| >= 2 {
      KeptPairsOk(d[2..], src);
      assert d[..2] == [d[0], d[1]];
      ConsPairs(d[0], d[1], KeptPairs(d[2..], src));
    }
  }

  lemma {:induction false} BlankIsDropped(d: seq<Tree>, s: seq<Tree>, key: string)
    requires PairsOk(d) && IsBlank(key)
    ensures !HasKey(KeptPairs(d, s), key)
    decreases |d|
  {
    hide FileOk, PairsOk, KeyIndex;
    PairsTail(d);
    if |d| >= 2 {
      BlankIsDropped(d[2..], s, key);
      assert d[..2] == [d[0], d[1]];
      ConsKey(d[0], d[1], KeptPairs(d[2..], s), key);
    } else {
      NoKeyInNone(key);
    }
  }

  lemma NoKeyInNone(key: string)
    ensures !HasKey([], key)
  {
  }

  /** Removing stale keys keeps the agreement at a key that is not blank, and leaves a blank one to its default. */
  lemma KeptStillAgrees(path: Path, m: seq<Tree>, s: Tree, i: nat)
    requires s.Is(Mapping) && SourceOk(s) && PairsOk(m) && i < |s.content| && i % 2 == 0 && KeySafe(path, s, i)
    requires SafeAt(path, s, i) ==> AgreesAt(path, m, s, i)
    ensures AgreesAt(path, KeptPairs(m, s.content), s, i)
  {
    hide SourceOk, PairsOk, KeptPairs, IsKnownDefault, Prune, Agrees, BlanksSafe, KeyIndex, Trim;
    SourcePair(s, i);
    var key := s.content[i].value;
    if IsBlank(key) {
      BlankIsDropped(m, s.content, key);
    } else {
      assert IsKept(s.content, key);
      KeptLookup(m, s.content, key);
    }
  }

  // ---------------------------------------------------------------- merging agrees

  lemma {:induction false} UpdateKeepsKeys(d: seq<Tree>, k: nat, v: Tree, key: string)
    requires k + 1 < |d| && k % 2 == 0
    ensures KeyIndex(d[k + 1 := v], key) == KeyIndex(d, key)
    decreases |d|
  {
    if k >= 2 {
      assert d[k + 1 := v][2..] == d[2..][k - 1 := v];
      UpdateKeepsKeys(d[2..], k - 2, v, key);
    } else {
      assert d[k + 1 := v][2..] == d[2..];
    }
  }

  lemma {:induction false} AppendKeepsKeys(d: seq<Tree>, k: Tree, v: Tree, key: string)
    requires |d| % 2 == 0 && k.Node?
    ensures KeyIndex(d + [k, v], key) == if HasKey(d, key) then KeyIndex(d, key) else if k.value == key then |d| else |d| + 2
    decreases |d|
  {
    if d == [] {
      assert d + [k, v] == [k, v] + [];
      ConsKey(k, v, [], key);
    } else {
      assert (d + [k, v])[2..] == d[2..] + [k, v];
      AppendKeepsKeys(d[2..], k, v, key);
    }
  }

  lemma PairMerged(path: Path, d: seq<Tree>, s: Tree, i: nat)
    requires PairsOk(d) && s.Is(Mapping) && SourceOk(s) && i + 1 < |s.content| && i % 2 == 0
    ensures PairsOk(MergePair(path, d, s, i)) && (SafeAt(path, s, i) ==> AgreesAt(path, MergePair(path, d, s, i), s, i))
    decreases s, 0, 0
  {
    hide SourceOk, Prune, MergeNode, IsKnownDefault, Agrees, FileOk, PairsOk, KeyIndex, MergePair, AgreesAt, BlanksSafe;
    SourcePair(s, i);
    var key, value := s.content[i].Name(), s.content[i + 1];
    var child := path + [key];
    if HasKey(d, key) {
      ValueIsFile(d, key);
      MergeResult(child, ValueOf(d, key), value);
      ReplacedAgrees(path, d, s, i, MergeNode(child, ValueOf(d, key), value));
    } else {
      PruneAgrees(child, value);
      AppendedAgrees(path, d, s, i);
    }
  }

  lemma ValueIsFile(d: seq<Tree>, key: string)
    requires PairsOk(d) && HasKey(d, key)
    ensures FileOk(ValueOf(d, key))
  {
    hide FileOk, KeyIndex;
    KeyIndexEven(d, key);
  }

  lemma ReplacedAgrees(path: Path, d: seq<Tree>, s: Tree, i: nat, v: Tree)
    requires PairsOk(d) && s.Node? && i + 1 < |s.content| && s.content[i].Node? && HasKey(d, s.content[i].value)
    requires v == MergeNode(path + [s.content[i].value], ValueOf(d, s.content[i].value), s.content[i + 1])
    requires FileOk(v)
    ensures PairsOk(MergePair(path, d, s, i))
    ensures Agrees(path + [s.content[i].value], v, s.content[i + 1]) ==> AgreesAt(path, MergePair(path, d, s, i), s, i)
  {
    hide MergeNode, Prune, IsKnownDefault, Agrees, FileOk, KeyIndex;
    var key := s.content[i].value;
    KeyIndexEven(d, key);
    UpdateKeepsKeys(d, KeyIndex(d, key), v, key);
    UpdatePairs(d, KeyIndex(d, key), v);
  }

  lemma AppendedAgrees(path: Path, d: seq<Tree>, s: Tree, i: nat)
    requires PairsOk(d) && s.Node? && i + 1 < |s.content| && s.content[i].Node? && !HasKey(d, s.content[i].value)
    requires var child, value := path + [s.content[i].value], s.content[i + 1];
      FileOk(Prune(child, value)) && Agrees(child, Prune(child, value), value)
    ensures PairsOk(MergePair(path, d, s, i)) && AgreesAt(path, MergePair(path, d, s, i), s, i)
  {
    hide MergeNode, Prune, IsKnownDefault, Agrees, FileOk, KeyIndex, PairsOk;
    var key, child := s.content[i].value, path + [s.content[i].value];
    var v := Prune(child, s.content[i + 1]);
    PairsTail(d);
    AppendPairs(d, s.content[i], v);
    AppendKeepsKeys(d, s.content[i], v, key);
  }

  /** Merging one pair leaves every other key's value alone. */
  lemma OtherPairs(path: Path, d: seq<Tree>, s: Tree, i: nat, key: string)
    requires PairsOk(d) && s.Node? && i + 1 < |s.content| && s.content[i].Node? && s.content[i].value != key
    ensures HasKey(MergePair(path, d, s, i), key) <==> HasKey(d, key)
    ensures HasKey(d, key) ==> ValueOf(MergePair(path, d, s, i), key) == ValueOf(d, key)
  {
    hide MergeNode, Prune, IsKnownDefault, FileOk, KeyIndex;
    var mine, value := s.content[i].value, s.content[i + 1];
    var child := path + [mine];
    var k := KeyIndex(d, mine);
    if k < |d| {
      KeyIndexEven(d, mine);
      UpdateKeepsKeys(d, k, MergeNode(child, d[k + 1], value), key);
      if HasKey(d, key) { KeyIndexEven(d, key); }
    } else {
      AppendKeepsKeys(d, s.content[i], Prune(child, value), key);
    }
  }

  lemma EarlierPair(path: Path, d: seq<Tree>, s: Tree, i: nat, j: nat)
    requires PairsOk(d) && s.Is(Mapping) && KeysOk(s.content) && j < i < |s.content| - 1 && i % 2 == 0 == j % 2
    requires AgreesAt(path, d, s, j)
    ensures AgreesAt(path, MergePair(path, d, s, i), s, j)
  {
    hide MergePair, Agrees, PairsOk;
    assert s.content[i].Node? && s.content[i].Name() != s.content[j].Name();
    OtherPairs(path, d, s, i, s.content[j].Name());
  }

  /** The pairs of `s` before `n` are agreed with, if their blank keys are safe. */
  ghost predicate AgreesUpTo(path: Path, m: seq<Tree>, s: Tree, n: nat)
    requires s.Node?
  {
    forall j :: 0 <= j < n && j % 2 == 0 && SafeAt(path, s, j) ==> AgreesAt(path, m, s, j)
  }

  lemma EarlierPairs(path: Path, d: seq<Tree>, s: Tree, i: nat)
    requires PairsOk(d) && s.Is(Mapping) && KeysOk(s.content) && i + 1 < |s.content| && i % 2 == 0 && AgreesUpTo(path, d, s, i)
    ensures AgreesUpTo(path, MergePair(path, d, s, i), s, i)
  {
    hide MergePair, AgreesAt, SafeAt, PairsOk, KeysOk;
    forall j | 0 <= j < i && j % 2 == 0 && SafeAt(path, s, j) ensures AgreesAt(path, MergePair(path, d, s, i), s, j) {
      EarlierPair(path, d, s, i, j);
    }
  }

  lemma OneMorePair(path: Path, d: seq<Tree>, s: Tree, i: nat)
    requires PairsOk(d) && s.Is(Mapping) && SourceOk(s) && i + 1 < |s.content| && i % 2 == 0 && AgreesUpTo(path, d, s, i)
    ensures PairsOk(MergePair(path, d, s, i)) && AgreesUpTo(path, MergePair(path, d, s, i), s, i + 2)
    decreases s, 1, 0
  {
    hide SourceOk, PairsOk, MergePair, AgreesAt, SafeAt, KeysOk, AgreesUpTo;
    SourceKeysOk(s);
    PairMerged(path, d, s, i);
    EarlierPairs(path, d, s, i);
    ExtendAgreement(path, MergePair(path, d, s, i), s, i);
  }

  lemma ExtendAgreement(path: Path, m: seq<Tree>, s: Tree, i: nat)
    requires s.Node? && i % 2 == 0 && AgreesUpTo(path, m, s, i) && (SafeAt(path, s, i) ==> AgreesAt(path, m, s, i))
    ensures AgreesUpTo(path, m, s, i + 2)
  {
    hide AgreesAt, SafeAt;
  }

  lemma PairsMerged(path: Path, d: seq<Tree>, s: Tree, i: nat)
    requires PairsOk(d) && s.Is(Mapping) && SourceOk(s) && i <= |s.content| && i % 2 == 0 && AgreesUpTo(path, d, s, i)
    ensures PairsOk(MergePairs(path, d, s, i)) && AgreesUpTo(path, MergePairs(path, d, s, i), s, |s.content|)
    decreases s, 2, |s.content| - i
  {
    hide SourceOk, PairsOk, MergePair, AgreesUpTo;
    SourceKeysOk(s);
    if i < |s.content| {
      OneMorePair(path, d, s, i);
      PairsMerged(path, MergePair(path, d, s, i), s, i + 2);
    }
  }

  // ---------------------------------------------------------------- the merge, case by case

  lemma MergeNodeMeans(path: Path, dst: Tree, src: Tree)
    ensures dst.Null? || src.Null? ==> MergeNode(path, dst, src) == dst
    ensures dst.Node? && src.Is(Mapping) ==>
      MergeNode(path, dst, src) == MergeMapping(path, if dst.kind != Mapping then CopyShallow(dst, src) else dst, src)
    ensures dst.Node? && (src.Is(Scalar) || src.Is(Alias)) ==>
      MergeNode(path, dst, src) == dst.(kind := src.kind, tag := src.tag, value := src.value)
    ensures dst.Node? && src.Is(Unset) ==> MergeNode(path, dst, src) == dst
    ensures dst.Node? && src.Is(Document) ==> MergeNode(path, dst, src) == CopyShallow(dst, src)
  {
    hide MergeMapping, CopyShallow;
  }

  lemma MergeSequenceMeans(path: Path, dst: Tree, src: Tree)
    requires dst.Node? && src.Is(Sequence)
    ensures MergeNode(path, dst, src) ==
      if dst.kind == Scalar && dst.tag == "!!null" && src.content == [] then dst
      else WithContent(AsSequence(dst), MergeElements(path, Reordered(AsSequence(dst).content, src.content), src))
  {
    hide MergeElements, Reordered;
  }

  lemma MergeMappingMeans(path: Path, dst: Tree, src: Tree)
    ensures MergeMapping(path, dst, src) ==
      if dst.Null? || src.Null? then dst
      else if dst.kind != Mapping || src.kind != Mapping then CopyShallow(dst, src)
      else WithContent(dst, MergePairs(path, dst.content, src, 0))
  {
    hide MergePairs, CopyShallow;
  }

  function WithContent(t: Tree, content: seq<Tree>): Tree
    requires t.Node?
  {
    t.(content := content)
  }

  lemma MergedElement(path: Path, ds: seq<Tree>, src: Tree, i: nat)
    requires src.Node? && i < |src.content|
    ensures MergeElements(path, ds, src)[i] == MergeElement(path, if i < |ds| then ds[i] else Null, src.content[i])
  {
    hide MergeElement;
  }

  /** What any merge gives, blank keys or not, and agreement where they are safe. */
  lemma MergeResult(path: Path, dst: Tree, src: Tree)
    requires FileOk(dst) && SourceOk(src)
    ensures FileOk(MergeNode(path, dst, src)) && (BlanksSafe(path, src) ==> Agrees(path, MergeNode(path, dst, src), src))
    ensures MergeNode(path, dst, src).kind == src.kind || src.Is(Sequence)
    decreases src, 3, 0
  {
    hide MergeNode, AgreesAt, SafeAt, ElementSafe;
    MergeNodeMeans(path, dst, src);
    match src.kind
    case Mapping =>
      var d := if dst.kind != Mapping then CopyShallow(dst, src) else dst;
      SourceIsFile(src);
      MappingMerged(path, d, src);
      if BlanksSafe(path, src) { AllAgree(path, MergeMapping(path, d, src), src); }
    case Sequence =>
      SequenceMerged(path, dst, src);
    case Scalar =>
  }

  lemma AllAgree(path: Path, m: Tree, s: Tree)
    requires s.Is(Mapping) && m.Is(Mapping) && BlanksSafe(path, s) && AgreesUpTo(path, m.content, s, |s.content|)
    ensures Agrees(path, m, s)
  {
    hide AgreesAt, SafeAt;
  }

  lemma MappingMerged(path: Path, d: Tree, src: Tree)
    requires FileOk(d) && d.Is(Mapping) && SourceOk(src) && src.Is(Mapping)
    ensures var m := MergeMapping(path, d, src);
      m.Is(Mapping) && FileOk(m) && PairsOk(m.content) && AgreesUpTo(path, m.content, src, |src.content|)
    decreases src, 2, |src.content| + 1
  {
    hide MergeMapping, MergePairs, SourceOk, AgreesAt, SafeAt, AgreesUpTo;
    assert PairsOk(d.content);
    NothingToAgree(path, d.content, src);
    PairsMerged(path, d.content, src, 0);
    MergeMappingMeans(path, d, src);
  }

  lemma NothingToAgree(path: Path, m: seq<Tree>, s: Tree)
    requires s.Node?
    ensures AgreesUpTo(path, m, s, 0)
  {
  }

  lemma SequenceMerged(path: Path, dst: Tree, src: Tree)
    requires FileOk(dst) && SourceOk(src) && src.Is(Sequence)
    ensures FileOk(MergeNode(path, dst, src)) && (BlanksSafe(path, src) ==> Agrees(path, MergeNode(path, dst, src), src))
    decreases src, 2, 0
  {
    hide MergeNode, MergeElements, Reordered, SourceOk, ElementSafe;
    MergeSequenceMeans(path, dst, src);
    var d := AsSequence(dst);
    ReorderedIsFile(d, src.content);
    ElementsMerged(path, Reordered(d.content, src.content), src);
  }

  lemma ReorderedIsFile(d: Tree, targets: seq<Tree>)
    requires FileOk(d) && d.Is(Sequence)
    ensures var r := Reordered(d.content, targets);
      forall i :: 0 <= i < |r| ==> r[i].Null? || FileOk(r[i])
  {
    hide Matches;
  }

  lemma ElementsMerged(path: Path, ds: seq<Tree>, src: Tree)
    requires src.Is(Sequence) && SourceOk(src) && forall i :: 0 <= i < |ds| ==> ds[i].Null? || FileOk(ds[i])
    ensures forall i :: 0 <= i < |src.content| ==> FileOk(MergeElements(path, ds, src)[i])
    ensures forall i :: 0 <= i < |src.content| && ElementSafe(path, src.content[i]) ==>
      Agrees(path, MergeElements(path, ds, src)[i], src.content[i])
    decreases src, 1, 0
  {
    hide MergeElements, MergeElement, SourceOk, Agrees, FileOk, ElementSafe;
    forall i | 0 <= i < |src.content|
      ensures FileOk(MergeElements(path, ds, src)[i])
      ensures ElementSafe(path, src.content[i]) ==> Agrees(path, MergeElements(path, ds, src)[i], src.content[i])
    {
      MergedElement(path, ds, src, i);
      SourceElement(src, i);
      ElementMerged(path, if i < |ds| then ds[i] else Null, src.content[i]);
    }
  }

  lemma ElementMerged(path: Path, d: Tree, s: Tree)
    requires (d.Null? || FileOk(d)) && SourceOk(s)
    ensures FileOk(MergeElement(path, d, s)) && (ElementSafe(path, s) ==> Agrees(path, MergeElement(path, d, s), s))
    decreases s, 4, 0
  {
    hide MergeNode, SourceOk, Agrees, FileOk, KeptPairs, BlanksSafe, KeySafe;
    if d.Null? {
      SourceIsFile(s);
      AgreesWithItself(path, s);
    } else if s.Is(Mapping) {
      MappingElementMerged(path, d, s);
    } else {
      MergeResult(path, d, s);
    }
  }

  lemma MappingElementMerged(path: Path, d: Tree, s: Tree)
    requires FileOk(d) && SourceOk(s) && s.Is(Mapping)
    ensures FileOk(MergeElement(path, d, s)) && (ElementSafe(path, s) ==> Agrees(path, MergeElement(path, d, s), s))
    decreases s, 3, 0
  {
    hide MergeNode, SourceOk, KeptPairs, AgreesAt, SafeAt, KeySafe, AgreesUpTo;
    SourceIsFile(s);
    var e := if d.kind != Mapping then CopyShallow(d, s) else d;
    MergeNodeMeans(path, d, s);
    MappingMerged(path, e, s);
    var m := MergeNode(path, d, s).content;
    KeptPairsOk(m, s.content);
    if ElementSafe(path, s) {
      forall i | 0 <= i < |s.content| && i % 2 == 0 ensures AgreesAt(path, KeptPairs(m, s.content), s, i) {
        AgreesUpToAt(path, m, s, i);
        KeptStillAgrees(path, m, s, i);
      }
    }
  }

  lemma AgreesUpToAt(path: Path, m: seq<Tree>, s: Tree, i: nat)
    requires s.Node? && i < |s.content| && i % 2 == 0 && AgreesUpTo(path, m, s, |s.content|)
    ensures SafeAt(path, s, i) ==> AgreesAt(path, m, s, i)
  {
    hide AgreesAt, SafeAt;
  }

  /** The central law: whatever the file held before, the merged tree agrees with its source. */
  lemma MergeAgrees(path: Path, dst: Tree, src: Tree)
    requires FileOk(dst) && SourceOk(src) && BlanksSafe(path, src)
    ensures Agrees(path, MergeNode(path, dst, src), src)
  {
    MergeResult(path, dst, src);
  }

  lemma AgreesWithItself(path: Path, s: Tree)
    requires SourceOk(s)
    ensures Agrees(path, s, s)
    decreases s, 1
  {
    hide AgreesAt;
    if s.kind == Mapping {
      forall i | 0 <= i < |s.content| && i % 2 == 0 ensures AgreesAt(path, s.content, s, i) {
        PairAgrees(path, s, i);
      }
    } else if s.kind == Sequence {
      forall i | 0 <= i < |s.content| ensures Agrees(path, s.content[i], s.content[i]) {
        AgreesWithItself(path, s.content[i]);
      }
    }
  }

  lemma PairAgrees(path: Path, s: Tree, i: nat)
    requires s.Is(Mapping) && SourceOk(s) && i < |s.content| && i % 2 == 0
    ensures AgreesAt(path, s.content, s, i)
    decreases s, 0
  {
    hide SourceOk, Agrees, KeyIndex;
    SourcePair(s, i);
    KeyIndexIs(s.content, s.content[i].Name(), i);
    AgreesWithItself(path + [s.content[i].Name()], s.content[i + 1]);
  }
}
