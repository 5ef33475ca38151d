/** Which sources a merge agrees with, exactly. A blank key of a mapping inside a sequence is taken for stale
    and removed; a file on which that shows is the source itself. */
module YamlBlankKeys {
  import opened Text
  import opened YamlTree
  import opened YamlMerge
  import opened YamlStructure

  // ---------------------------------------------------------------- merging a source into itself

  lemma EqualToItself(t: Tree)
    ensures StructurallyEqual(t, t)
  {
  }

  /** An element is its own first match among what is left. */
  lemma MatchesItself(all: seq<Tree>, used: set<nat>, i: nat)
    requires i < |all| && all[i].Node? && (forall k: nat :: k in used <==> k < i)
    ensures Match(all, used, all[i]) == i
  {
    EqualToItself(all[i]);
    FirstIs(all, used, 0, i, o => SameIdentity(o, all[i]));
    FirstIs(all, used, 0, i, o => StructurallyEqual(o, all[i]));
  }

  lemma {:induction false} FirstIs(all: seq<Tree>, used: set<nat>, from: nat, i: nat, test: Tree -> bool)
    requires from <= i < |all| && all[i].Node? && (forall k: nat :: k in used <==> k < i)
    ensures test(all[i]) ==> FirstUnused(all, used, from, test) == i
    decreases i - from
  {
    if from < i { FirstIs(all, used, from + 1, i, test); }
  }

  /** So merging a sequence into itself merges each element into itself. */
  lemma {:induction false} AllMatchThemselves(all: seq<Tree>, used: set<nat>, i: nat)
    requires i <= |all| && (forall k :: 0 <= k < |all| ==> all[k].Node?) && (forall k: nat :: k in used <==> k < i)
    ensures forall j :: 0 <= j < |all| - i ==> Matches(all, used, all[i..])[j] == i + j
    decreases |all| - i
  {
    hide Match;
    if i < |all| {
      MatchesItself(all, used, i);
      AllMatchThemselves(all, used + {i}, i + 1);
      var ks := Matches(all, used, all[i..]);
      assert all[i..][1..] == all[i + 1..] && all[i..][0] == all[i];
      assert ks == [i] + Matches(all, used + {i}, all[i + 1..]);
      forall j | 0 <= j < |all| - i ensures ks[j] == i + j {
        if j > 0 { assert ks[j] == Matches(all, used + {i}, all[i + 1..])[j - 1]; }
      }
    }
  }

  lemma SelfMergedElement(path: Path, s: Tree, i: nat)
    requires s.Is(Sequence) && SourceOk(s) && i < |s.content|
    ensures MergeNode(path, s, s).Is(Sequence) && |MergeNode(path, s, s).content| == |s.content|
    ensures MergeNode(path, s, s).content[i] == MergeElement(path, s.content[i], s.content[i])
  {
    hide MergeNode, MergeElement, MergeElements, Matches, SourceOk;
    forall k | 0 <= k < |s.content| ensures s.content[k].Node? {
      SourceElement(s, k);
      SourceIsNode(s.content[k]);
    }
    assert s.content[0..] == s.content;
    AllMatchThemselves(s.content, {}, 0);
    MergeSequenceMeans(path, s, s);
    var ds := Reordered(s.content, s.content);
    MergedElement(path, ds, s, i);
    assert ds[i] == Picked(s.content, Matches(s.content, {}, s.content)[i]);
  }

  lemma SourceIsNode(s: Tree)
    requires SourceOk(s)
    ensures s.Node?
  {
  }

  /** And merging a mapping into itself merges each value into itself. */
  lemma SelfMergedValue(path: Path, s: Tree, i: nat)
    requires s.Is(Mapping) && SourceOk(s) && i < |s.content| && i % 2 == 0
    ensures i + 1 < |s.content| && MergeNode(path, s, s).Is(Mapping) && PairsOk(MergeNode(path, s, s).content)
    ensures var r, key, value := MergeNode(path, s, s).content, s.content[i].Name(), s.content[i + 1];
      HasKey(r, key) && ValueOf(r, key) == MergeNode(path + [key], value, value)
  {
    hide MergeNode, SourceOk, FileOk, PairsOk, KeyIndex;
    SourceIsFile(s);
    SourcePair(s, i);
    KeyIndexIs(s.content, s.content[i].Name(), i);
    MergedLookup(path, s, s, s.content[i].Name());
  }

  // ---------------------------------------------------------------- the exact condition

  /** A blank key that is not safe is lost. */
  lemma UnsafeElementDisagrees(path: Path, e: Tree, i: nat)
    requires e.Is(Mapping) && SourceOk(e) && i < |e.content| && i % 2 == 0 && !KeySafe(path, e, i)
    requires !IsBlank(e.content[i].Name()) ==> SelfMergeDisagrees(path + [e.content[i].Name()], e.content[i + 1])
    ensures !Agrees(path, MergeElement(path, e, e), e)
  {
    hide MergeNode, SourceOk, PairsOk, KeptPairs, IsKnownDefault, Prune, BlanksSafe, KeyIndex, Trim;
    SourcePair(e, i);
    SelfMergedValue(path, e, i);
    var m, key := MergeNode(path, e, e).content, e.content[i].Name();
    if IsBlank(key) {
      BlankIsDropped(m, e.content, key);
    } else {
      assert IsKept(e.content, key);
      KeptLookup(m, e.content, key);
    }
    assert !AgreesAt(path, KeptPairs(m, e.content), e, i);
  }

  ghost predicate SelfMergeDisagrees(path: Path, s: Tree)
  {
    !Agrees(path, MergeNode(path, s, s), s)
  }

  /** A source with a blank key that is not safe does not survive being merged into itself. */
  lemma UnsafeDisagrees(path: Path, s: Tree)
    requires SourceOk(s) && !BlanksSafe(path, s)
    ensures SelfMergeDisagrees(path, s)
    decreases s, 1
  {
    hide MergeNode, SourceOk, ElementSafe, SafeAt;
    if s.Is(Mapping) {
      var i :| 0 <= i < |s.content| && i % 2 == 0 && !SafeAt(path, s, i);
      UnsafeValueDisagrees(path, s, i);
    } else {
      var i :| 0 <= i < |s.content| && !ElementSafe(path, s.content[i]);
      SourceElement(s, i);
      SelfMergedElement(path, s, i);
      UnsafeElement(path, s.content[i]);
    }
  }

  lemma UnsafeValueDisagrees(path: Path, s: Tree, i: nat)
    requires s.Is(Mapping) && SourceOk(s) && i < |s.content| && i % 2 == 0 && !SafeAt(path, s, i)
    ensures SelfMergeDisagrees(path, s)
    decreases s, 0
  {
    hide MergeNode, SourceOk, BlanksSafe, HasKey, IsKnownDefault, Prune, PairsOk;
    SourcePair(s, i);
    SelfMergedValue(path, s, i);
    UnsafeDisagrees(path + [s.content[i].Name()], s.content[i + 1]);
    assert !AgreesAt(path, MergeNode(path, s, s).content, s, i);
  }

  lemma UnsafeElement(path: Path, e: Tree)
    requires SourceOk(e) && !ElementSafe(path, e)
    ensures !Agrees(path, MergeElement(path, e, e), e)
    decreases e, 2
  {
    hide MergeNode, SourceOk, BlanksSafe, KeySafe, KeptPairs;
    SourceIsNode(e);
    if e.Is(Mapping) {
      var i :| 0 <= i < |e.content| && i % 2 == 0 && !KeySafe(path, e, i);
      UnsafeKey(path, e, i);
    } else {
      UnsafeDisagrees(path, e);
    }
  }

  lemma UnsafeKey(path: Path, e: Tree, i: nat)
    requires e.Is(Mapping) && SourceOk(e) && i < |e.content| && i % 2 == 0 && !KeySafe(path, e, i)
    ensures !Agrees(path, MergeElement(path, e, e), e)
    decreases e, 0
  {
    hide MergeNode, MergeElement, SourceOk, BlanksSafe, IsKnownDefault, Prune, SelfMergeDisagrees;
    SourcePair(e, i);
    if !IsBlank(e.content[i].Name()) { UnsafeDisagrees(path + [e.content[i].Name()], e.content[i + 1]); }
    UnsafeElementDisagrees(path, e, i);
  }

  /** The merge agrees with a source whatever the file holds, exactly if the source's blank keys are safe. */
  lemma AgreesWithEveryFile(path: Path, src: Tree)
    requires SourceOk(src)
    ensures BlanksSafe(path, src) <==> forall dst: Tree :: FileOk(dst) ==> Agrees(path, MergeNode(path, dst, src), src)
  {
    hide SourceOk, FileOk, BlanksSafe, Agrees, MergeNode;
    if BlanksSafe(path, src) {
      forall dst: Tree | FileOk(dst) ensures Agrees(path, MergeNode(path, dst, src), src) {
        MergeAgrees(path, dst, src);
      }
    } else {
      SourceIsFile(src);
      UnsafeDisagrees(path, src);
      assert FileOk(src) && !Agrees(path, MergeNode(path, src, src), src);
    }
  }

  /** In particular with a file that is the source itself, exactly then. */
  lemma AgreesWhenMergedIntoItself(path: Path, src: Tree)
    requires SourceOk(src)
    ensures BlanksSafe(path, src) <==> Agrees(path, MergeNode(path, src, src), src)
  {
    hide SourceOk, BlanksSafe, Agrees, MergeNode;
    SourceIsFile(src);
    if BlanksSafe(path, src) { MergeAgrees(path, src, src); } else { UnsafeDisagrees(path, src); }
  }
}
