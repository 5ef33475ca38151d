/** Which old element each element of a merged sequence is merged into, told from the elements alone. Elements are
    alike if they are mappings with the same identity, or else if they say the same; the first of a kind goes to
    the first of its kind in the file, the second to the second, and so on. */
module YamlPairing {
  import opened Text
  import opened YamlTree
  import opened YamlMerge
  import opened YamlStructure

  // ---------------------------------------------------------------- what an element says

  /** A node without tags, styles and comments, scalars trimmed. Of a mapping that does not pair up only the
      length counts for its last node. */
  function Erased(n: Tree): Tree
    decreases n, 1
  {
    if n.Null? then Null
    else if n.kind == Sequence then Node(Sequence, "", "", ErasedAll(n, |n.content|), 0)
    else if n.kind == Mapping then
      Node(Mapping, "", "", ErasedAll(n, |n.content| - |n.content| % 2) + if |n.content| % 2 == 1 then [Null] else [], 0)
    else Node(n.kind, "", Trim(n.value), [], 0)
  }

  function ErasedAll(n: Tree, count: nat): (r: seq<Tree>)
    requires n.Node? && count <= |n.content|
    ensures |r| == count && forall i :: 0 <= i < count ==> r[i] == Erased(n.content[i])
    decreases n, 0
  {
    seq(count, i requires 0 <= i < count => Erased(n.content[i]))
  }

  /** Structural equality is equality once what does not count is erased. */
  lemma EqualOnceErased(a: Tree, b: Tree)
    ensures StructurallyEqual(a, b) <==> Erased(a) == Erased(b)
    decreases a
  {
    hide Trim;
    if a.Node? && b.Node? && a.kind == b.kind && (a.kind == Mapping || a.kind == Sequence) && |a.content| == |b.content| {
      var m := |a.content| - (if a.kind == Mapping then |a.content| % 2 else 0);
      forall i | 0 <= i < m ensures StructurallyEqual(a.content[i], b.content[i]) <==> Erased(a.content[i]) == Erased(b.content[i]) {
        EqualOnceErased(a.content[i], b.content[i]);
      }
      if StructurallyEqual(a, b) {
        assert ErasedAll(a, m) == ErasedAll(b, m);
      } else {
        var i :| 0 <= i < m && !StructurallyEqual(a.content[i], b.content[i]);
        assert Erased(a).content[i] != Erased(b).content[i];
      }
    } else if a.Node? && b.Node? && a.kind == b.kind && (a.kind == Mapping || a.kind == Sequence) {
      assert |Erased(a).content| == |a.content| && |Erased(b).content| == |b.content|;
    }
  }

  // ---------------------------------------------------------------- identity

  /** Pair `j` has this key, but for case and blanks, and a scalar. */
  predicate IsUnder(content: seq<Tree>, key: string, j: nat)
  {
    j % 2 == 0 && j + 1 < |content| && content[j].Node? && content[j + 1].Is(Scalar) && Lower(Trim(content[j].value)) == key
  }

  predicate IsSpoken(content: seq<Tree>, j: nat)
  {
    j % 2 == 0 && j + 1 < |content| && content[j].Node? && content[j + 1].Is(Scalar) && Trim(content[j + 1].value) != ""
  }

  lemma Behind(content: seq<Tree>, j: nat)
    requires |content| >= 2
    ensures forall key :: IsUnder(content[2..], key, j) <==> IsUnder(content, key, j + 2)
    ensures IsSpoken(content[2..], j) <==> IsSpoken(content, j + 2)
  {
    hide Trim, Lower;
  }

  /** The scalar under a key is that of the first pair that has this key and a scalar, be it blank. */
  lemma {:induction false} ScalarUnderIs(content: seq<Tree>, key: string, j: nat)
    requires IsUnder(content, key, j) && forall l: nat :: l < j ==> !IsUnder(content, key, l)
    ensures ScalarUnder(content, key) == Trim(content[j + 1].value)
    decreases |content|
  {
    hide Trim, Lower;
    if j > 0 {
      assert !IsUnder(content, key, 0);
      Behind(content, j - 2);
      forall l: nat | l < j - 2 ensures !IsUnder(content[2..], key, l) {
        Behind(content, l);
      }
      ScalarUnderIs(content[2..], key, j - 2);
    }
  }

  lemma {:induction false} NoScalarUnder(content: seq<Tree>, key: string)
    requires forall j: nat :: !IsUnder(content, key, j)
    ensures ScalarUnder(content, key) == ""
    decreases |content|
  {
    hide Trim, Lower;
    if |content| >= 2 {
      assert !IsUnder(content, key, 0);
      forall j: nat ensures !IsUnder(content[2..], key, j) {
        Behind(content, j);
      }
      NoScalarUnder(content[2..], key);
    }
  }

  /** And the first scalar of all is that of the first pair that has one that is not blank. */
  lemma {:induction false} FirstScalarIs(content: seq<Tree>, j: nat)
    requires IsSpoken(content, j) && forall l: nat :: l < j ==> !IsSpoken(content, l)
    ensures FirstScalar(content) == Lower(Trim(content[j].value)) + "=" + Trim(content[j + 1].value)
    decreases |content|
  {
    hide Trim, Lower;
    if j > 0 {
      assert !IsSpoken(content, 0);
      Behind(content, j - 2);
      forall l: nat | l < j - 2 ensures !IsSpoken(content[2..], l) {
        Behind(content, l);
      }
      FirstScalarIs(content[2..], j - 2);
    }
  }

  lemma {:induction false} NoFirstScalar(content: seq<Tree>)
    requires forall j: nat :: !IsSpoken(content, j)
    ensures FirstScalar(content) == ""
    decreases |content|
  {
    hide Trim, Lower;
    if |content| >= 2 {
      assert !IsSpoken(content, 0);
      forall j: nat ensures !IsSpoken(content[2..], j) {
        Behind(content, j);
      }
      NoFirstScalar(content[2..]);
    }
  }

  const NAMES: seq<string> := ["id", "name", "alias", "api-key", "api_key", "apikey", "key", "provider", "model"]

  /** The identity of a mapping comes from the first of the named keys under which there is a scalar that is not blank. */
  lemma NamedIdentity(n: Tree, k: nat)
    requires n.Is(Mapping) && k < |NAMES| && ScalarUnder(n.content, NAMES[k]) != ""
    requires forall l :: 0 <= l < k ==> ScalarUnder(n.content, NAMES[l]) == ""
    ensures Identity(n) == NAMES[k] + "=" + ScalarUnder(n.content, NAMES[k])
  {
    hide ScalarUnder, FirstScalar;
    FirstIdentityIs(n.content, NAMES, k);
  }

  /** Without any, it comes from the first scalar that is not blank. */
  lemma NamelessIdentity(n: Tree)
    requires n.Is(Mapping) && forall l :: 0 <= l < |NAMES| ==> ScalarUnder(n.content, NAMES[l]) == ""
    ensures Identity(n) == FirstScalar(n.content)
  {
    hide ScalarUnder, FirstScalar;
    NoFirstIdentity(n.content, NAMES);
  }

  lemma {:induction false} FirstIdentityIs(content: seq<Tree>, keys: seq<string>, k: nat)
    requires k < |keys| && ScalarUnder(content, keys[k]) != "" && forall l :: 0 <= l < k ==> ScalarUnder(content, keys[l]) == ""
    ensures FirstIdentity(content, keys) == keys[k] + "=" + ScalarUnder(content, keys[k]) && FirstIdentity(content, keys) != ""
  {
    hide ScalarUnder;
    if k > 0 {
      assert ScalarUnder(content, keys[0]) == "";
      FirstIdentityIs(content, keys[1..], k - 1);
    }
  }

  lemma {:induction false} NoFirstIdentity(content: seq<Tree>, keys: seq<string>)
    requires forall l :: 0 <= l < |keys| ==> ScalarUnder(content, keys[l]) == ""
    ensures FirstIdentity(content, keys) == ""
  {
    hide ScalarUnder;
    if keys != [] {
      assert ScalarUnder(content, keys[0]) == "";
      NoFirstIdentity(content, keys[1..]);
    }
  }

  // ---------------------------------------------------------------- alike

  /** What an element is recognized by: the identity of a mapping that has one, else all that it says. */
  function Class(n: Tree): Tree
  {
    if n.Is(Mapping) && Identity(n) != "" then Node(Mapping, "", Identity(n), [], 0) else Erased(n)
  }

  /** As parsed: a key that is itself a mapping or a sequence has no value of its own. */
  predicate PlainKeys(n: Tree)
  {
    n.Is(Mapping) ==> forall j :: 0 <= j < |n.content| && j % 2 == 0 && (n.content[j].Is(Mapping) || n.content[j].Is(Sequence))
                        ==> Trim(n.content[j].value) == ""
  }

  /** The pairs show the same to who looks for an identity. */
  predicate SamePairs(a: seq<Tree>, b: seq<Tree>)
  {
    && |a| == |b|
    && (forall j :: 0 <= j < |a| - 1 && j % 2 == 0 ==> SamePair(a, b, j))
  }

  predicate SamePair(a: seq<Tree>, b: seq<Tree>, j: nat)
    requires j + 1 < |a| == |b|
  {
    && (a[j].Node? <==> b[j].Node?) && (a[j].Node? ==> Trim(a[j].value) == Trim(b[j].value))
    && (a[j + 1].Is(Scalar) <==> b[j + 1].Is(Scalar)) && (a[j + 1].Is(Scalar) ==> Trim(a[j + 1].value) == Trim(b[j + 1].value))
  }

  lemma {:induction false} SameScalars(a: seq<Tree>, b: seq<Tree>, key: string)
    requires SamePairs(a, b)
    ensures ScalarUnder(a, key) == ScalarUnder(b, key) && FirstScalar(a) == FirstScalar(b)
    decreases |a|
  {
    hide Trim, Lower;
    if |a| >= 2 {
      assert SamePair(a, b, 0);
      forall j | 0 <= j < |a| - 3 && j % 2 == 0 ensures SamePair(a[2..], b[2..], j) {
        assert SamePair(a, b, j + 2);
      }
      SameScalars(a[2..], b[2..], key);
    }
  }

  lemma {:induction false} SameFirst(a: seq<Tree>, b: seq<Tree>, keys: seq<string>)
    requires SamePairs(a, b)
    ensures FirstIdentity(a, keys) == FirstIdentity(b, keys)
  {
    hide ScalarUnder, SamePairs;
    if keys != [] {
      SameScalars(a, b, keys[0]);
      SameFirst(a, b, keys[1..]);
    }
  }

  lemma SameIdentityIfEqual(a: Tree, b: Tree)
    requires a.Is(Mapping) && StructurallyEqual(a, b) && PlainKeys(a) && PlainKeys(b)
    ensures Identity(a) == Identity(b)
  {
    hide Trim, Lower, FirstIdentity, FirstScalar;
    forall j | 0 <= j < |a.content| - 1 && j % 2 == 0 ensures SamePair(a.content, b.content, j) {
      assert StructurallyEqual(a.content[j], b.content[j]) && StructurallyEqual(a.content[j + 1], b.content[j + 1]);
    }
    SameFirst(a.content, b.content, IDENTITY_KEYS);
    SameScalars(a.content, b.content, "");
  }

  /** Two elements are alike exactly if one of the two ways to recognize an element recognizes them. */
  lemma AlikeMeans(o: Tree, t: Tree)
    requires o.Node? && t.Node? && PlainKeys(o) && PlainKeys(t)
    ensures Class(o) == Class(t) <==> SameIdentity(o, t) || StructurallyEqual(o, t)
    ensures Class(o) == Class(t) && (exists p :: SameIdentity(p, t)) ==> SameIdentity(o, t)
  {
    hide Trim, Identity, StructurallyEqual, Erased;
    EqualOnceErased(o, t);
    ErasedMapping(o);
    ErasedMapping(t);
    if StructurallyEqual(o, t) {
      EqualKinds(o, t);
      if o.Is(Mapping) { SameIdentityIfEqual(o, t); }
    } else if o.Is(Scalar) && t.Is(Scalar) {
      ScalarsDiffer(o, t);
    }
  }

  lemma ScalarsDiffer(o: Tree, t: Tree)
    requires o.Is(Scalar) && t.Is(Scalar)
    ensures StructurallyEqual(o, t) <==> Trim(o.value) == Trim(t.value)
  {
    hide Trim;
  }

  lemma EqualKinds(o: Tree, t: Tree)
    requires o.Node? && t.Node? && StructurallyEqual(o, t)
    ensures o.kind == t.kind
    ensures o.Is(Scalar) ==> Trim(o.value) == Trim(t.value)
  {
  }

  lemma ErasedMapping(n: Tree)
    requires n.Node?
    ensures Erased(n).Node? && Erased(n).kind == n.kind
    ensures n.Is(Mapping) ==> Erased(n).value == ""
    ensures n.Is(Scalar) ==> Erased(n).value == Trim(n.value) && Erased(n).content == [] && Erased(n).trivia == 0 && Erased(n).tag == ""
  {
  }

  // ---------------------------------------------------------------- the first, the second, and so on

  /** How many of the first `k` are alike to `x`. */
  function Count(s: seq<Tree>, k: nat, x: Tree): nat
    requires k <= |s|
  {
    if k == 0 then 0 else Count(s, k - 1, x) + if s[k - 1].Node? && Class(s[k - 1]) == Class(x) then 1 else 0
  }

  /** Element `k` is alike to `x`, with exactly `n` before it. */
  predicate IsNth(s: seq<Tree>, k: nat, x: Tree, n: nat)
  {
    k < |s| && s[k].Node? && Class(s[k]) == Class(x) && Count(s, k, x) == n
  }

  lemma {:induction false} CountGrows(s: seq<Tree>, j: nat, k: nat, x: Tree)
    requires j <= k <= |s|
    ensures Count(s, j, x) <= Count(s, k, x)
    ensures j < k && s[j].Node? && Class(s[j]) == Class(x) ==> Count(s, j, x) < Count(s, k, x)
    decreases k
  {
    hide Class;
    if j < k { CountGrows(s, j, k - 1, x); }
  }

  lemma {:induction false} NthExists(s: seq<Tree>, k: nat, x: Tree, n: nat) returns (j: nat)
    requires k <= |s| && n < Count(s, k, x)
    ensures j < k && IsNth(s, j, x, n)
  {
    hide Class;
    if s[k - 1].Node? && Class(s[k - 1]) == Class(x) && Count(s, k - 1, x) == n {
      j := k - 1;
    } else {
      j := NthExists(s, k - 1, x, n);
    }
  }

  lemma {:induction false} SameClassSameCount(s: seq<Tree>, k: nat, x: Tree, y: Tree)
    requires k <= |s| && Class(x) == Class(y)
    ensures Count(s, k, x) == Count(s, k, y)
  {
    hide Class;
    if k > 0 { SameClassSameCount(s, k - 1, x, y); }
  }

  // ---------------------------------------------------------------- the match

  lemma {:induction false} FirstUnusedIsFirst(originals: seq<Tree>, used: set<nat>, i: nat, test: Tree -> bool)
    requires i <= |originals|
    ensures forall j :: i <= j < FirstUnused(originals, used, i, test) ==> j in used || originals[j].Null? || !test(originals[j])
    decreases |originals| - i
  {
    if i < |originals| && !(i !in used && originals[i].Node? && test(originals[i])) {
      FirstUnusedIsFirst(originals, used, i + 1, test);
    }
  }

  ghost predicate AllPlain(s: seq<Tree>)
  {
    forall k :: 0 <= k < |s| ==> PlainKeys(s[k])
  }

  /** Both passes together find the first unused element that is alike. */
  lemma MatchIsFirstAlike(originals: seq<Tree>, used: set<nat>, target: Tree)
    requires AllPlain(originals) && target.Node? && PlainKeys(target)
    ensures var k := Match(originals, used, target);
      && (k < |originals| ==> Class(originals[k]) == Class(target))
      && (forall j :: 0 <= j < k ==> j in used || originals[j].Null? || Class(originals[j]) != Class(target))
  {
    hide Class, SameIdentity, StructurallyEqual, PlainKeys;
    var k := Match(originals, used, target);
    FirstUnusedIsFirst(originals, used, 0, o => SameIdentity(o, target));
    FirstUnusedIsFirst(originals, used, 0, o => StructurallyEqual(o, target));
    if k < |originals| { AlikeMeans(originals[k], target); }
    forall j | 0 <= j < k && j !in used && originals[j].Node? ensures Class(originals[j]) != Class(target) {
      AlikeMeans(originals[j], target);
    }
  }

  /** After the first `t` targets, used are just the elements that come early enough among those alike. */
  ghost predicate UsedUpTo(originals: seq<Tree>, targets: seq<Tree>, t: nat, used: set<nat>)
    requires t <= |targets|
  {
    forall k: nat :: k < |originals| && originals[k].Node? ==>
      (k in used <==> Count(originals, k, originals[k]) < Count(targets, t, originals[k]))
  }

  /** Target `i` goes to element `k`, which is as far along among those alike; or there is none that is. */
  ghost predicate Paired(originals: seq<Tree>, targets: seq<Tree>, i: nat, k: nat)
    requires i < |targets|
  {
    var n := Count(targets, i, targets[i]);
    if k < |originals| then IsNth(originals, k, targets[i], n) else forall j: nat :: !IsNth(originals, j, targets[i], n)
  }

  /** So the next target is matched to the element that is as far along among those alike as the target is. */
  lemma MatchIsNth(originals: seq<Tree>, targets: seq<Tree>, t: nat, used: set<nat>)
    requires AllPlain(originals) && t < |targets| && targets[t].Node? && PlainKeys(targets[t]) && UsedUpTo(originals, targets, t, used)
    ensures Paired(originals, targets, t, Match(originals, used, targets[t]))
  {
    hide Class, Match, PlainKeys;
    var x := targets[t];
    var k, n := Match(originals, used, x), Count(targets, t, x);
    MatchIsFirstAlike(originals, used, x);
    if k < |originals| {
      SameClassSameCount(originals, k, originals[k], x);
      SameClassSameCount(targets, t, originals[k], x);
      if Count(originals, k, x) > n {
        var j := NthExists(originals, k, x, n);
        SameClassSameCount(originals, j, originals[j], x);
        SameClassSameCount(targets, t, originals[j], x);
        assert false;
      }
    } else {
      forall j: nat ensures !IsNth(originals, j, x, n) {
        if IsNth(originals, j, x, n) {
          SameClassSameCount(originals, j, originals[j], x);
          SameClassSameCount(targets, t, originals[j], x);
          assert false;
        }
      }
    }
  }

  lemma UsedNext(originals: seq<Tree>, targets: seq<Tree>, t: nat, used: set<nat>)
    requires AllPlain(originals) && t < |targets| && targets[t].Node? && PlainKeys(targets[t]) && UsedUpTo(originals, targets, t, used)
    ensures var k := Match(originals, used, targets[t]);
      UsedUpTo(originals, targets, t + 1, if k < |originals| then used + {k} else used)
  {
    hide Class, Match, PlainKeys, AllPlain;
    var x := targets[t];
    var k, n := Match(originals, used, x), Count(targets, t, x);
    MatchIsNth(originals, targets, t, used);
    var used' := if k < |originals| then used + {k} else used;
    forall j: nat | j < |originals| && originals[j].Node?
      ensures j in used' <==> Count(originals, j, originals[j]) < Count(targets, t + 1, originals[j])
    {
      if Class(originals[j]) == Class(x) {
        SameClassSameCount(originals, j, originals[j], x);
        SameClassSameCount(targets, t, originals[j], x);
        assert IsNth(originals, j, x, n) <==> Count(originals, j, x) == n;
        if k < |originals| && Count(originals, j, x) == n { OnlyNth(originals, j, k, x); }
      }
    }
  }

  lemma OnlyNth(s: seq<Tree>, j: nat, k: nat, x: Tree)
    requires j < |s| && k < |s| && s[j].Node? && s[k].Node? && Class(s[j]) == Class(x) == Class(s[k]) && Count(s, j, x) == Count(s, k, x)
    ensures j == k
  {
    hide Class;
    if j < k { CountGrows(s, j, k, x); }
    if k < j { CountGrows(s, k, j, x); }
  }

  lemma {:induction false} MatchedInOrder(originals: seq<Tree>, targets: seq<Tree>, t: nat, used: set<nat>, i: nat)
    requires AllPlain(originals) && AllPlain(targets) && (forall k :: 0 <= k < |targets| ==> targets[k].Node?)
    requires t <= i < |targets| && UsedUpTo(originals, targets, t, used)
    ensures Paired(originals, targets, i, Matches(originals, used, targets[t..])[i - t])
    decreases |targets| - t
  {
    hide Match, IsNth, Count, UsedUpTo, PlainKeys, Paired;
    var k := Match(originals, used, targets[t]);
    var used' := if k < |originals| then used + {k} else used;
    assert targets[t..][0] == targets[t] && targets[t..][1..] == targets[t + 1..];
    if i == t {
      MatchIsNth(originals, targets, t, used);
    } else {
      UsedNext(originals, targets, t, used);
      MatchedInOrder(originals, targets, t + 1, used', i);
    }
  }

  lemma NoneUsedYet(originals: seq<Tree>, targets: seq<Tree>)
    ensures UsedUpTo(originals, targets, 0, {})
  {
    hide Class;
  }

  /** The elements the file has there. A node that is no sequence has none. */
  function Olds(dst: Tree): seq<Tree>
  {
    if dst.Is(Sequence) then dst.content else []
  }

  lemma SourceNodes(src: Tree)
    requires SourceOk(src) && src.Is(Sequence)
    ensures forall k :: 0 <= k < |src.content| ==> src.content[k].Node?
  {
    forall k | 0 <= k < |src.content| ensures src.content[k].Node? {
      SourceElement(src, k);
    }
  }

  /** A merged sequence, element by element: the n-th of those alike is merged into the n-th of those alike in the file
      and rid of stale keys, and copied if the file has no n-th. */
  lemma ElementsArePaired(path: Path, dst: Tree, src: Tree, i: nat)
    requires FileOk(dst) && SourceOk(src) && src.Is(Sequence) && i < |src.content| && AllPlain(Olds(dst)) && AllPlain(src.content)
    ensures var r, olds, e := MergeNode(path, dst, src), Olds(dst), src.content[i];
      var n := Count(src.content, i, e);
      && r.Is(Sequence) && |r.content| == |src.content|
      && (forall k: nat :: IsNth(olds, k, e, n) ==> r.content[i] == PruneMissing(MergeNode(path, olds[k], e), e))
      && ((forall k: nat :: !IsNth(olds, k, e, n)) ==> r.content[i] == e)
  {
    hide MergeNode, FileOk, SourceOk, Matches, IsNth, Count, PlainKeys, PruneMissing, Paired, Reused, Unused, UsedUpTo;
    var olds := Olds(dst);
    AreNodes(dst, src);
    SourceNodes(src);
    SequenceReuse(path, dst, src);
    assert AsSequence(dst).content == olds;
    NoneUsedYet(olds, src.content);
    assert src.content[0..] == src.content;
    MatchedInOrder(olds, src.content, 0, {}, i);
    var ks := Matches(olds, {}, src.content);
    ElementFollows(path, olds, src.content, ks[i], i, MergeNode(path, dst, src).content[i]);
  }

  lemma ElementFollows(path: Path, olds: seq<Tree>, targets: seq<Tree>, k: nat, i: nat, r: Tree)
    requires i < |targets| && Paired(olds, targets, i, k) && Reused(path, olds, targets, k, i, r)
    ensures var e, n := targets[i], Count(targets, i, targets[i]);
      && (forall j: nat :: IsNth(olds, j, e, n) ==> j < |olds| && r == PruneMissing(MergeNode(path, olds[j], e), e))
      && ((forall j: nat :: !IsNth(olds, j, e, n)) ==> r == e)
  {
    hide MergeNode, IsNth, Count, PruneMissing;
    var e, n := targets[i], Count(targets, i, targets[i]);
    forall j: nat | IsNth(olds, j, e, n) ensures j == k && k < |olds| {
      BothNth(olds, j, k, e, n);
    }
  }

  lemma BothNth(s: seq<Tree>, k: nat, j: nat, x: Tree, n: nat)
    requires IsNth(s, k, x, n)
    ensures k < |s| && (j < |s| && IsNth(s, j, x, n) ==> j == k)
  {
    hide Class;
    if j < |s| && IsNth(s, j, x, n) { OnlyNth(s, k, j, x); }
  }

  // ---------------------------------------------------------------- what an edited element keeps

  /** Only element `k` is alike to `x`. */
  predicate Alone(s: seq<Tree>, k: nat, x: Tree)
  {
    k < |s| && s[k].Node? && Class(s[k]) == Class(x) && forall j :: 0 <= j < |s| && j != k ==> s[j].Null? || Class(s[j]) != Class(x)
  }

  lemma {:induction false} AloneCounts(s: seq<Tree>, k: nat, x: Tree, m: nat)
    requires Alone(s, k, x) && m <= k
    ensures Count(s, m, x) == 0
  {
    hide Class;
    if m > 0 { AloneCounts(s, k, x, m - 1); }
  }

  /** An element that is the only one of its identity, in the file and in the configuration, stays in the file: with
      its comments and with its node for every key that is still there, wherever it moved and whatever else of it changed. */
  lemma EditedElementIsKept(path: Path, dst: Tree, src: Tree, i: nat, k: nat, j: nat)
    requires FileOk(dst) && SourceOk(src) && src.Is(Sequence) && i < |src.content| && AllPlain(Olds(dst)) && AllPlain(src.content)
    requires Alone(Olds(dst), k, src.content[i]) && Alone(src.content, i, src.content[i])
    requires src.content[i].Is(Mapping) && Identity(src.content[i]) != ""
    ensures MergeNode(path, dst, src).Is(Sequence) && i < |MergeNode(path, dst, src).content|
    ensures var was, m, e := Olds(dst)[k], MergeNode(path, dst, src).content[i], src.content[i];
      && m.Is(Mapping) && m.trivia == was.trivia && was.Is(Mapping) && Identity(was) == Identity(e)
      && (j % 2 == 0 && j + 1 < |was.content| && IsKept(e.content, was.content[j].Name())
          ==> exists l :: 0 <= l < |m.content| && l % 2 == 0 && m.content[l] == was.content[j])
  {
    hide MergeNode, FileOk, SourceOk, Class, IsNth, IsKept, Trim, AllPlain, Identity, Alone, KeptPairs, Added, Final;
    var e := src.content[i];
    AloneIsNth(src.content, i, e);
    AloneIsNth(Olds(dst), k, e);
    var was := Olds(dst)[k];
    ElementsArePaired(path, dst, src, i);
    AlikeMapping(was, e);
    OldIsFile(dst, k);
    SourceElement(src, i);
    MergeKeepsOrder(path, was, e);
    MergedIsMapping(path, was, e);
    if j % 2 == 0 && j + 1 < |was.content| && IsKept(e.content, was.content[j].Name()) {
      var m := MergeNode(path, was, e).content;
      assert PairGrown(path, was.content, m, e, 0, j);
      FileIsPairs(was);
      KeyAt(was.content, j);
      var l := KeptNode(m, e.content, j);
    }
  }

  lemma AloneIsNth(s: seq<Tree>, k: nat, x: Tree)
    requires Alone(s, k, x)
    ensures IsNth(s, k, x, 0) && Count(s, k, x) == 0 && k < |s| && s[k].Node? && Class(s[k]) == Class(x)
  {
    AloneCounts(s, k, x, k);
  }

  lemma AlikeMapping(was: Tree, e: Tree)
    requires was.Node? && Class(was) == Class(e) && e.Is(Mapping) && Identity(e) != ""
    ensures was.Is(Mapping) && Identity(was) == Identity(e)
  {
    hide Identity;
    ErasedMapping(was);
  }

  lemma OldIsFile(dst: Tree, k: nat)
    requires FileOk(dst) && k < |Olds(dst)| && Olds(dst)[k].Node?
    ensures FileOk(Olds(dst)[k])
  {
  }

  lemma MergedIsMapping(path: Path, was: Tree, e: Tree)
    requires FileOk(was) && SourceOk(e) && was.Is(Mapping) && e.Is(Mapping)
    ensures MergeNode(path, was, e).Is(Mapping) && PairsOk(MergeNode(path, was, e).content)
  {
    hide MergeNode, FileOk, SourceOk, PairsOk;
    MergeResult(path, was, e);
    FileIsPairs(MergeNode(path, was, e));
  }

  lemma {:induction false} KeptNode(d: seq<Tree>, s: seq<Tree>, j: nat) returns (l: nat)
    requires PairsOk(d) && j % 2 == 0 && j + 1 < |d| && IsKept(s, d[j].Name())
    ensures l < |KeptPairs(d, s)| && l % 2 == 0 && KeptPairs(d, s)[l] == d[j]
    decreases |d|
  {
    hide IsKept, PairsOk, KeptPairs;
    PairsTail(d);
    KeptPairsStep(d, s);
    if j == 0 {
      l := 0;
    } else {
      var rest := d[2..];
      assert rest[j - 2] == d[j];
      l := KeptNode(rest, s, j - 2);
      if IsKept(s, d[0].Name()) {
        AfterTwo(d[0], d[1], KeptPairs(rest, s), l);
        l := l + 2;
      }
    }
  }

  lemma AfterTwo(a: Tree, b: Tree, rest: seq<Tree>, l: nat)
    requires l < |rest|
    ensures l + 2 < |[a, b] + rest| && ([a, b] + rest)[l + 2] == rest[l]
  {
  }

  lemma KeptPairsStep(d: seq<Tree>, s: seq<Tree>)
    requires |d| >= 2 && d[0].Node?
    ensures KeptPairs(d, s) == if IsKept(s, d[0].Name()) then [d[0], d[1]] + KeptPairs(d[2..], s) else KeptPairs(d[2..], s)
  {
    hide IsKept;
    assert d[..2] == [d[0], d[1]];
  }

  /** A scalar element keeps its comments if it is the only one that reads the same, blanks around it aside. */
  lemma ScalarElementIsKept(path: Path, dst: Tree, src: Tree, i: nat, k: nat)
    requires FileOk(dst) && SourceOk(src) && src.Is(Sequence) && i < |src.content| && AllPlain(Olds(dst)) && AllPlain(src.content)
    requires src.content[i].Is(Scalar) && Alone(Olds(dst), k, src.content[i]) && Alone(src.content, i, src.content[i])
    ensures MergeNode(path, dst, src).Is(Sequence) && i < |MergeNode(path, dst, src).content|
    ensures var was, m, e := Olds(dst)[k], MergeNode(path, dst, src).content[i], src.content[i];
      && was.Is(Scalar) && Trim(was.value) == Trim(e.value)
      && m.Is(Scalar) && m.trivia == was.trivia && m.tag == e.tag && m.value == e.value
  {
    hide MergeNode, FileOk, SourceOk, Class, IsNth, Trim, AllPlain, Alone, Identity;
    var e := src.content[i];
    AloneIsNth(src.content, i, e);
    AloneIsNth(Olds(dst), k, e);
    var was := Olds(dst)[k];
    ElementsArePaired(path, dst, src, i);
    AlikeScalar(was, e);
    MergeNodeMeans(path, was, e);
  }

  lemma AlikeScalar(was: Tree, e: Tree)
    requires was.Node? && Class(was) == Class(e) && e.Is(Scalar)
    ensures was.Is(Scalar) && Trim(was.value) == Trim(e.value)
  {
    hide Identity, Trim;
    ErasedMapping(was);
    ErasedMapping(e);
  }

  /** An explicit null is left as it is where there is nothing to list; any other node becomes a sequence, tagged as
      one if it was none, with its own comments. */
  lemma SequenceNode(path: Path, dst: Tree, src: Tree)
    requires dst.Node? && src.Is(Sequence)
    ensures var r := MergeNode(path, dst, src);
      if dst.Is(Scalar) && dst.tag == "!!null" && src.content == [] then r == dst
      else r.Is(Sequence) && r.trivia == dst.trivia && r.tag == (if dst.Is(Sequence) then dst.tag else "!!seq")
  {
    hide MergeElements, Reordered;
  }
}
