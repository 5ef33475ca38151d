/** The merge itself, in place. The destination's objects stay where they are unless the tree they stand
    for loses them; the source is not touched; what is added is new. */
module YamlMergeInPlace {
  import opened Text
  import opened YamlTree
  import opened YamlMerge
  import opened YamlStructure
  import opened YamlGraph
  import opened YamlShapes
  import opened YamlInPlace

  /** New content for a node. */
  method SetContent(dst: YNode, content: seq<YNode?>, ghost kids: seq<Shape>) returns (ghost r: Shape)
    requires RepAll(content, kids) && dst !in AllNodes(kids)
    modifies dst`content
    ensures dst.content == content && r == At(dst, kids) && Rep(r) && Nodes(r) == {dst} + AllNodes(kids)
    ensures Abs(r) == Node(dst.kind, dst.tag, dst.value, old(AbsAll(kids)), dst.trivia)
  {
    hide Rep, RepAll, Nodes, AllNodes, Abs;
    assert allocated(AllNodes(kids));
    dst.content := content;
    r := At(dst, kids);
    Fold(r);
  }

  /** The same for a node that was a tree before. */
  method ReplaceContent(dst: YNode, ghost d: Shape, content: seq<YNode?>, ghost kids: seq<Shape>) returns (ghost r: Shape)
    requires Root(d) == dst && Rep(d) && RepAll(content, kids) && dst !in AllNodes(kids)
    modifies dst`content
    ensures dst.content == content && r == At(dst, kids) && Rep(r) && Nodes(r) == {dst} + AllNodes(kids)
    ensures old(Abs(d)).Node? && Abs(r) == WithContent(old(Abs(d)), old(AbsAll(kids)))
  {
    hide Rep, RepAll, Nodes, AllNodes, Abs, WithContent;
    AbsMeans(d);
    Unfold(d);
    r := SetContent(dst, content, kids);
    Updated(old(Abs(d)), Abs(r));
  }

  method SetFields(dst: YNode, kind: Kind, tag: string, value: string)
    modifies dst`kind, dst`tag, dst`value
    ensures dst.kind == kind && dst.tag == tag && dst.value == value
  {
    dst.kind, dst.tag, dst.value := kind, tag, value;
  }

  // ---------------------------------------------------------------- copies

  /** The copies of a row of trees. */
  method CopyAll(content: seq<YNode?>, ghost kids: seq<Shape>, ghost graph: set<YNode>) returns (copies: seq<YNode?>, ghost made: seq<Shape>)
    requires RepAll(content, kids) && AllNodes(kids) <= graph && Closed(graph)
    ensures RepAll(copies, made) && fresh(AllNodes(made)) && AbsAll(made) == old(AbsAll(kids))
  {
    hide Rep, RepAll, Nodes, AllNodes, Abs, Closed;
    RowNone();
    RowLength(content, kids);
    copies, made := [], [];
    var i := 0;
    while i < |content|
      invariant i <= |content| == |kids| && RepAll(content, kids) && Closed(graph)
      invariant AbsAll(kids) == old(AbsAll(kids))
      invariant RepAll(copies, made) && fresh(AllNodes(made)) && AbsAll(made) == AbsAll(kids)[..i]
    {
      Kid(content, kids, i);
      assert allocated(graph) && allocated(AllNodes(kids)) && allocated(AllNodes(made));
      var c;
      ghost var k;
      c, k := DeepCopyTree(content[i], kids[i], graph);
      RowAdd(copies, made, k);
      TakeMore(AbsAll(kids), i);
      copies, made := copies + [c], made + [k];
      i := i + 1;
    }
    TakeAll(AbsAll(kids));
  }

  /** Kind, tag, value and content taken over; the object, and what hangs on it, stays. */
  method CopyNodeShallow(dst: YNode?, ghost d: Shape, src: YNode?, ghost s: Shape, ghost graph: set<YNode>) returns (ghost r: Shape)
    requires Root(d) == dst && Rep(d) && Root(s) == src && Rep(s) && Nodes(s) <= graph && Closed(graph) && Nodes(d) !! graph
    modifies Nodes(d)
    ensures Root(r) == dst && Rep(r) && (forall n :: n in Nodes(r) ==> n in Nodes(d) || fresh(n))
    ensures Rep(s) && Closed(graph) && Abs(s) == old(Abs(s))
    ensures Abs(r) == CopyShallow(old(Abs(d)), old(Abs(s)))
  {
    hide Rep, RepAll, Nodes, AllNodes, Abs, Closed;
    r := d;
    AbsMeans(d);
    AbsMeans(s);
    if dst == null || src == null { return; }
    Unfold(d);
    Unfold(s);
    assert allocated(graph) && allocated(Nodes(s)) && allocated(AllNodes(s.kids)) && allocated(Nodes(d));
    var content: seq<YNode?> := [];
    ghost var kids: seq<Shape> := [];
    content, kids := CopyAll(src.content, s.kids, graph);
    assert allocated(AllNodes(kids)) && dst !in AllNodes(kids) && dst !in graph && dst !in Nodes(s);
    SetFields(dst, src.kind, src.tag, src.value);
    r := SetContent(dst, content, kids);
  }

  // ---------------------------------------------------------------- sequences

  /** The pointers picked out of `original` for the targets done so far. */
  ghost predicate PicksAre(original: seq<YNode?>, picks: seq<nat>, ordered: seq<YNode?>)
  {
    |picks| <= |ordered| && forall j :: 0 <= j < |picks| ==> ordered[j] == if picks[j] < |original| then original[picks[j]] else null
  }

  lemma PicksMore(original: seq<YNode?>, picks: seq<nat>, ordered: seq<YNode?>, k: nat)
    requires PicksAre(original, picks, ordered) && |picks| < |ordered| && ordered[|picks|] == null
    ensures k < |original| ==> PicksAre(original, picks + [k], ordered[|picks| := original[k]])
    ensures k >= |original| ==> PicksAre(original, picks + [k], ordered)
  {
  }

  ghost function PickedShapes(kids: seq<Shape>, picks: seq<nat>): seq<Shape>
  {
    seq(|picks|, i requires 0 <= i < |picks| => if picks[i] < |kids| then kids[picks[i]] else Nil)
  }

  /** No object is picked twice, so what is picked is a row of trees again. */
  lemma RowPicked(original: seq<YNode?>, kids: seq<Shape>, picks: seq<nat>, ordered: seq<YNode?>, originals: seq<Tree>)
    requires RepAll(original, kids) && |ordered| == |picks| && PicksAre(original, picks, ordered)
    requires |originals| == |kids| && Unused(originals, {}, picks)
    ensures RepAll(ordered, PickedShapes(kids, picks)) && AllNodes(PickedShapes(kids, picks)) <= AllNodes(kids)
    ensures forall i :: 0 <= i < |picks| ==> AbsAll(PickedShapes(kids, picks))[i] == Picked(AbsAll(kids), picks[i])
  {
    RowLength(original, kids);
    hide Rep, Nodes, Abs;
    var row := PickedShapes(kids, picks);
    EmptyTree();
    forall i, j | 0 <= i < j < |row| ensures Nodes(row[i]) !! Nodes(row[j]) {
      if picks[i] < |kids| && picks[j] < |kids| { assert picks[i] != picks[j]; }
    }
    forall i | 0 <= i < |row| ensures Nodes(row[i]) <= AllNodes(kids) {
      if picks[i] < |kids| { KidNodes(kids, picks[i]); }
    }
    AllNodesIn(row, AllNodes(kids));
  }

  lemma EmptyTree()
    ensures Rep(Nil) && Nodes(Nil) == {} && Abs(Nil) == Null
  {
  }

  lemma MatchesNone(originals: seq<Tree>, used: set<nat>)
    ensures Matches(originals, used, []) == []
  {
  }

  lemma NoPicks(original: seq<YNode?>, ordered: seq<YNode?>)
    ensures PicksAre(original, [], ordered)
  {
  }

  lemma MatchesNext(originals: seq<Tree>, used: set<nat>, targets: seq<Tree>)
    requires targets != []
    ensures var k := Match(originals, used, targets[0]);
      Matches(originals, used, targets) == [k] + Matches(originals, if k < |originals| then used + {k} else used, targets[1..])
  {
  }

  /** The original elements in the order of their targets, nil where a target has none. */
  method OrderForMerge(original: seq<YNode?>, ghost kids: seq<Shape>, content: seq<YNode?>, ghost skids: seq<Shape>)
      returns (ordered: seq<YNode?>, ghost picks: seq<nat>)
    requires RepAll(original, kids) && RepAll(content, skids)
    ensures |ordered| == |picks| && picks == Matches(AbsAll(kids), {}, AbsAll(skids)) && PicksAre(original, picks, ordered)
  {
    hide Rep, RepAll, Nodes, AllNodes, Abs, Matches, Match, PicksAre, IsRest;
    var olds := ViewAll(original, kids);
    var targets := ViewAll(content, skids);
    var used: set<nat> := {};
    RowLength(original, kids);
    RowLength(content, skids);
    RestAll(targets);
    ordered, picks := seq(|content|, _ => null), [];
    NoPicks(original, ordered);
    ghost var rest := targets;
    var i := 0;
    while i < |content|
      invariant i == |picks| <= |content| == |ordered| == |targets| && IsRest(targets, i, rest) && |olds| == |original|
      invariant AbsAll(kids) == olds && AbsAll(skids) == targets
      invariant PicksAre(original, picks, ordered) && forall j :: i <= j < |ordered| ==> ordered[j] == null
      invariant picks + Matches(olds, used, rest) == Matches(olds, {}, targets)
    {
      RestOne(targets, i, rest);
      MatchesNext(olds, used, rest);
      var idx := Match(olds, used, targets[i]);
      PicksMore(original, picks, ordered, idx);
      if idx < |olds| {
        ordered := ordered[i := original[idx]];
        used := used + {idx};
      }
      picks, rest := picks + [idx], rest[1..];
      i := i + 1;
    }
    RestEnd(targets, i, rest);
    MatchesNone(olds, used);
  }

  lemma Unordered(originals: seq<Tree>, targets: seq<Tree>)
    ensures originals == [] || targets == [] ==> Reordered(originals, targets) == originals
  {
  }

  lemma RowReordered(original: seq<YNode?>, kids: seq<Shape>, picks: seq<nat>, ordered: seq<YNode?>, targets: seq<Tree>)
    requires RepAll(original, kids) && |ordered| == |picks| && PicksAre(original, picks, ordered)
    requires kids != [] && targets != [] && picks == Matches(AbsAll(kids), {}, targets)
    ensures RepAll(ordered, PickedShapes(kids, picks)) && AllNodes(PickedShapes(kids, picks)) <= AllNodes(kids)
    ensures AbsAll(PickedShapes(kids, picks)) == Reordered(AbsAll(kids), targets)
  {
    hide Rep, RepAll, Nodes, AllNodes, Abs, Matches, PicksAre, Unused;
    MatchesUnused(AbsAll(kids), {}, targets);
    RowPicked(original, kids, picks, ordered, AbsAll(kids));
  }

  function WithOrder(dst: Tree, src: Tree): Tree
  {
    if dst.Null? || src.Null? then dst else dst.(content := Reordered(dst.content, src.content))
  }

  method ReorderSequenceForMerge(dst: YNode?, ghost d: Shape, src: YNode?, ghost s: Shape) returns (ghost r: Shape)
    requires Root(d) == dst && Rep(d) && Root(s) == src && Rep(s) && Nodes(d) !! Nodes(s)
    modifies Nodes(d)
    ensures Root(r) == dst && Rep(r) && Nodes(r) <= Nodes(d)
    ensures Rep(s) && Abs(s) == old(Abs(s))
    ensures Abs(r) == WithOrder(old(Abs(d)), old(Abs(s)))
  {
    hide Rep, RepAll, Nodes, AllNodes, Abs, Reordered, PicksAre, Matches, PickedShapes;
    r := d;
    AbsMeans(d);
    AbsMeans(s);
    if dst == null || src == null { return; }
    Unfold(d);
    Unfold(s);
    Unordered(AbsAll(d.kids), AbsAll(s.kids));
    RowLength(dst.content, d.kids);
    RowLength(src.content, s.kids);
    if |dst.content| == 0 || |src.content| == 0 { return; }
    assert allocated(Nodes(d)) && allocated(Nodes(s)) && allocated(AllNodes(d.kids)) && allocated(AllNodes(s.kids));
    var ordered;
    ghost var picks;
    ordered, picks := OrderForMerge(dst.content, d.kids, src.content, s.kids);
    RowReordered(dst.content, d.kids, picks, ordered, AbsAll(s.kids));
    assert allocated(Nodes(s)) && dst !in Nodes(s);
    r := SetContent(dst, ordered, PickedShapes(d.kids, picks));
  }

  // ---------------------------------------------------------------- stale keys

  /** The keys of the first `i` places that are not blank, without their blanks. */
  ghost predicate KeysBefore(src: seq<Tree>, i: nat, keep: set<string>)
  {
    forall key :: key in keep <==> key != "" && exists j :: 0 <= j < i && j < |src| - 1 && j % 2 == 0 && src[j].Node? && Trim(src[j].value) == key
  }

  lemma NoKeysBefore(src: seq<Tree>)
    ensures KeysBefore(src, 0, {})
  {
  }

  lemma KeysBeforeNext(src: seq<Tree>, i: nat, keep: set<string>)
    requires KeysBefore(src, i, keep) && i % 2 == 0 && i + 1 < |src|
    ensures src[i].Null? || Trim(src[i].value) == "" ==> KeysBefore(src, i + 2, keep)
    ensures src[i].Node? && Trim(src[i].value) != "" ==> KeysBefore(src, i + 2, keep + {Trim(src[i].value)})
  {
    hide Trim;
  }

  lemma KeysAll(src: seq<Tree>, i: nat, keep: set<string>, key: string)
    requires KeysBefore(src, i, keep) && i + 1 >= |src|
    ensures IsKept(src, key) <==> Trim(key) in keep
  {
    hide Trim;
  }

  method KeysToKeep(content: seq<YNode?>, ghost kids: seq<Shape>) returns (keep: set<string>)
    requires RepAll(content, kids)
    ensures forall key :: Trim(key) in keep <==> IsKept(old(AbsAll(kids)), key)
  {
    hide Rep, RepAll, Nodes, AllNodes, Abs, KeysBefore, IsKept, Trim;
    ghost var ts := AbsAll(kids);
    RowLength(content, kids);
    NoKeysBefore(ts);
    keep := {};
    var i := 0;
    while i + 1 < |content|
      invariant i % 2 == 0 && RepAll(content, kids) && AbsAll(kids) == ts && |content| == |ts| && KeysBefore(ts, i, keep)
    {
      Kid(content, kids, i);
      AbsMeans(kids[i]);
      KeysBeforeNext(ts, i, keep);
      var keyNode := content[i];
      i := i + 2;
      if keyNode == null { continue; }
      var key := Trim(keyNode.value);
      if key == "" { continue; }
      keep := keep + {key};
    }
    forall key ensures Trim(key) in keep <==> IsKept(ts, key) {
      KeysAll(ts, i, keep, key);
    }
  }

  /** The pairs before `i` have been kept or taken out already. */
  ghost predicate KeptSoFar(before: seq<Tree>, now: seq<Tree>, i: nat, src: seq<Tree>)
  {
    i <= |now| && KeptPairs(before, src) == now[..i] + KeptPairs(now[i..], src)
  }

  lemma KeptNone(before: seq<Tree>, src: seq<Tree>)
    ensures KeptSoFar(before, before, 0, src)
  {
    assert before[0..] == before;
  }

  lemma KeptNext(before: seq<Tree>, now: seq<Tree>, i: nat, src: seq<Tree>)
    requires KeptSoFar(before, now, i, src) && i + 1 < |now|
    ensures now[i].Null? || IsKept(src, now[i].value) ==> KeptSoFar(before, now, i + 2, src)
    ensures now[i].Node? && !IsKept(src, now[i].value) ==> KeptSoFar(before, now[..i] + now[i + 2..], i, src)
  {
    hide IsKept;
    assert now[i..][2..] == now[i + 2..] && now[i..][..2] == now[i..i + 2];
    assert now[..i + 2] == now[..i] + now[i..i + 2];
    assert (now[..i] + now[i + 2..])[i..] == now[i + 2..];
    assert (now[..i] + now[i + 2..])[..i] == now[..i];
    if now[i].Null? || IsKept(src, now[i].value) {
      assert KeptPairs(now[i..], src) == now[i..i + 2] + KeptPairs(now[i + 2..], src);
      assert (now[..i] + now[i..i + 2]) + KeptPairs(now[i + 2..], src) == now[..i] + (now[i..i + 2] + KeptPairs(now[i + 2..], src));
    }
  }

  lemma KeptEnd(before: seq<Tree>, now: seq<Tree>, i: nat, src: seq<Tree>)
    requires KeptSoFar(before, now, i, src) && i + 1 >= |now|
    ensures KeptPairs(before, src) == now
  {
    assert now[..i] + now[i..] == now;
  }

  method DropPair(dst: YNode, ghost d: Shape, i: nat) returns (ghost r: Shape)
    requires Root(d) == dst && Rep(d) && i + 1 < |dst.content|
    modifies Nodes(d)
    ensures Root(r) == dst && Rep(r) && Nodes(r) <= Nodes(d) && old(Abs(d)).Node? && i + 1 < |old(Abs(d)).content|
    ensures Abs(r) == WithContent(old(Abs(d)), old(Abs(d)).content[..i] + old(Abs(d)).content[i + 2..])
  {
    hide Rep, RepAll, Nodes, AllNodes, Abs, WithContent;
    AbsMeans(d);
    Unfold(d);
    RowLength(dst.content, d.kids);
    RowDropPair(dst.content, d.kids, i);
    r := ReplaceContent(dst, d, dst.content[..i] + dst.content[i + 2..], d.kids[..i] + d.kids[i + 2..]);
  }

  method KeepPairs(dst: YNode, ghost d: Shape, keep: set<string>, ghost src: seq<Tree>) returns (ghost r: Shape)
    requires Root(d) == dst && Rep(d) && forall key :: Trim(key) in keep <==> IsKept(src, key)
    modifies Nodes(d)
    ensures Root(r) == dst && Rep(r) && Nodes(r) <= Nodes(d) && old(Abs(d)).Node?
    ensures Abs(r) == WithContent(old(Abs(d)), KeptPairs(old(Abs(d)).content, src))
  {
    hide Rep, RepAll, Nodes, AllNodes, Abs, KeptPairs, KeptSoFar, IsKept, Trim;
    r := d;
    AbsMeans(d);
    ghost var before := Abs(d);
    UpdatedToSelf(before);
    KeptNone(before.content, src);
    Unfold(r);
    RowLength(dst.content, r.kids);
    var i := 0;
    while i + 1 < |dst.content|
      invariant Root(r) == dst && Rep(r) && Nodes(r) <= Nodes(d)
      invariant Abs(r).Node? && Abs(r) == WithContent(before, Abs(r).content) && |dst.content| == |Abs(r).content|
      invariant KeptSoFar(before.content, Abs(r).content, i, src)
      decreases |dst.content| - i
    {
      Unfold(r);
      Kid(dst.content, r.kids, i);
      AbsMeans(r.kids[i]);
      KeptNext(before.content, Abs(r).content, i, src);
      var keyNode := dst.content[i];
      if keyNode != null && Trim(keyNode.value) !in keep {
        r := DropPair(dst, r, i);
        Unfold(r);
        RowLength(dst.content, r.kids);
      } else {
        i := i + 2;
      }
    }
    KeptEnd(before.content, Abs(r).content, i, src);
  }

  /** Pairs whose key the source mapping does not have are taken out of the content. */
  method PruneMissingMapKeys(dstMap: YNode?, ghost d: Shape, srcMap: YNode?, ghost s: Shape) returns (ghost r: Shape)
    requires Root(d) == dstMap && Rep(d) && Root(s) == srcMap && Rep(s) && Nodes(d) !! Nodes(s)
    modifies Nodes(d)
    ensures Root(r) == dstMap && Rep(r) && Nodes(r) <= Nodes(d)
    ensures Abs(r) == PruneMissing(old(Abs(d)), old(Abs(s)))
  {
    hide Rep, RepAll, Nodes, AllNodes, Abs, KeptPairs, IsKept, Trim;
    r := d;
    AbsMeans(d);
    AbsMeans(s);
    if dstMap == null || srcMap == null || dstMap.kind != Mapping || srcMap.kind != Mapping { return; }
    Unfold(s);
    ghost var src := AbsAll(s.kids);
    assert allocated(Nodes(d));
    var keep := KeysToKeep(srcMap.content, s.kids);
    r := KeepPairs(dstMap, d, keep, src);
  }

  // ---------------------------------------------------------------- mappings

  lemma MergeablePair(t: Tree, i: nat)
    requires t.Is(Mapping) && Mergeable(t) && i + 1 < |t.content| && i % 2 == 0
    ensures t.content[i].Node? && Mergeable(t.content[i + 1])
  {
  }

  lemma MergeableElement(t: Tree, i: nat)
    requires t.Is(Sequence) && Mergeable(t) && i < |t.content|
    ensures Mergeable(t.content[i])
  {
  }

  /** The value of a key the destination has. */
  method MergeIntoValue(path: Path, dst: YNode, ghost d: Shape, k: nat, sv: YNode?, ghost s: Shape, ghost graph: set<YNode>) returns (ghost r: Shape)
    requires Root(d) == dst && Rep(d) && k < |dst.content| && Root(s) == sv && Rep(s) && Nodes(s) <= graph && Closed(graph) && Nodes(d) !! graph
    requires Mergeable(Abs(s))
    modifies Nodes(d)
    ensures Root(r) == dst && Rep(r) && (forall n :: n in Nodes(r) ==> n in Nodes(d) || fresh(n)) && dst.kind == old(dst.kind)
    ensures old(Abs(d)).Node? && k < |old(Abs(d)).content|
    ensures Abs(r) == WithContent(old(Abs(d)), old(Abs(d)).content[k := MergeNode(path, old(Abs(d)).content[k], old(Abs(s)))])
    decreases s, 9
  {
    hide Rep, RepAll, Nodes, AllNodes, Abs, Closed, Mergeable, MergeNode, WithContent;
    AbsMeans(d);
    Unfold(d);
    RowAround(dst.content, d.kids, k);
    assert allocated(AllNodes(d.kids[..k])) && allocated(AllNodes(d.kids[k + 1..]));
    ghost var left, right := AbsAll(d.kids[..k]), AbsAll(d.kids[k + 1..]);
    ghost var c := MergeNodePreserve(path, dst.content[k], d.kids[k], sv, s, graph);
    RowAgain(dst.content, d.kids, k, c);
    UpdateBetween(left, right, old(Abs(d.kids[k])), Abs(c));
    r := At(dst, d.kids[k := c]);
    Fold(r);
    Updated(old(Abs(d)), Abs(r));
  }

  lemma UpdateBetween<T>(left: seq<T>, right: seq<T>, x: T, y: T)
    ensures (left + [x] + right)[|left| := y] == left + [y] + right
  {
  }

  /** A key the destination lacks: added with a pruned copy of its value, unless that is a default. */
  method AddPair(path: Path, dst: YNode, ghost d: Shape, sk: YNode, ghost ks: Shape, sv: YNode?, ghost vs: Shape, ghost graph: set<YNode>)
      returns (ghost r: Shape)
    requires Root(d) == dst && Rep(d) && Root(ks) == sk && Rep(ks) && Root(vs) == sv && Rep(vs)
    requires Nodes(ks) + Nodes(vs) <= graph && Closed(graph)
    modifies Nodes(d)
    ensures Root(r) == dst && Rep(r) && (forall n :: n in Nodes(r) ==> n in Nodes(d) || fresh(n)) && dst.kind == old(dst.kind)
    ensures old(Abs(d)).Node?
    ensures Abs(r) == WithContent(old(Abs(d)), WithPair(path, old(Abs(d)).content, old(Abs(ks)), old(Abs(vs))))
  {
    hide Rep, RepAll, Nodes, AllNodes, Abs, Closed, Prune, IsKnownDefault, WithContent;
    r := d;
    AbsMeans(d);
    Unfold(d);
    assert allocated(graph) && allocated(Nodes(d)) && allocated(AllNodes(d.kids)) && allocated(Nodes(ks));
    var candidate;
    ghost var v;
    candidate, v := NewValue(path, sv, vs, graph);
    assert Abs(d) == old(Abs(d)) && Abs(ks) == old(Abs(ks));
    if IsKnownDefault(path, View(candidate, v)) {
      UpdatedToSelf(Abs(d));
      return;
    }
    assert allocated(Nodes(v)) && allocated(AllNodes(d.kids));
    var key;
    ghost var k;
    key, k := DeepCopyTree(sk, ks, graph);
    RowAddPair(dst.content, d.kids, k, v);
    r := ReplaceContent(dst, d, dst.content + [key, candidate], d.kids + [k, v]);
  }

  lemma UpdatedToSelf(t: Tree)
    requires t.Node?
    ensures WithContent(t, t.content) == t
  {
  }

  lemma Updated(before: Tree, after: Tree)
    requires before.Node? && after.Node?
    requires after.kind == before.kind && after.tag == before.tag && after.value == before.value && after.trivia == before.trivia
    ensures after == WithContent(before, after.content)
  {
  }

  /** A pruned copy of a value. */
  method NewValue(path: Path, sv: YNode?, ghost vs: Shape, ghost graph: set<YNode>) returns (candidate: YNode?, ghost v: Shape)
    requires Root(vs) == sv && Rep(vs) && Nodes(vs) <= graph && Closed(graph)
    ensures Root(v) == candidate && Rep(v) && fresh(Nodes(v)) && Abs(v) == Prune(path, old(Abs(vs)))
  {
    hide Rep, RepAll, Nodes, AllNodes, Abs, Closed, Prune;
    assert allocated(Nodes(vs));
    ghost var c;
    candidate, c := DeepCopyTree(sv, vs, graph);
    assert allocated(Nodes(vs));
    v := PruneKnownDefaultsInNewNode(path, candidate, c);
  }

  function WithPair(path: Path, dst: seq<Tree>, key: Tree, value: Tree): seq<Tree>
  {
    if IsKnownDefault(path, Prune(path, value)) then dst else dst + [key, Prune(path, value)]
  }

  lemma MergePairMeans(path: Path, dst: Tree, src: Tree, i: nat)
    requires dst.Node? && src.Node? && i + 1 < |src.content|
    ensures var key, value := src.content[i], src.content[i + 1];
      var child := path + [key.Name()];
      && (HasKey(dst.content, key.Name()) ==>
            var k := KeyIndex(dst.content, key.Name()) + 1;
            k < |dst.content| &&
            WithContent(dst, MergePair(path, dst.content, src, i)) == WithContent(dst, dst.content[k := MergeNode(child, dst.content[k], value)]))
      && (!HasKey(dst.content, key.Name()) ==>
            WithContent(dst, MergePair(path, dst.content, src, i)) == WithContent(dst, WithPair(child, dst.content, key, value)))
  {
    hide IsKnownDefault, Prune, MergeNode, KeyIndex, WithContent;
    if HasKey(dst.content, src.content[i].Name()) {
      KeyFits(dst.content, src.content[i].Name());
    }
  }

  method MergePairPreserve(path: Path, dst: YNode, ghost d: Shape, src: YNode, ghost s: Shape, ghost graph: set<YNode>, i: nat) returns (ghost r: Shape)
    requires Root(d) == dst && Rep(d) && dst.kind == Mapping && Root(s) == src && Rep(s) && src.kind == Mapping
    requires Nodes(s) <= graph && Closed(graph) && Nodes(d) !! graph && Mergeable(Abs(s)) && i % 2 == 0 && i + 1 < |src.content|
    modifies Nodes(d)
    ensures Root(r) == dst && Rep(r) && (forall n :: n in Nodes(r) ==> n in Nodes(d) || fresh(n)) && dst.kind == Mapping
    ensures old(Abs(d)).Node? && old(Abs(s)).Node? && i + 1 < |old(Abs(s)).content|
    ensures Abs(r) == WithContent(old(Abs(d)), MergePair(path, old(Abs(d)).content, old(Abs(s)), i))
    decreases s, 1
  {
    hide Rep, RepAll, Nodes, AllNodes, Abs, Closed, Mergeable, MergePair, HasKey, KeyIndex, MergeNode, WithPair, WithContent;
    AbsMeans(d);
    AbsMeans(s);
    Unfold(d);
    Unfold(s);
    MergeablePair(Abs(s), i);
    Kid(src.content, s.kids, i);
    Kid(src.content, s.kids, i + 1);
    AbsMeans(s.kids[i]);
    var sk, sv := src.content[i], src.content[i + 1];
    var childPath := path + [sk.value];
    MergePairMeans(path, Abs(d), Abs(s), i);
    ghost var goal := WithContent(Abs(d), MergePair(path, Abs(d).content, Abs(s), i));
    assert allocated(graph) && allocated(Nodes(d)) && allocated(Nodes(s.kids[i])) && allocated(Nodes(s.kids[i + 1]));
    var idx := FindMapKeyIndex(dst, d, sk.value);
    if idx >= 0 {
      r := MergeIntoValue(childPath, dst, d, idx + 1, sv, s.kids[i + 1], graph);
      assert Abs(r) == goal;
    } else {
      r := AddPair(childPath, dst, d, sk, s.kids[i], sv, s.kids[i + 1], graph);
      assert Abs(r) == goal;
    }
  }

  lemma KeyFits(content: seq<Tree>, key: string)
    requires HasKey(content, key)
    ensures KeyIndex(content, key) + 1 < |content| && ValueOf(content, key) == content[KeyIndex(content, key) + 1]
  {
  }

  ghost predicate PairsMergedUpTo(path: Path, before: seq<Tree>, now: seq<Tree>, src: Tree, i: nat)
    requires src.Node?
  {
    i <= |src.content| && MergePairs(path, now, src, i) == MergePairs(path, before, src, 0)
  }

  lemma MergedNone(path: Path, before: seq<Tree>, src: Tree)
    requires src.Node?
    ensures PairsMergedUpTo(path, before, before, src, 0)
  {
  }

  lemma MergedNext(path: Path, before: seq<Tree>, now: seq<Tree>, src: Tree, i: nat)
    requires src.Node? && PairsMergedUpTo(path, before, now, src, i)
    ensures i + 1 < |src.content| ==> PairsMergedUpTo(path, before, MergePair(path, now, src, i), src, i + 2)
    ensures i + 1 >= |src.content| ==> now == MergePairs(path, before, src, 0)
  {
    hide MergePair;
  }

  /** `mergeMappingPreserve`. */
  method MergeMappingPreserve(path: Path, dst: YNode?, ghost d: Shape, src: YNode?, ghost s: Shape, ghost graph: set<YNode>) returns (ghost r: Shape)
    requires Root(d) == dst && Rep(d) && Root(s) == src && Rep(s) && Nodes(s) <= graph && Closed(graph) && Nodes(d) !! graph
    requires Mergeable(Abs(s))
    modifies Nodes(d)
    ensures Root(r) == dst && Rep(r) && (forall n :: n in Nodes(r) ==> n in Nodes(d) || fresh(n))
    ensures Abs(r) == MergeMapping(path, old(Abs(d)), old(Abs(s)))
    decreases s, 2
  {
    hide Rep, RepAll, Nodes, AllNodes, Abs, Closed, Mergeable, MergeMapping, MergePair, CopyShallow, PairsMergedUpTo;
    r := d;
    AbsMeans(d);
    AbsMeans(s);
    MergeMappingMeans(path, Abs(d), Abs(s));
    if dst == null || src == null { return; }
    if dst.kind != Mapping || src.kind != Mapping {
      r := CopyNodeShallow(dst, d, src, s, graph);
      return;
    }
    Unfold(s);
    ghost var before, S := Abs(d), Abs(s);
    assert allocated(graph) && allocated(Nodes(s));
    RowLength(src.content, s.kids);
    MergedNone(path, before.content, S);
    var i := 0;
    while i + 1 < |src.content|
      invariant Root(r) == dst && Rep(r) && (forall n :: n in Nodes(r) ==> n in Nodes(d) || fresh(n)) && dst.kind == Mapping
      invariant Rep(s) && Closed(graph) && Abs(s) == S && src.kind == Mapping && |src.content| == |S.content|
      invariant Abs(r).Node? && Abs(r) == WithContent(before, Abs(r).content) && i % 2 == 0
      invariant PairsMergedUpTo(path, before.content, Abs(r).content, S, i)
    {
      MergedNext(path, before.content, Abs(r).content, S, i);
      assert allocated(graph) && allocated(Nodes(s)) && Nodes(r) !! graph && src !in Nodes(r);
      r := MergePairPreserve(path, dst, r, src, s, graph, i);
      i := i + 2;
    }
    MergedNext(path, before.content, Abs(r).content, S, i);
  }

  // ---------------------------------------------------------------- sequence elements

  /** One element of a sequence: merged and rid of stale keys, or a copy where there is none. */
  method MergeElementPreserve(path: Path, dst: YNode?, ghost d: Shape, src: YNode?, ghost s: Shape, ghost graph: set<YNode>) returns (node: YNode?, ghost r: Shape)
    requires Root(d) == dst && Rep(d) && Root(s) == src && Rep(s) && Nodes(s) <= graph && Closed(graph) && Nodes(d) !! graph
    requires Mergeable(Abs(s))
    modifies Nodes(d)
    ensures Root(r) == node && Rep(r) && (forall n :: n in Nodes(r) ==> n in Nodes(d) || fresh(n)) && (dst != null ==> node == dst)
    ensures Abs(r) == MergeElement(path, old(Abs(d)), old(Abs(s)))
    decreases s, 9
  {
    hide Rep, RepAll, Nodes, AllNodes, Abs, Closed, Mergeable, MergeNode, PruneMissing;
    AbsMeans(d);
    AbsMeans(s);
    node, r := dst, d;
    assert allocated(graph) && allocated(Nodes(s));
    if dst == null {
      node, r := DeepCopyTree(src, s, graph);
      return;
    }
    r := MergeNodePreserve(path, dst, d, src, s, graph);
    assert allocated(graph) && allocated(Nodes(s)) && Nodes(r) !! graph;
    r := PruneMissingMapKeys(dst, r, src, s);
  }

  /** The elements before `i` are merged, the others are as they were. */
  ghost predicate ElementsMergedUpTo(path: Path, before: seq<Tree>, now: seq<Tree>, src: Tree, i: nat)
    requires src.Node?
  {
    && |now| == |before| && i <= |src.content|
    && (forall j :: 0 <= j < i && j < |now| ==> now[j] == MergeElement(path, before[j], src.content[j]))
    && (forall j :: i <= j < |now| ==> now[j] == before[j])
  }

  lemma ElementsNone(path: Path, before: seq<Tree>, src: Tree)
    requires src.Node?
    ensures ElementsMergedUpTo(path, before, before, src, 0)
  {
  }

  lemma ElementsNext(path: Path, before: seq<Tree>, now: seq<Tree>, src: Tree, i: nat)
    requires src.Node? && ElementsMergedUpTo(path, before, now, src, i) && i < |now| && i < |src.content|
    ensures ElementsMergedUpTo(path, before, now[i := MergeElement(path, now[i], src.content[i])], src, i + 1)
  {
    hide MergeElement;
  }

  /** As long as the source: what it has more added, what it does not have cut off. */
  function Fitted(now: seq<Tree>, src: seq<Tree>): seq<Tree>
  {
    if |now| <= |src| then now + src[|now|..] else now[..|src|]
  }

  /** The merged elements, what the source has more, and nothing the source does not have. */
  lemma ElementsDone(path: Path, before: seq<Tree>, now: seq<Tree>, src: Tree, i: nat)
    requires src.Node? && ElementsMergedUpTo(path, before, now, src, i)
    requires i == if |now| < |src.content| then |now| else |src.content|
    ensures Fitted(now, src.content) == MergeElements(path, before, src)
  {
    hide MergeNode, PruneMissing;
    var r := MergeElements(path, before, src);
    if |now| <= |src.content| {
      forall j | 0 <= j < |r| ensures (now + src.content[|now|..])[j] == r[j] {
        assert r[j] == MergeElement(path, if j < |before| then before[j] else Null, src.content[j]);
      }
    }
  }

  /** The elements in both: merged where they stand. */
  method MergeElementsInPlace(path: Path, dst: YNode, ghost d: Shape, src: YNode, ghost s: Shape, ghost graph: set<YNode>, n: nat) returns (ghost r: Shape)
    requires Root(d) == dst && Rep(d) && Root(s) == src && Rep(s) && Nodes(s) <= graph && Closed(graph) && Nodes(d) !! graph
    requires n <= |dst.content| && n <= |src.content|
    requires src.kind == Sequence && Mergeable(Abs(s))
    modifies Nodes(d)
    ensures Root(r) == dst && Rep(r) && (forall n :: n in Nodes(r) ==> n in Nodes(d) || fresh(n))
    ensures old(Abs(d)).Node? && old(Abs(s)).Node? && Abs(r).Node?
    ensures Rep(s) && Closed(graph) && Abs(s) == old(Abs(s))
    ensures Abs(r) == WithContent(old(Abs(d)), Abs(r).content) && |Abs(r).content| == |old(Abs(d)).content|
    ensures ElementsMergedUpTo(path, old(Abs(d)).content, Abs(r).content, old(Abs(s)), n)
    decreases s, 6
  {
    hide Rep, RepAll, Nodes, AllNodes, Abs, Closed, Mergeable, MergeElement, ElementsMergedUpTo;
    r := d;
    AbsMeans(d);
    AbsMeans(s);
    ghost var before, S := Abs(d), Abs(s);
    UpdatedToSelf(before);
    RootInTree(s);
    assert allocated(graph) && allocated(Nodes(s));
    ElementsNone(path, before.content, S);
    Unfold(d);
    Unfold(s);
    RowLength(dst.content, d.kids);
    RowLength(src.content, s.kids);
    var i := 0;
    while i < n
      invariant i <= n && Root(r) == dst && Rep(r) && (forall n :: n in Nodes(r) ==> n in Nodes(d) || fresh(n))
      invariant Abs(r).Node? && Abs(r) == WithContent(before, Abs(r).content) && |Abs(r).content| == |before.content|
      invariant Rep(s) && Closed(graph) && Abs(s) == S && src.kind == Sequence && |src.content| == |S.content|
      invariant ElementsMergedUpTo(path, before.content, Abs(r).content, S, i)
    {
      assert allocated(graph) && allocated(Nodes(s)) && Nodes(r) !! graph && src !in Nodes(r);
      ElementsNext(path, before.content, Abs(r).content, S, i);
      r := MergeElementAt(path, dst, r, src, s, graph, i);
      i := i + 1;
    }
  }

  method MergeElementAt(path: Path, dst: YNode, ghost d: Shape, src: YNode, ghost s: Shape, ghost graph: set<YNode>, i: nat) returns (ghost r: Shape)
    requires Root(d) == dst && Rep(d) && Root(s) == src && Rep(s) && Nodes(s) <= graph && Closed(graph) && Nodes(d) !! graph
    requires Abs(d).Node? && Abs(s).Node? && i < |Abs(d).content| && i < |Abs(s).content|
    requires src.kind == Sequence && Mergeable(Abs(s))
    modifies Nodes(d)
    ensures Root(r) == dst && Rep(r) && (forall n :: n in Nodes(r) ==> n in Nodes(d) || fresh(n))
    ensures Abs(r) == WithContent(old(Abs(d)), old(Abs(d)).content[i := MergeElement(path, old(Abs(d)).content[i], old(Abs(s)).content[i])])
    decreases s, 5
  {
    hide Rep, RepAll, Nodes, AllNodes, Abs, Closed, Mergeable, MergeElement, WithContent;
    AbsMeans(d);
    AbsMeans(s);
    Unfold(d);
    Unfold(s);
    RowAround(dst.content, d.kids, i);
    Kid(src.content, s.kids, i);
    MergeableElement(Abs(s), i);
    assert allocated(AllNodes(d.kids[..i])) && allocated(AllNodes(d.kids[i + 1..]));
    ghost var left, right, x := AbsAll(d.kids[..i]), AbsAll(d.kids[i + 1..]), Abs(d.kids[i]);
    assert Abs(d).content == left + [x] + right && Abs(d).content[i] == x && |left| == i;
    var node;
    ghost var c;
    node, c := MergeElementPreserve(path, dst.content[i], d.kids[i], src.content[i], s.kids[i], graph);
    assert allocated(Nodes(c)) && dst !in Nodes(c) && dst !in AllNodes(d.kids[..i]) && dst !in AllNodes(d.kids[i + 1..]);
    r := PutElement(dst, d.kids, i, node, c);
    UpdateBetween(left, right, x, Abs(c));
    Updated(old(Abs(d)), Abs(r));
  }

  method PutElement(dst: YNode, ghost kids: seq<Shape>, i: nat, node: YNode?, ghost c: Shape) returns (ghost r: Shape)
    requires |dst.content| == |kids| && i < |kids| && RepAll(dst.content[..i], kids[..i]) && RepAll(dst.content[i + 1..], kids[i + 1..])
    requires Root(c) == node && Rep(c) && dst !in Nodes(c) && dst !in AllNodes(kids[..i]) && dst !in AllNodes(kids[i + 1..])
    requires AllNodes(kids[..i]) !! Nodes(c) && AllNodes(kids[..i]) + Nodes(c) !! AllNodes(kids[i + 1..])
    modifies dst
    ensures Root(r) == dst && Rep(r) && Nodes(r) == {dst} + AllNodes(kids[..i]) + Nodes(c) + AllNodes(kids[i + 1..])
    ensures Abs(c) == old(Abs(c)) && Abs(r) == Node(old(dst.kind), old(dst.tag), old(dst.value),
      old(AbsAll(kids[..i])) + [Abs(c)] + old(AbsAll(kids[i + 1..])), old(dst.trivia))
  {
    hide Rep, RepAll, Nodes, AllNodes, Abs;
    assert allocated(Nodes(c));
    var content := dst.content[i := node];
    assert content[..i] == dst.content[..i] && content[i + 1..] == dst.content[i + 1..];
    RowAgain(content, kids, i, c);
    r := SetContent(dst, content, kids[i := c]);
  }

  method MakeSequence(dst: YNode, ghost d: Shape) returns (ghost r: Shape)
    requires Root(d) == dst && Rep(d)
    modifies Nodes(d)
    ensures Root(r) == dst && Rep(r) && Nodes(r) <= Nodes(d) && old(Abs(d)).Node? && Abs(r) == AsSequence(old(Abs(d)))
  {
    hide Rep, RepAll, Nodes, AllNodes, Abs;
    AbsMeans(d);
    Unfold(d);
    r := d;
    if dst.kind != Sequence {
      dst.kind := Sequence;
      dst.tag := "!!seq";
      dst.content := [];
      RowNone();
      r := At(dst, []);
      Fold(r);
    }
  }

  /** Copies of what the source has more, put at the end. */
  method AppendExtra(dst: YNode, ghost d: Shape, src: YNode, ghost s: Shape, ghost graph: set<YNode>) returns (ghost r: Shape)
    requires Root(d) == dst && Rep(d) && Root(s) == src && Rep(s) && Nodes(s) <= graph && Closed(graph) && Nodes(d) !! graph
    requires |dst.content| < |src.content|
    modifies Nodes(d)
    ensures Root(r) == dst && Rep(r) && (forall n :: n in Nodes(r) ==> n in Nodes(d) || fresh(n)) && old(Abs(d)).Node? && old(Abs(s)).Node?
    ensures Abs(r) == WithContent(old(Abs(d)), Fitted(old(Abs(d)).content, old(Abs(s)).content))
  {
    hide Rep, RepAll, Nodes, AllNodes, Abs, Closed, Mergeable, WithContent, Fitted;
    AbsMeans(d);
    AbsMeans(s);
    Unfold(d);
    Unfold(s);
    RowLength(dst.content, d.kids);
    RowLength(src.content, s.kids);
    FittedMeans(AbsAll(d.kids), AbsAll(s.kids));
    assert allocated(Nodes(d)) && allocated(AllNodes(d.kids));
    var more;
    ghost var copies;
    more, copies := CopyFrom(src, s, graph, |dst.content|);
    RowJoin(dst.content, d.kids, more, copies);
    r := ReplaceContent(dst, d, dst.content + more, d.kids + copies);
  }

  method CopyFrom(src: YNode, ghost s: Shape, ghost graph: set<YNode>, n: nat) returns (more: seq<YNode?>, ghost copies: seq<Shape>)
    requires Root(s) == src && Rep(s) && Nodes(s) <= graph && Closed(graph) && n <= |src.content|
    ensures RepAll(more, copies) && fresh(AllNodes(copies)) && old(Abs(s)).Node? && n <= |old(Abs(s)).content|
    ensures AbsAll(copies) == old(Abs(s)).content[n..]
  {
    hide Rep, RepAll, Nodes, AllNodes, Abs, Closed;
    Unfold(s);
    RowLength(src.content, s.kids);
    RowSplit(src.content, s.kids, n);
    Suffix(AbsAll(s.kids), AbsAll(s.kids[..n]), AbsAll(s.kids[n..]), n);
    more, copies := CopyAll(src.content[n..], s.kids[n..], graph);
  }

  /** What the source does not have, cut off. */
  method Truncate(dst: YNode, ghost d: Shape, n: nat) returns (ghost r: Shape)
    requires Root(d) == dst && Rep(d) && n <= |dst.content|
    modifies Nodes(d)
    ensures Root(r) == dst && Rep(r) && Nodes(r) <= Nodes(d) && old(Abs(d)).Node? && n <= |old(Abs(d)).content|
    ensures Abs(r) == WithContent(old(Abs(d)), old(Abs(d)).content[..n])
  {
    hide Rep, RepAll, Nodes, AllNodes, Abs, WithContent;
    AbsMeans(d);
    Unfold(d);
    RowLength(dst.content, d.kids);
    RowSplit(dst.content, d.kids, n);
    Prefix(AbsAll(d.kids), AbsAll(d.kids[..n]), AbsAll(d.kids[n..]), n);
    r := ReplaceContent(dst, d, dst.content[..n], d.kids[..n]);
  }

  lemma FittedMeans(now: seq<Tree>, src: seq<Tree>)
    ensures |now| < |src| ==> Fitted(now, src) == now + src[|now|..]
    ensures |now| == |src| ==> Fitted(now, src) == now
    ensures |now| > |src| ==> Fitted(now, src) == now[..|src|]
  {
  }

  lemma Suffix<T>(all: seq<T>, left: seq<T>, right: seq<T>, n: nat)
    requires all == left + right && |left| == n
    ensures all[n..] == right
  {
  }

  lemma Prefix<T>(all: seq<T>, left: seq<T>, right: seq<T>, n: nat)
    requires all == left + right && |left| == n
    ensures all[..n] == left
  {
  }

  method MergeSequencePreserve(path: Path, dst: YNode, ghost d: Shape, src: YNode, ghost s: Shape, ghost graph: set<YNode>) returns (ghost r: Shape)
    requires Root(d) == dst && Rep(d) && Root(s) == src && Rep(s) && Nodes(s) <= graph && Closed(graph) && Nodes(d) !! graph && src.kind == Sequence
    requires Mergeable(Abs(s))
    modifies Nodes(d)
    ensures Root(r) == dst && Rep(r) && (forall n :: n in Nodes(r) ==> n in Nodes(d) || fresh(n))
    ensures Abs(r) == MergeNode(path, old(Abs(d)), old(Abs(s)))
    decreases s, 7
  {
    hide Rep, RepAll, Nodes, AllNodes, Abs, Closed, Mergeable, MergeNode, MergeElements, ElementsMergedUpTo, Reordered, Fitted;
    AbsMeans(d);
    AbsMeans(s);
    Unfold(s);
    RowLength(src.content, s.kids);
    MergeSequenceMeans(path, Abs(d), Abs(s));
    r := d;
    if dst.kind == Scalar && dst.tag == "!!null" && |src.content| == 0 { return; }
    ghost var S, D := Abs(s), AsSequence(Abs(d));
    assert allocated(graph) && allocated(Nodes(s));
    r := MakeSequence(dst, d);
    assert allocated(graph) && Abs(s) == S && Rep(s) && allocated(Nodes(s)) && Nodes(r) !! graph && Nodes(r) !! Nodes(s);
    r := ReorderSequenceForMerge(dst, r, src, s);
    ghost var before := Abs(r);
    assert before == WithContent(D, Reordered(D.content, S.content));
    assert allocated(graph) && allocated(Nodes(s)) && Nodes(r) !! graph;
    Unfold(r);
    RowLength(dst.content, r.kids);
    var n := if |src.content| < |dst.content| then |src.content| else |dst.content|;
    r := MergeElementsInPlace(path, dst, r, src, s, graph, n);
    ElementsDone(path, before.content, Abs(r).content, S, n);
    assert allocated(graph) && allocated(Nodes(s)) && Nodes(r) !! graph;
    ghost var merged := Abs(r);
    FittedMeans(merged.content, S.content);
    Unfold(r);
    RowLength(dst.content, r.kids);
    if |dst.content| < |src.content| {
      r := AppendExtra(dst, r, src, s, graph);
    } else if |src.content| < |dst.content| {
      r := Truncate(dst, r, |src.content|);
    }
    assert Abs(r) == WithContent(merged, Fitted(merged.content, S.content));
  }

  /** `mergeNodePreserve`: the tree at `dst` becomes the merge of the two trees, with `dst` still its root.
      Every object in it was in it before or is new, so it shares nothing with the source. */
  method MergeNodePreserve(path: Path, dst: YNode?, ghost d: Shape, src: YNode?, ghost s: Shape, ghost graph: set<YNode>) returns (ghost r: Shape)
    requires Root(d) == dst && Rep(d) && Root(s) == src && Rep(s) && Nodes(s) <= graph && Closed(graph) && Nodes(d) !! graph
    requires Mergeable(Abs(s))
    modifies Nodes(d)
    ensures Root(r) == dst && Rep(r) && (forall n :: n in Nodes(r) ==> n in Nodes(d) || fresh(n))
    ensures Abs(r) == MergeNode(path, old(Abs(d)), old(Abs(s)))
    decreases s, 8
  {
    hide Rep, RepAll, Nodes, AllNodes, Abs, Closed, Mergeable, MergeNode, MergeMapping, CopyShallow;
    r := d;
    AbsMeans(d);
    AbsMeans(s);
    MergeNodeMeans(path, Abs(d), Abs(s));
    if dst == null || src == null { return; }
    assert allocated(graph) && allocated(Nodes(s));
    match src.kind
    case Mapping =>
      if dst.kind != Mapping {
        r := CopyNodeShallow(dst, d, src, s, graph);
      }
      assert Nodes(r) !! graph;
      r := MergeMappingPreserve(path, dst, r, src, s, graph);
    case Sequence =>
      r := MergeSequencePreserve(path, dst, d, src, s, graph);
    case Scalar | Alias =>
      r := TakeScalar(dst, d, src.kind, src.tag, src.value);
    case Unset =>
    case Document =>
      r := CopyNodeShallow(dst, d, src, s, graph);
  }

  method TakeScalar(dst: YNode, ghost d: Shape, kind: Kind, tag: string, value: string) returns (ghost r: Shape)
    requires Root(d) == dst && Rep(d)
    modifies Nodes(d)
    ensures r == d && Rep(d) && old(Abs(d)).Node? && Abs(d) == old(Abs(d)).(kind := kind, tag := tag, value := value)
  {
    hide Rep, RepAll, Nodes, AllNodes, Abs;
    AbsMeans(d);
    Unfold(d);
    r := d;
    assert allocated(AllNodes(d.kids)) && dst !in AllNodes(d.kids);
    SetFields(dst, kind, tag, value);
    Fold(d);
  }

  /** The merge step of saving a configuration: the file's objects end up saying what the rendered
      configuration says, with the file's comments and order, and share no object with it. */
  method MergeConfig(dst: YNode, ghost d: Shape, src: YNode, ghost s: Shape, ghost graph: set<YNode>) returns (ghost r: Shape)
    requires Root(d) == dst && Rep(d) && Root(s) == src && Rep(s) && Nodes(s) <= graph && Closed(graph) && Nodes(d) !! graph
    requires dst.kind == Mapping && src.kind == Mapping && FileOk(Abs(d)) && SourceOk(Abs(s))
    requires Mergeable(Abs(s))
    modifies Nodes(d)
    ensures Root(r) == dst && Rep(r) && (forall n :: n in Nodes(r) ==> n in Nodes(d) || fresh(n))
    ensures Abs(s) == old(Abs(s)) && Nodes(r) !! Nodes(s)
    ensures Keeps(old(Abs(d)), Abs(r)) && (BlanksSafe([], Abs(s)) ==> Agrees([], Abs(r), Abs(s)))
  {
    hide Rep, RepAll, Nodes, AllNodes, Abs, Closed, Mergeable, MergeNode, MergeMapping, FileOk, SourceOk, Agrees, BlanksSafe, Keeps;
    AbsMeans(d);
    AbsMeans(s);
    MergeNodeMeans([], Abs(d), Abs(s));
    MergeResult([], Abs(d), Abs(s));
    MergeKeepsComments([], Abs(d), Abs(s));
    assert allocated(graph) && allocated(Nodes(s));
    r := MergeMappingPreserve([], dst, d, src, s, graph);
  }
}
