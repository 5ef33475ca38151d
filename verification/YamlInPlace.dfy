/** The merge as the code does it: on node objects, in place. Each method is shown to leave its destination
    a tree again, without touching its source, and that tree to be what YamlTree's function says. */
module YamlInPlace {
  import opened YamlTree
  import opened YamlMerge
  import opened YamlGraph
  import opened YamlShapes

  // ---------------------------------------------------------------- pruning a new node

  /** Default-valued descendants taken out of a node that is about to be added. */
  method PruneKnownDefaultsInNewNode(path: Path, node: YNode?, ghost d: Shape) returns (ghost r: Shape)
    requires Root(d) == node && Rep(d)
    modifies Nodes(d)
    ensures Root(r) == node && Rep(r) && Nodes(r) <= Nodes(d)
    ensures Abs(r) == Prune(path, old(Abs(d)))
    decreases d, 1
  {
    hide Rep, RepAll, Nodes, AllNodes, Abs, Prune;
    r := d;
    AbsMeans(d);
    PruneMeans(path, Abs(d));
    if node == null { return; }
    Unfold(d);
    ghost var kids := d.kids;
    if node.kind == Mapping {
      var filtered;
      filtered, kids := PruneMapping(path, node.content, d.kids, Abs(d));
      node.content := filtered;
    } else if node.kind == Sequence {
      kids := PruneSequence(path, node.content, d.kids, Abs(d));
    } else {
      return;
    }
    r := At(node, kids);
    Fold(r);
  }

  ghost predicate PrunedSoFar(path: Path, n: Tree, i: nat, kept: seq<Tree>)
    requires n.Node?
  {
    i <= |n.content| && kept + PrunePairs(path, n, i) == PrunePairs(path, n, 0)
  }

  lemma PrunedNone(path: Path, n: Tree)
    requires n.Node?
    ensures PrunedSoFar(path, n, 0, [])
  {
  }

  lemma PrunedDone(path: Path, n: Tree, i: nat, kept: seq<Tree>)
    requires n.Node? && i + 1 >= |n.content| && PrunedSoFar(path, n, i, kept)
    ensures kept == PrunePairs(path, n, 0)
  {
  }

  lemma PrunedMore(path: Path, n: Tree, i: nat, kept: seq<Tree>)
    requires n.Node? && i + 1 < |n.content| && PrunedSoFar(path, n, i, kept)
    ensures Omitted(path, n.content[i], n.content[i + 1]) ==> PrunedSoFar(path, n, i + 2, kept)
    ensures !Omitted(path, n.content[i], n.content[i + 1]) ==>
      PrunedSoFar(path, n, i + 2, kept + [n.content[i], Prune(path + [n.content[i].value], n.content[i + 1])])
  {
    hide Prune, PrunePairs, Omitted;
    PrunePairsNext(path, n, i);
    var pair := [n.content[i], if n.content[i].Null? then Null else Prune(path + [n.content[i].value], n.content[i + 1])];
    assert (kept + pair) + PrunePairs(path, n, i + 2) == kept + (pair + PrunePairs(path, n, i + 2));
  }

  method PruneMapping(path: Path, content: seq<YNode?>, ghost kids: seq<Shape>, ghost n: Tree)
      returns (filtered: seq<YNode?>, ghost kept: seq<Shape>)
    requires RepAll(content, kids) && n.Node? && n.content == AbsAll(kids)
    modifies AllNodes(kids)
    ensures RepAll(filtered, kept) && AllNodes(kept) <= AllNodes(kids)
    ensures AbsAll(kept) == PrunePairs(path, n, 0)
    decreases kids, 0
  {
    hide *;
    RowNone();
    RowLength(content, kids);
    RestAll(content);
    RestAll(kids);
    RestAll(n.content);
    PrunedNone(path, n);
    filtered, kept := [], [];
    ghost var rest, row := kids, content;
    var i := 0;
    while i + 1 < |content|
      invariant |content| == |kids| && IsRest(content, i, row) && IsRest(kids, i, rest) && IsRest(n.content, i, AbsAll(rest))
      invariant RepAll(filtered, kept) && RepAll(row, rest)
      invariant AllNodes(kept) <= AllNodes(kids) && AllNodes(rest) <= AllNodes(kids) && AllNodes(kept) !! AllNodes(rest)
      invariant PrunedSoFar(path, n, i, AbsAll(kept))
    {
      RestPair(content, i, row);
      RestPair(kids, i, rest);
      RestPair(n.content, i, AbsAll(rest));
      RowPair(row, rest);
      PrunedMore(path, n, i, AbsAll(kept));
      var keyNode, valueNode := content[i], content[i + 1];
      ghost var k, v := rest[0], rest[1];
      rest, row := rest[2..], row[2..];
      i := i + 2;
      assert allocated(Nodes(k)) && allocated(AllNodes(kept)) && allocated(AllNodes(rest));
      ghost var done, left, key := AbsAll(kept), AbsAll(rest), Abs(k);
      var keep;
      ghost var v';
      keep, v' := PrunePair(path, keyNode, valueNode, k, v);
      assert AbsAll(kept) == done && AbsAll(rest) == left && Abs(k) == key;
      if keep {
        RowAddPair(filtered, kept, k, v');
        kept, filtered := kept + [k, v'], filtered + [keyNode, valueNode];
      }
    }
    PrunedDone(path, n, i, AbsAll(kept));
  }

  /** One pair of a new mapping: its value pruned, and whether the pair is kept. */
  method PrunePair(path: Path, keyNode: YNode?, valueNode: YNode?, ghost k: Shape, ghost v: Shape) returns (keep: bool, ghost r: Shape)
    requires Root(k) == keyNode && Rep(k) && Root(v) == valueNode && Rep(v) && Nodes(k) !! Nodes(v)
    modifies Nodes(v)
    ensures Root(r) == valueNode && Rep(r) && Nodes(r) <= Nodes(v)
    ensures keep <==> !Omitted(path, Abs(k), old(Abs(v)))
    ensures keep ==> Abs(r) == Prune(path + [Abs(k).value], old(Abs(v)))
    decreases v, 2
  {
    hide Rep, RepAll, Nodes, AllNodes, Abs, Prune, IsKnownDefault;
    AbsMeans(k);
    AbsMeans(v);
    r := v;
    if keyNode == null || valueNode == null { return false, v; }
    var childPath := path + [keyNode.value];
    if IsKnownDefault(childPath, View(valueNode, v)) { return false, v; }
    assert allocated(Nodes(k));
    r := PruneKnownDefaultsInNewNode(childPath, valueNode, v);
    AbsMeans(r);
    Unfold(r);
    keep := !((valueNode.kind == Mapping || valueNode.kind == Sequence) && |valueNode.content| == 0);
  }

  predicate Omitted(path: Path, key: Tree, value: Tree)
  {
    key.Null? || value.Null? || IsKnownDefault(path + [key.value], value) || IsEmptyCollection(Prune(path + [key.value], value))
  }

  lemma PrunePairsNext(path: Path, n: Tree, i: nat)
    requires n.Node? && i + 1 < |n.content|
    ensures PrunePairs(path, n, i) ==
      if Omitted(path, n.content[i], n.content[i + 1]) then PrunePairs(path, n, i + 2)
      else [n.content[i], Prune(path + [n.content[i].value], n.content[i + 1])] + PrunePairs(path, n, i + 2)
  {
    hide Prune, IsKnownDefault, IsEmptyCollection;
  }

  ghost predicate ElementsPruned(path: Path, n: Tree, i: nat, done: seq<Tree>)
    requires n.Node?
  {
    i == |done| <= |n.content| && forall j :: 0 <= j < i ==> done[j] == Prune(path, n.content[j])
  }

  lemma NonePruned(path: Path, n: Tree)
    requires n.Node?
    ensures ElementsPruned(path, n, 0, [])
  {
  }

  lemma ElementPruned(path: Path, n: Tree, i: nat, done: seq<Tree>)
    requires n.Node? && ElementsPruned(path, n, i, done)
    ensures i < |n.content| ==> ElementsPruned(path, n, i + 1, done + [Prune(path, n.content[i])])
    ensures i == |n.content| ==> done == PruneElements(path, n)
  {
    hide Prune;
  }

  method PruneSequence(path: Path, content: seq<YNode?>, ghost kids: seq<Shape>, ghost n: Tree) returns (ghost done: seq<Shape>)
    requires RepAll(content, kids) && n.Node? && n.content == AbsAll(kids)
    modifies AllNodes(kids)
    ensures RepAll(content, done) && AllNodes(done) <= AllNodes(kids)
    ensures AbsAll(done) == PruneElements(path, n)
    decreases kids, 0
  {
    hide *;
    RowNone();
    RowLength(content, kids);
    RestAll(content);
    RestAll(kids);
    RestAll(n.content);
    done := [];
    assert ElementsPruned(path, n, 0, []) by { NonePruned(path, n); }
    ghost var rest, row := kids, content;
    var i := 0;
    while i < |content|
      invariant i <= |content| == |kids| && IsRest(content, i, row) && IsRest(kids, i, rest) && IsRest(n.content, i, AbsAll(rest))
      invariant RepAll(content[..i], done) && RepAll(row, rest)
      invariant AllNodes(done) <= AllNodes(kids) && AllNodes(rest) <= AllNodes(kids) && AllNodes(done) !! AllNodes(rest)
      invariant ElementsPruned(path, n, i, AbsAll(done))
    {
      RestOne(content, i, row);
      RestOne(kids, i, rest);
      RestOne(n.content, i, AbsAll(rest));
      RowFirst(row, rest);
      ElementPruned(path, n, i, AbsAll(done));
      ghost var k := rest[0];
      rest, row := rest[1..], row[1..];
      assert allocated(AllNodes(done)) && allocated(AllNodes(rest));
      ghost var before, left := AbsAll(done), AbsAll(rest);
      ghost var k' := PruneKnownDefaultsInNewNode(path, content[i], k);
      assert AbsAll(done) == before && AbsAll(rest) == left;
      RowAdd(content[..i], done, k');
      TakeMore(content, i);
      done := done + [k'];
      i := i + 1;
    }
    TakeAll(content);
    ElementPruned(path, n, i, AbsAll(done));
  }
}
