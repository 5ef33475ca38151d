/** Node objects that form a tree: no sharing, no cycles. A shape says which object stands where; the tree
    it stands for is a value of YamlTree. */
module YamlShapes {
  import opened YamlTree
  import opened YamlMerge
  import opened YamlGraph

  datatype Shape = Nil | At(node: YNode, kids: seq<Shape>)

  ghost function Root(s: Shape): YNode?
  {
    if s.Nil? then null else s.node
  }

  ghost function Nodes(s: Shape): set<YNode>
    decreases s
  {
    if s.Nil? then {} else {s.node} + AllNodes(s.kids)
  }

  ghost function AllNodes(kids: seq<Shape>): set<YNode>
    decreases kids
  {
    set i, n | 0 <= i < |kids| && n in Nodes(kids[i]) :: n
  }

  /** The objects are linked as the shape says, and none stands in two places. */
  ghost predicate Rep(s: Shape)
    reads Nodes(s)
    decreases s
  {
    s.At? ==> s.node !in AllNodes(s.kids) && RepAll(s.node.content, s.kids)
  }

  ghost predicate RepAll(content: seq<YNode?>, kids: seq<Shape>)
    reads AllNodes(kids)
    decreases kids
  {
    && |content| == |kids|
    && (forall i :: 0 <= i < |kids| ==> Root(kids[i]) == content[i] && Rep(kids[i]))
    && Apart(kids)
  }

  ghost predicate Apart(kids: seq<Shape>)
  {
    forall i, j :: 0 <= i < j < |kids| ==> Nodes(kids[i]) !! Nodes(kids[j])
  }

  /** The tree the objects stand for. */
  ghost function Abs(s: Shape): Tree
    reads Nodes(s)
    decreases s
  {
    if s.Nil? then Null
    else Node(s.node.kind, s.node.tag, s.node.value, AbsAll(s.kids), s.node.trivia)
  }

  ghost function AbsAll(kids: seq<Shape>): (r: seq<Tree>)
    reads AllNodes(kids)
    ensures |r| == |kids| && forall i :: 0 <= i < |kids| ==> r[i] == Abs(kids[i])
    decreases kids
  {
    if kids == [] then [] else AbsAll(kids[..|kids| - 1]) + [Abs(kids[|kids| - 1])]
  }

  // ---------------------------------------------------------------- one level at a time

  lemma Unfold(s: Shape)
    requires Rep(s) && s.At?
    ensures RepAll(s.node.content, s.kids) && |s.node.content| == |s.kids| && s.node !in AllNodes(s.kids)
    ensures Nodes(s) == {s.node} + AllNodes(s.kids)
    ensures Abs(s) == Node(s.node.kind, s.node.tag, s.node.value, AbsAll(s.kids), s.node.trivia)
  {
  }

  lemma Fold(s: Shape)
    requires s.At? && RepAll(s.node.content, s.kids) && s.node !in AllNodes(s.kids)
    ensures Rep(s) && Nodes(s) == {s.node} + AllNodes(s.kids)
    ensures Abs(s) == Node(s.node.kind, s.node.tag, s.node.value, AbsAll(s.kids), s.node.trivia)
  {
  }

  lemma Kid(content: seq<YNode?>, kids: seq<Shape>, i: nat)
    requires RepAll(content, kids) && i < |kids|
    ensures |content| == |kids| && Root(kids[i]) == content[i] && Rep(kids[i])
    ensures Nodes(kids[i]) <= AllNodes(kids) && (kids[i].At? ==> kids[i].node in Nodes(kids[i]))
    ensures AbsAll(kids)[i] == Abs(kids[i])
  {
  }

  lemma KidNodes(kids: seq<Shape>, i: nat)
    requires i < |kids|
    ensures Nodes(kids[i]) <= AllNodes(kids)
  {
  }

  lemma AllNodesIn(kids: seq<Shape>, graph: set<YNode>)
    requires forall i :: 0 <= i < |kids| ==> Nodes(kids[i]) <= graph
    ensures AllNodes(kids) <= graph
  {
  }

  lemma InSomeKid(kids: seq<Shape>, n: YNode) returns (i: nat)
    requires n in AllNodes(kids)
    ensures i < |kids| && n in Nodes(kids[i])
  {
    i :| 0 <= i < |kids| && n in Nodes(kids[i]);
  }

  // ---------------------------------------------------------------- slices

  lemma DropDrop<T>(all: seq<T>, i: nat, j: nat)
    requires i + j <= |all|
    ensures all[i..][j..] == all[i + j..]
  {
  }

  lemma TwoThenRest<T>(a: T, b: T, rest: seq<T>)
    ensures [a] + ([b] + rest) == [a, b] + rest
  {
  }

  lemma PutAt<T>(all: seq<T>, k: nat, x: T)
    requires k < |all|
    ensures all[..k] + [x] + all[k + 1..] == all[k := x]
    ensures x == all[k] ==> all[k := x] == all
  {
  }

  lemma Regroup<T>(x: seq<T>, y: seq<T>, z: seq<T>)
    ensures (x + y) + z == x + (y + z)
  {
  }

  // ---------------------------------------------------------------- rows of trees

  lemma RowNone()
    ensures RepAll([], []) && AllNodes([]) == {} && AbsAll([]) == []
  {
  }

  lemma RowOne(n: YNode?, k: Shape)
    ensures RepAll([n], [k]) <==> Root(k) == n && Rep(k)
    ensures AllNodes([k]) == Nodes(k)
    ensures AbsAll([k]) == [Abs(k)]
  {
    hide Rep, Nodes, Abs;
    var row := [k];
    assert row[0] == k;
    if Root(k) == n && Rep(k) {
      assert forall i :: 0 <= i < |row| ==> row[i] == k;
    }
  }

  lemma RowSplit(content: seq<YNode?>, kids: seq<Shape>, i: nat)
    requires RepAll(content, kids) && i <= |kids|
    ensures |content| == |kids| && RepAll(content[..i], kids[..i]) && RepAll(content[i..], kids[i..])
    ensures AllNodes(kids[..i]) !! AllNodes(kids[i..]) && AllNodes(kids) == AllNodes(kids[..i]) + AllNodes(kids[i..])
    ensures AbsAll(kids) == AbsAll(kids[..i]) + AbsAll(kids[i..])
  {
    hide Rep, Nodes, AllNodes, Abs, AbsAll;
    assert Apart(kids);
    NodesApart(kids, i);
    NodesSplit(kids, i);
    AbsSplit(kids, i);
  }

  lemma NodesApart(kids: seq<Shape>, i: nat)
    requires Apart(kids) && i <= |kids|
    ensures AllNodes(kids[..i]) !! AllNodes(kids[i..])
  {
    hide Nodes;
    var left, right := kids[..i], kids[i..];
    forall n | n in AllNodes(left) ensures n !in AllNodes(right) {
      var j := InSomeKid(left, n);
      forall l | 0 <= l < |right| ensures n !in Nodes(right[l]) {
        assert Nodes(kids[j]) !! Nodes(kids[i + l]);
      }
    }
  }

  lemma NodesSplit(kids: seq<Shape>, i: nat)
    requires i <= |kids|
    ensures AllNodes(kids) == AllNodes(kids[..i]) + AllNodes(kids[i..])
  {
    hide Nodes;
    var left, right := kids[..i], kids[i..];
    forall n | n in AllNodes(left) ensures n in AllNodes(kids) {
      var j := InSomeKid(left, n);
      assert n in Nodes(kids[j]);
    }
    forall n | n in AllNodes(right) ensures n in AllNodes(kids) {
      var l := InSomeKid(right, n);
      assert n in Nodes(kids[i + l]);
    }
    forall n | n in AllNodes(kids) ensures n in AllNodes(left) || n in AllNodes(right) {
      var j := InSomeKid(kids, n);
      if j < i { assert left[j] == kids[j]; } else { assert right[j - i] == kids[j]; }
    }
  }

  lemma AbsSplit(kids: seq<Shape>, i: nat)
    requires i <= |kids|
    ensures AbsAll(kids) == AbsAll(kids[..i]) + AbsAll(kids[i..])
  {
    hide Nodes, AllNodes, Abs;
  }

  lemma RowJoin(content: seq<YNode?>, kids: seq<Shape>, content': seq<YNode?>, kids': seq<Shape>)
    requires RepAll(content, kids) && RepAll(content', kids') && AllNodes(kids) !! AllNodes(kids')
    ensures RepAll(content + content', kids + kids')
    ensures AllNodes(kids + kids') == AllNodes(kids) + AllNodes(kids')
    ensures AbsAll(kids + kids') == AbsAll(kids) + AbsAll(kids')
  {
    hide Rep, Nodes, Abs;
    var all := kids + kids';
    forall i, j | 0 <= i < j < |all| ensures Nodes(all[i]) !! Nodes(all[j]) {
      if i < |kids| <= j {
        KidNodes(kids, i);
        KidNodes(kids', j - |kids|);
      }
    }
    forall n | n in AllNodes(all) ensures n in AllNodes(kids) + AllNodes(kids') {
      var i := InSomeKid(all, n);
      if i < |kids| { KidNodes(kids, i); } else { KidNodes(kids', i - |kids|); }
    }
    forall n | n in AllNodes(kids) ensures n in AllNodes(all) {
      var i := InSomeKid(kids, n);
      assert all[i] == kids[i];
    }
    forall n | n in AllNodes(kids') ensures n in AllNodes(all) {
      var i := InSomeKid(kids', n);
      assert all[|kids| + i] == kids'[i];
    }
  }

  lemma RowLength(content: seq<YNode?>, kids: seq<Shape>)
    requires RepAll(content, kids)
    ensures |content| == |kids|
  {
  }

  /** The first two trees of a row, and the rest. */
  lemma RowPair(content: seq<YNode?>, kids: seq<Shape>)
    requires RepAll(content, kids) && |kids| >= 2
    ensures |content| == |kids| && RepAll(content[2..], kids[2..])
    ensures Root(kids[0]) == content[0] && Rep(kids[0]) && Root(kids[1]) == content[1] && Rep(kids[1])
    ensures Nodes(kids[0]) !! Nodes(kids[1]) && Nodes(kids[0]) + Nodes(kids[1]) !! AllNodes(kids[2..])
    ensures AllNodes(kids) == Nodes(kids[0]) + Nodes(kids[1]) + AllNodes(kids[2..])
    ensures AbsAll(kids) == [Abs(kids[0]), Abs(kids[1])] + AbsAll(kids[2..])
  {
    hide RepAll, Rep, Nodes, AllNodes, Abs;
    RowFirst(content, kids);
    RowFirst(content[1..], kids[1..]);
    DropDrop(content, 1, 1);
    DropDrop(kids, 1, 1);
    TwoThenRest(Abs(kids[0]), Abs(kids[1]), AbsAll(kids[2..]));
  }

  lemma RowFirst(content: seq<YNode?>, kids: seq<Shape>)
    requires RepAll(content, kids) && |kids| >= 1
    ensures |content| == |kids| && RepAll(content[1..], kids[1..])
    ensures Root(kids[0]) == content[0] && Rep(kids[0]) && Nodes(kids[0]) !! AllNodes(kids[1..])
    ensures AllNodes(kids) == Nodes(kids[0]) + AllNodes(kids[1..])
    ensures AbsAll(kids) == [Abs(kids[0])] + AbsAll(kids[1..])
  {
    hide RepAll, Rep, Nodes, AllNodes, Abs;
    RowSplit(content, kids, 1);
    assert kids[..1] == [kids[0]] && content[..1] == [content[0]];
    RowOne(content[0], kids[0]);
  }

  lemma RowAdd(content: seq<YNode?>, kids: seq<Shape>, k: Shape)
    requires RepAll(content, kids) && Rep(k) && Nodes(k) !! AllNodes(kids)
    ensures RepAll(content + [Root(k)], kids + [k])
    ensures AllNodes(kids + [k]) == AllNodes(kids) + Nodes(k)
    ensures AbsAll(kids + [k]) == AbsAll(kids) + [Abs(k)]
  {
    hide RepAll, Rep, Nodes, AllNodes, Abs;
    RowOne(Root(k), k);
    RowJoin(content, kids, [Root(k)], [k]);
  }

  /** A pair put at the end of a row. */
  lemma RowAddPair(content: seq<YNode?>, kids: seq<Shape>, k: Shape, v: Shape)
    requires RepAll(content, kids) && Rep(k) && Rep(v) && Nodes(k) !! Nodes(v) && Nodes(k) + Nodes(v) !! AllNodes(kids)
    ensures RepAll(content + [Root(k), Root(v)], kids + [k, v])
    ensures AllNodes(kids + [k, v]) == AllNodes(kids) + Nodes(k) + Nodes(v)
    ensures AbsAll(kids + [k, v]) == AbsAll(kids) + [Abs(k), Abs(v)]
  {
    hide RepAll, Rep, Nodes, AllNodes, Abs;
    RowOne(Root(k), k);
    RowOne(Root(v), v);
    RowJoin([Root(k)], [k], [Root(v)], [v]);
    assert [Root(k)] + [Root(v)] == [Root(k), Root(v)] && [k] + [v] == [k, v];
    RowJoin(content, kids, [Root(k), Root(v)], [k, v]);
  }

  /** One tree of a row taken out from between its neighbours. */
  lemma RowAround(content: seq<YNode?>, kids: seq<Shape>, k: nat)
    requires RepAll(content, kids) && k < |kids|
    ensures |content| == |kids| && RepAll(content[..k], kids[..k]) && RepAll(content[k + 1..], kids[k + 1..])
    ensures Root(kids[k]) == content[k] && Rep(kids[k])
    ensures AllNodes(kids[..k]) !! Nodes(kids[k]) && AllNodes(kids[..k]) + Nodes(kids[k]) !! AllNodes(kids[k + 1..])
    ensures AllNodes(kids) == AllNodes(kids[..k]) + Nodes(kids[k]) + AllNodes(kids[k + 1..])
    ensures AbsAll(kids) == AbsAll(kids[..k]) + [Abs(kids[k])] + AbsAll(kids[k + 1..])
    ensures AbsAll(kids)[k] == Abs(kids[k])
  {
    hide RepAll, Rep, Nodes, AllNodes, Abs;
    RowSplit(content, kids, k);
    RowFirst(content[k..], kids[k..]);
    DropDrop(content, k, 1);
    DropDrop(kids, k, 1);
    Regroup(AbsAll(kids[..k]), [Abs(kids[k])], AbsAll(kids[k + 1..]));
  }

  /** A tree put in between. */
  lemma RowAgain(content: seq<YNode?>, kids: seq<Shape>, k: nat, c: Shape)
    requires |content| == |kids| && k < |kids| && RepAll(content[..k], kids[..k]) && RepAll(content[k + 1..], kids[k + 1..])
    requires Root(c) == content[k] && Rep(c)
    requires AllNodes(kids[..k]) !! Nodes(c) && AllNodes(kids[..k]) + Nodes(c) !! AllNodes(kids[k + 1..])
    ensures RepAll(content, kids[k := c])
    ensures AllNodes(kids[k := c]) == AllNodes(kids[..k]) + Nodes(c) + AllNodes(kids[k + 1..])
    ensures AbsAll(kids[k := c]) == AbsAll(kids[..k]) + [Abs(c)] + AbsAll(kids[k + 1..])
  {
    hide RepAll, Rep, Nodes, AllNodes, Abs;
    RowAdd(content[..k], kids[..k], c);
    RowJoin(content[..k] + [Root(c)], kids[..k] + [c], content[k + 1..], kids[k + 1..]);
    PutAt(content, k, content[k]);
    PutAt(kids, k, c);
  }

  /** A pair taken out of a row. */
  lemma RowDropPair(content: seq<YNode?>, kids: seq<Shape>, i: nat)
    requires RepAll(content, kids) && i + 1 < |kids|
    ensures |content| == |kids| && RepAll(content[..i] + content[i + 2..], kids[..i] + kids[i + 2..])
    ensures AllNodes(kids[..i] + kids[i + 2..]) <= AllNodes(kids)
    ensures AbsAll(kids[..i] + kids[i + 2..]) == AbsAll(kids)[..i] + AbsAll(kids)[i + 2..]
  {
    hide RepAll, Rep, Nodes, AllNodes, Abs;
    RowSplit(content, kids, i);
    RowPair(content[i..], kids[i..]);
    DropDrop(content, i, 2);
    DropDrop(kids, i, 2);
    DropDrop(AbsAll(kids), i, 2);
    RowJoin(content[..i], kids[..i], content[i + 2..], kids[i + 2..]);
  }

  // ---------------------------------------------------------------- sequences from an index on

  /** What is left of a sequence from `i` on. */
  ghost predicate IsRest<T>(all: seq<T>, i: nat, rest: seq<T>)
  {
    i <= |all| && rest == all[i..]
  }

  lemma RestAll<T>(all: seq<T>)
    ensures IsRest(all, 0, all)
  {
  }

  lemma TakeMore<T>(all: seq<T>, i: nat)
    requires i < |all|
    ensures all[..i] + [all[i]] == all[..i + 1]
  {
  }

  lemma TakeAll<T>(all: seq<T>)
    ensures all[..|all|] == all
  {
  }

  lemma RestEnd<T>(all: seq<T>, i: nat, rest: seq<T>)
    requires IsRest(all, i, rest) && i >= |all|
    ensures rest == []
  {
  }

  lemma RestOne<T>(all: seq<T>, i: nat, rest: seq<T>)
    requires IsRest(all, i, rest) && i < |all|
    ensures |rest| == |all| - i && all[i] == rest[0] && IsRest(all, i + 1, rest[1..])
  {
  }

  lemma RestPair<T>(all: seq<T>, i: nat, rest: seq<T>)
    requires IsRest(all, i, rest) && i + 1 < |all|
    ensures |rest| == |all| - i && all[i] == rest[0] && all[i + 1] == rest[1] && IsRest(all, i + 2, rest[2..])
  {
  }

  // ---------------------------------------------------------------- copying a tree

  /** A closed set with the root in it has the whole tree in it. */
  lemma TreeIsReached(s: Shape, graph: set<YNode>)
    requires Rep(s) && Closed(graph) && (s.At? ==> s.node in graph)
    ensures Nodes(s) <= graph
    decreases s
  {
    if s.At? {
      Unfold(s);
      hide Rep, Nodes, AllNodes, RepAll, Abs;
      forall i | 0 <= i < |s.kids| ensures Nodes(s.kids[i]) <= graph {
        Kid(s.node.content, s.kids, i);
        TreeIsReached(s.kids[i], graph);
      }
      AllNodesIn(s.kids, graph);
    } else {
      assert Nodes(s) == {};
    }
  }

  ghost function Copied(s: Shape, seen: map<YNode, YNode>): Shape
    requires Nodes(s) <= seen.Keys
    decreases s
  {
    if s.Nil? then Nil else At(seen[s.node], AllCopied(s.kids, seen))
  }

  ghost function AllCopied(kids: seq<Shape>, seen: map<YNode, YNode>): (r: seq<Shape>)
    requires AllNodes(kids) <= seen.Keys
    decreases kids
  {
    seq(|kids|, i requires 0 <= i < |kids| => assert Nodes(kids[i]) <= AllNodes(kids); Copied(kids[i], seen))
  }

  lemma CopiedNodes(s: Shape, seen: map<YNode, YNode>, c: YNode) returns (n: YNode)
    requires Nodes(s) <= seen.Keys && c in Nodes(Copied(s, seen))
    ensures n in Nodes(s) && c == seen[n]
    decreases s
  {
    if c == seen[s.node] {
      n := s.node;
    } else {
      var r := AllCopied(s.kids, seen);
      var i := InSomeKid(r, c);
      KidNodes(s.kids, i);
      n := CopiedNodes(s.kids[i], seen, c);
    }
  }

  lemma CopiedApart(kids: seq<Shape>, seen: map<YNode, YNode>)
    requires AllNodes(kids) <= seen.Keys && OneToOne(seen) && Apart(kids)
    ensures Apart(AllCopied(kids, seen))
  {
    var r := AllCopied(kids, seen);
    forall i, j, c | 0 <= i < j < |r| && c in Nodes(r[i]) ensures c !in Nodes(r[j]) {
      KidNodes(kids, i);
      KidNodes(kids, j);
      var m := CopiedNodes(kids[i], seen, c);
      if c in Nodes(r[j]) {
        var n := CopiedNodes(kids[j], seen, c);
        assert false;
      }
    }
  }

  /** The copy of a tree is a tree that stands for the same value. */
  lemma CopiedIsRep(s: Shape, seen: map<YNode, YNode>)
    requires Rep(s) && Nodes(s) <= seen.Keys && IsCopy(seen)
    ensures Nodes(Copied(s, seen)) <= seen.Values && Follows(seen, Root(s), Root(Copied(s, seen)))
    ensures Rep(Copied(s, seen)) && Abs(Copied(s, seen)) == Abs(s)
    decreases s
  {
    var r := Copied(s, seen);
    forall c | c in Nodes(r) ensures c in seen.Values {
      var n := CopiedNodes(s, seen, c);
    }
    if s.At? {
      Unfold(s);
      KidsCopied(s, seen);
      assert Mirrors(seen, s.node);
      assert r.node !in AllNodes(r.kids) by {
        if r.node in AllNodes(r.kids) {
          var i := InSomeKid(r.kids, r.node);
          KidNodes(s.kids, i);
          var n := CopiedNodes(s.kids[i], seen, r.node);
          assert false;
        }
      }
      hide IsCopy, Nodes, RepAll, Rep, Abs;
      Fold(r);
    }
  }

  lemma KidsCopied(s: Shape, seen: map<YNode, YNode>)
    requires Rep(s) && s.At? && Nodes(s) <= seen.Keys && IsCopy(seen)
    ensures AllNodes(s.kids) <= Nodes(s) && RepAll(seen[s.node].content, AllCopied(s.kids, seen))
    ensures AbsAll(AllCopied(s.kids, seen)) == AbsAll(s.kids)
    decreases s, 0
  {
    Unfold(s);
    assert Mirrors(seen, s.node) && OneToOne(seen);
    var r := AllCopied(s.kids, seen);
    assert Apart(s.kids);
    CopiedApart(s.kids, seen);
    hide IsCopy, Nodes, Rep, Abs, AllNodes;
    forall i | 0 <= i < |s.kids| ensures Rep(r[i]) && Root(r[i]) == seen[s.node].content[i] && Abs(r[i]) == Abs(s.kids[i]) {
      Kid(s.node.content, s.kids, i);
      assert r[i] == Copied(s.kids[i], seen);
      CopiedIsRep(s.kids[i], seen);
      assert Follows(seen, s.node.content[i], seen[s.node].content[i]);
    }
    assert AbsAll(r) == AbsAll(s.kids);
  }

  lemma RootInTree(s: Shape)
    ensures s.At? ==> s.node in Nodes(s)
  {
  }

  lemma CopyMeans(seen: map<YNode, YNode>)
    requires IsCopy(seen)
    ensures Closed(seen.Keys) && OneToOne(seen)
  {
  }

  /** `deepCopyNode` on a tree in a graph of nodes: whatever its aliases point to is in the graph as well. */
  method DeepCopyTree(n: YNode?, ghost s: Shape, ghost graph: set<YNode>) returns (r: YNode?, ghost c: Shape)
    requires Root(s) == n && Rep(s) && Nodes(s) <= graph && Closed(graph)
    ensures Root(c) == r && Rep(c) && Abs(c) == Abs(s) && fresh(Nodes(c))
  {
    hide Rep, Nodes, Abs, IsCopy, Closed;
    RootInTree(s);
    assert allocated(Nodes(s));
    ghost var seen;
    r, seen := DeepCopyNode(n, graph);
    CopyMeans(seen);
    TreeIsReached(s, seen.Keys);
    CopiedIsRep(s, seen);
    c := Copied(s, seen);
  }

  // ---------------------------------------------------------------- reading a tree

  /** The value the reading helpers judge. */
  function View(n: YNode?, ghost s: Shape): (t: Tree)
    requires Root(s) == n && Rep(s)
    reads Nodes(s)
    ensures t == Abs(s)
    decreases s, 1
  {
    if n == null then Null else Node(n.kind, n.tag, n.value, ViewAll(n.content, s.kids), n.trivia)
  }

  function ViewAll(content: seq<YNode?>, ghost kids: seq<Shape>): (ts: seq<Tree>)
    requires RepAll(content, kids)
    reads AllNodes(kids)
    ensures ts == AbsAll(kids)
    decreases kids, 0
  {
    if |content| == 0 then []
    else
      var last := |content| - 1;
      ViewAll(content[..last], kids[..last]) + [View(content[last], kids[last])]
  }

  lemma AbsMeans(s: Shape)
    ensures Abs(s).Null? <==> Root(s) == null
    ensures s.At? ==> Abs(s).kind == s.node.kind && Abs(s).tag == s.node.tag && Abs(s).value == s.node.value
  {
  }

  ghost predicate NoKeyBefore(ts: seq<Tree>, key: string, i: nat)
  {
    forall j :: 0 <= j < i && j < |ts| && j % 2 == 0 ==> !(ts[j].Node? && ts[j].value == key)
  }

  lemma NoKeyYet(ts: seq<Tree>, key: string, i: nat)
    requires NoKeyBefore(ts, key, i) && i % 2 == 0
    ensures i < |ts| && !(ts[i].Node? && ts[i].value == key) ==> NoKeyBefore(ts, key, i + 2)
    ensures i + 1 < |ts| && ts[i].Node? && ts[i].value == key ==> KeyIndex(ts, key) == i && HasKey(ts, key)
    ensures i + 1 >= |ts| ==> !HasKey(ts, key)
  {
    if i + 1 < |ts| {
      if ts[i].Node? && ts[i].value == key { KeyIndexIs(ts, key, i); }
    } else {
      KeyIndexNone(ts, key);
    }
  }

  method FindMapKeyIndex(mapNode: YNode?, ghost s: Shape, key: string) returns (idx: int)
    requires Root(s) == mapNode && Rep(s)
    ensures idx == if Abs(s).Is(Mapping) && HasKey(Abs(s).content, key) then KeyIndex(Abs(s).content, key) else -1
  {
    hide Rep, RepAll, Abs, Nodes, AllNodes, HasKey, KeyIndex, NoKeyBefore;
    AbsMeans(s);
    if mapNode == null || mapNode.kind != Mapping { return -1; }
    Unfold(s);
    ghost var ts := AbsAll(s.kids);
    var i := 0;
    assert NoKeyBefore(ts, key, 0) by { NothingBefore(ts, key); }
    while i + 1 < |mapNode.content|
      invariant i % 2 == 0 && NoKeyBefore(ts, key, i) && |mapNode.content| == |ts|
      invariant Rep(s) && RepAll(mapNode.content, s.kids) && AbsAll(s.kids) == ts && Abs(s).Is(Mapping) && Abs(s).content == ts
    {
      NoKeyYet(ts, key, i);
      Kid(mapNode.content, s.kids, i);
      AbsMeans(s.kids[i]);
      if mapNode.content[i] != null && mapNode.content[i].value == key {
        return i;
      }
      i := i + 2;
    }
    NoKeyYet(ts, key, i);
    return -1;
  }

  lemma NothingBefore(ts: seq<Tree>, key: string)
    ensures NoKeyBefore(ts, key, 0)
  {
  }
}
