/** YAML nodes as the parser builds them: objects that can be shared and can form cycles through their
    content and alias pointers. `deepCopyNodeSeen` copies such a graph. */
module YamlGraph {
  import opened YamlTree

  class YNode {
    var kind: Kind
    var tag: string
    var value: string
    var trivia: nat
    var content: seq<YNode?>
    var alias: YNode?

    constructor (kind: Kind, tag: string, value: string, trivia: nat, content: seq<YNode?>, alias: YNode?)
      ensures this.kind == kind && this.tag == tag && this.value == value && this.trivia == trivia
      ensures this.content == content && this.alias == alias
    {
      this.kind, this.tag, this.value, this.trivia, this.content, this.alias := kind, tag, value, trivia, content, alias;
    }
  }

  /** A set of nodes that no pointer leaves. */
  ghost predicate Closed(graph: set<YNode>)
    reads graph
  {
    forall n :: n in graph ==>
      && (n.alias != null ==> n.alias in graph)
      && (forall i :: 0 <= i < |n.content| && n.content[i] != null ==> n.content[i] in graph)
  }

  /** The pointer that stands for `p` among the copies. */
  ghost predicate Follows(seen: map<YNode, YNode>, p: YNode?, q: YNode?)
  {
    if p == null then q == null else p in seen && q == seen[p]
  }

  ghost predicate AllFollow(seen: map<YNode, YNode>, ps: seq<YNode?>, qs: seq<YNode?>, upTo: nat)
    requires upTo <= |ps|
  {
    |qs| == |ps| && forall i :: 0 <= i < upTo ==> Follows(seen, ps[i], qs[i])
  }

  /** The copy of `n` has its fields, and its pointers go to the copies of what `n` points to. */
  ghost predicate Mirrors(seen: map<YNode, YNode>, n: YNode)
    requires n in seen
    reads n, seen[n]
  {
    var c := seen[n];
    && c.kind == n.kind && c.tag == n.tag && c.value == n.value && c.trivia == n.trivia
    && Follows(seen, n.alias, c.alias)
    && AllFollow(seen, n.content, c.content, |n.content|)
  }

  ghost predicate OneToOne(seen: map<YNode, YNode>)
  {
    forall m, n :: m in seen && n in seen && seen[m] == seen[n] ==> m == n
  }

  /** Copies stay where they are, and only nodes of `graph` are added. */
  ghost predicate Grew(before: map<YNode, YNode>, seen: map<YNode, YNode>, graph: set<YNode>)
  {
    && before.Keys <= seen.Keys <= before.Keys + graph && OneToOne(seen)
    && (forall m :: m in before ==> seen[m] == before[m])
  }

  lemma GrewTwice(a: map<YNode, YNode>, b: map<YNode, YNode>, c: map<YNode, YNode>, graph: set<YNode>)
    requires Grew(a, b, graph) && Grew(b, c, graph)
    ensures Grew(a, c, graph) && OneToOne(c)
  {
  }

  lemma GrewNot(seen: map<YNode, YNode>, graph: set<YNode>)
    requires OneToOne(seen)
    ensures Grew(seen, seen, graph) && AllMirror(seen, {}, {})
  {
  }

  lemma GrewBy(before: map<YNode, YNode>, n: YNode, cp: YNode, graph: set<YNode>)
    requires OneToOne(before) && n in graph && n !in before && cp !in before.Values
    ensures Grew(before, before[n := cp], graph)
  {
  }

  lemma GrewMeans(before: map<YNode, YNode>, seen: map<YNode, YNode>, graph: set<YNode>, n: YNode)
    requires Grew(before, seen, graph)
    ensures before.Keys <= seen.Keys && OneToOne(seen)
    ensures n in before ==> seen[n] == before[n]
  {
  }

  lemma MirrorsStay(before: map<YNode, YNode>, seen: map<YNode, YNode>, graph: set<YNode>, m: YNode)
    requires Grew(before, seen, graph) && m in before && Mirrors(before, m)
    ensures Mirrors(seen, m)
  {
  }

  lemma FollowsStay(before: map<YNode, YNode>, seen: map<YNode, YNode>, graph: set<YNode>, p: YNode?, q: YNode?)
    requires Grew(before, seen, graph) && Follows(before, p, q)
    ensures Follows(seen, p, q)
  {
  }

  lemma AllFollowMore(before: map<YNode, YNode>, seen: map<YNode, YNode>, graph: set<YNode>,
      ps: seq<YNode?>, qs: seq<YNode?>, i: nat, c: YNode?)
    requires Grew(before, seen, graph) && i < |ps| && AllFollow(before, ps, qs, i) && Follows(seen, ps[i], c)
    ensures AllFollow(seen, ps, qs[i := c], i + 1)
  {
  }

  lemma PointersAreClosed(graph: set<YNode>, n: YNode)
    requires Closed(graph) && n in graph
    ensures n.alias != null ==> n.alias in graph
    ensures forall i :: 0 <= i < |n.content| && n.content[i] != null ==> n.content[i] in graph
  {
  }

  /** The nodes in `ms` have copies in `made`, linked to copies. */
  ghost predicate AllMirror(seen: map<YNode, YNode>, ms: set<YNode>, made: set<YNode>)
    reads ms, made
  {
    forall m :: m in ms ==> m in seen && seen[m] in made && Mirrors(seen, m)
  }

  lemma AllMirrorMore(before: map<YNode, YNode>, seen: map<YNode, YNode>, graph: set<YNode>,
      ms: set<YNode>, made: set<YNode>, ns: set<YNode>, more: set<YNode>)
    requires Grew(before, seen, graph) && AllMirror(before, ms, made) && AllMirror(seen, ns, more)
    ensures AllMirror(seen, ms + ns, made + more)
  {
    hide Mirrors;
    forall m | m in ms + ns ensures m in seen && seen[m] in made + more && Mirrors(seen, m) {
      if m in ms { MirrorsStay(before, seen, graph, m); }
    }
  }

  class Copier {
    var seen: map<YNode, YNode>

    constructor ()
      ensures seen == map[]
    {
      seen := map[];
    }

    /** Copies what can be reached from `n` and was not seen before. A node is entered in `seen` before
        its pointers are followed, which is what makes cycles end. `graph` is any closed set with `n` in it:
        whichever one is chosen, no node outside it is copied. */
    method DeepCopyNodeSeen(n: YNode?, ghost graph: set<YNode>) returns (r: YNode?, ghost ms: set<YNode>, ghost made: set<YNode>)
      requires Closed(graph) && (n != null ==> n in graph) && OneToOne(seen)
      modifies this
      ensures Follows(seen, n, r) && Grew(old(seen), seen, graph)
      ensures seen.Keys == old(seen).Keys + ms && ms <= graph && fresh(made) && AllMirror(seen, ms, made)
      decreases graph - seen.Keys, 1
    {
      hide Closed, OneToOne, Mirrors, AllMirror, Grew;
      GrewNot(seen, graph);
      if n == null { return null, {}, {}; }
      if n in seen { return seen[n], {}, {}; }
      var cp := new YNode(n.kind, n.tag, n.value, n.trivia, n.content, n.alias);
      seen := seen[n := cp];
      GrewBy(old(seen), n, cp, graph);
      ghost var entered := seen;
      GrewMeans(old(seen), entered, graph, n);
      assert n in graph - old(seen).Keys && n !in graph - seen.Keys;
      ms, made := CopyPointers(n, cp, graph);
      GrewTwice(old(seen), entered, seen, graph);
      GrewMeans(entered, seen, graph, n);
      AllMirrorNow(seen, n, ms, made);
      ms, made := ms + {n}, made + {cp};
      r := cp;
    }

    /** The pointers of a new copy, turned from the originals to their copies. */
    method CopyPointers(n: YNode, cp: YNode, ghost graph: set<YNode>) returns (ghost ms: set<YNode>, ghost made: set<YNode>)
      requires Closed(graph) && n in graph && n in seen && seen[n] == cp && cp !in graph && OneToOne(seen)
      requires cp.content == n.content && cp.alias == n.alias
      modifies this, cp`content, cp`alias
      ensures Follows(seen, n.alias, cp.alias) && AllFollow(seen, n.content, cp.content, |n.content|)
      ensures Grew(old(seen), seen, graph)
      ensures seen.Keys == old(seen).Keys + ms && ms <= graph && fresh(made) && AllMirror(seen, ms, made)
      decreases graph - seen.Keys, 2
    {
      hide Closed, OneToOne, Mirrors, AllMirror, Grew;
      PointersAreClosed(graph, n);
      GrewNot(seen, graph);
      ms, made := {}, {};
      if n.alias != null {
        cp.alias, ms, made := DeepCopyNodeSeen(n.alias, graph);
        GrewMeans(old(seen), seen, graph, n);
      }
      if |n.content| > 0 {
        cp.content := seq(|n.content|, _ => null);
        var i := 0;
        while i < |n.content|
          invariant i <= |n.content| && AllFollow(seen, n.content, cp.content, i) && Follows(seen, n.alias, cp.alias)
          invariant OneToOne(seen) && Grew(old(seen), seen, graph)
          invariant seen.Keys == old(seen).Keys + ms && ms <= graph && fresh(made) && AllMirror(seen, ms, made)
        {
          ghost var before := seen;
          ghost var ns, more;
          var c;
          c, ns, more := DeepCopyNodeSeen(n.content[i], graph);
          GrewTwice(old(seen), before, seen, graph);
          AllMirrorMore(before, seen, graph, ms, made, ns, more);
          AllFollowMore(before, seen, graph, n.content, cp.content, i, c);
          FollowsStay(before, seen, graph, n.alias, cp.alias);
          cp.content := cp.content[i := c];
          ms, made := ms + ns, made + more;
          i := i + 1;
        }
      }
    }
  }

  lemma AllMirrorNow(seen: map<YNode, YNode>, n: YNode, ms: set<YNode>, made: set<YNode>)
    requires n in seen && Follows(seen, n.alias, seen[n].alias) && AllFollow(seen, n.content, seen[n].content, |n.content|)
    requires var c := seen[n]; c.kind == n.kind && c.tag == n.tag && c.value == n.value && c.trivia == n.trivia
    requires AllMirror(seen, ms, made)
    ensures AllMirror(seen, ms + {n}, made + {seen[n]})
  {
    hide Follows, AllFollow;
    assert Mirrors(seen, n);
    hide Mirrors;
  }

  /** A whole copy. The copied nodes are the least closed set with `n` in it, each has exactly one copy,
      every copy is a new node, and the copies are linked as the originals are. */
  method DeepCopyNode(n: YNode?, ghost graph: set<YNode>) returns (r: YNode?, ghost seen: map<YNode, YNode>)
    requires Closed(graph) && (n != null ==> n in graph)
    ensures Follows(seen, n, r)
    ensures IsCopy(seen) && seen.Keys <= graph && fresh(seen.Values)
  {
    var copier := new Copier();
    ghost var ms, made;
    r, ms, made := copier.DeepCopyNodeSeen(n, graph);
    seen := copier.seen;
  }

  // ---------------------------------------------------------------- what a copy looks like from outside

  datatype Step = ToAlias | ToContent(index: nat)

  /** Where one pointer leads; nowhere from nil, or past the end of the content. */
  ghost function Hop(p: YNode?, step: Step): YNode?
    reads p
  {
    if p == null then null
    else match step
    case ToAlias => p.alias
    case ToContent(i) => if i < |p.content| then p.content[i] else null
  }

  ghost function Walk(p: YNode?, graph: set<YNode>, path: seq<Step>): (q: YNode?)
    requires Closed(graph) && (p != null ==> p in graph)
    reads graph
    ensures q != null ==> q in graph
  {
    if path == [] then p
    else
      var last := |path| - 1;
      Hop(Walk(p, graph, path[..last]), path[last])
  }

  /** `seen` is a copy of everything reachable from its keys. */
  ghost predicate IsCopy(seen: map<YNode, YNode>)
    reads seen.Keys, seen.Values
  {
    Closed(seen.Keys) && OneToOne(seen) && forall m :: m in seen ==> Mirrors(seen, m)
  }

  /** No copy points back to an original. */
  lemma CopyIsClosed(seen: map<YNode, YNode>)
    requires IsCopy(seen)
    ensures Closed(seen.Values)
  {
    forall c | c in seen.Values
      ensures c.alias != null ==> c.alias in seen.Values
      ensures forall i :: 0 <= i < |c.content| && c.content[i] != null ==> c.content[i] in seen.Values
    {
      var m :| m in seen && seen[m] == c;
      assert Mirrors(seen, m);
      forall i | 0 <= i < |c.content| && c.content[i] != null ensures c.content[i] in seen.Values {
        assert Follows(seen, m.content[i], c.content[i]);
      }
    }
  }

  /** Every path from the copy leads to the copy of where it leads from the original. */
  lemma {:induction false} WalksCorrespond(seen: map<YNode, YNode>, n: YNode?, r: YNode?, path: seq<Step>)
    requires IsCopy(seen) && Follows(seen, n, r)
    ensures Closed(seen.Values) && Follows(seen, Walk(n, seen.Keys, path), Walk(r, seen.Values, path))
    decreases |path|
  {
    CopyIsClosed(seen);
    if path != [] {
      var last := |path| - 1;
      WalksCorrespond(seen, n, r, path[..last]);
      var p := Walk(n, seen.Keys, path[..last]);
      if p != null { assert Mirrors(seen, p); }
    }
  }

  /** Sharing and cycles are copied: two paths meet in the copy exactly when they meet in the original. */
  lemma SharingIsCopied(seen: map<YNode, YNode>, n: YNode?, r: YNode?, path: seq<Step>, other: seq<Step>)
    requires IsCopy(seen) && Follows(seen, n, r)
    ensures Closed(seen.Values)
    ensures Walk(r, seen.Values, path) == Walk(r, seen.Values, other) <==> Walk(n, seen.Keys, path) == Walk(n, seen.Keys, other)
  {
    WalksCorrespond(seen, n, r, path);
    WalksCorrespond(seen, n, r, other);
  }
}
