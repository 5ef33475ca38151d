/** YAML nodes as values, and the comment-preserving merge as a function on them. */
module YamlTree {
  import opened Text

  datatype Kind = Unset | Document | Sequence | Mapping | Scalar | Alias

  /** A node. `trivia` stands for everything the merge leaves alone: comments, quoting style, anchor.
      `Null` is a nil pointer. A mapping's content alternates keys and values. */
  datatype Tree = Null | Node(kind: Kind, tag: string, value: string, content: seq<Tree>, trivia: nat)
  {
    predicate Is(k: Kind) { Node? && kind == k }
    function Name(): string { if Node? then value else "" }
  }

  type Path = seq<string>

  const PPROF_ADDR := "127.0.0.1:8316"
  const PANEL_REPOSITORY := "https://github.com/router-for-me/Cli-Proxy-API-Management-Center"

  // ---------------------------------------------------------------- defaults

  predicate IsZero(n: Tree)
  {
    if n.Null? then true
    else match n.kind
    case Scalar => ZeroScalar(n.tag, n.value)
    case Sequence => forall i :: 0 <= i < |n.content| ==> IsZero(n.content[i])
    case Mapping => forall i :: 0 <= i < |n.content| && i % 2 == 1 ==> IsZero(n.content[i])
    case _ => false
  }

  predicate ZeroScalar(tag: string, value: string)
  {
    || (tag == "!!bool" && value == "false")
    || ((tag == "!!int" || tag == "!!float") && (value == "0" || value == "0.0"))
    || (tag == "!!str" && value == "")
    || tag == "!!null"
  }

  /** An explicit integer weight is meaningful even when it is zero. */
  predicate IsWeight(path: Path, n: Tree)
  {
    path != [] && path[|path| - 1] == "weight" && n.Is(Scalar) && n.tag == "!!int"
  }

  predicate IsNamedDefault(path: Path, n: Tree)
  {
    path != [] && n.Is(Scalar) &&
    var full := Dotted(path);
    || (n.tag == "!!str" && full == "pprof.addr" && n.value == PPROF_ADDR)
    || (n.tag == "!!str" && full == "remote-management.panel-github-repository" && n.value == PANEL_REPOSITORY)
    || (n.tag == "!!str" && full == "plugins.dir" && n.value == "plugins")
    || (n.tag == "!!str" && full == "routing.strategy" && n.value == "round-robin")
    || (n.tag == "!!int" && full == "error-logs-max-files" && n.value == "10")
  }

  predicate IsKnownDefault(path: Path, n: Tree)
  {
    !IsWeight(path, n) && (IsZero(n) || IsNamedDefault(path, n))
  }

  predicate IsEmptyCollection(n: Tree)
  {
    (n.Is(Mapping) || n.Is(Sequence)) && n.content == []
  }

  /** Default-valued descendants removed from a node that is about to be added. */
  function Prune(path: Path, n: Tree): Tree
    decreases n, 1, 0
  {
    if n.Is(Mapping) then n.(content := PrunePairs(path, n, 0))
    else if n.Is(Sequence) then n.(content := PruneElements(path, n))
    else n
  }

  function PruneElements(path: Path, n: Tree): seq<Tree>
    requires n.Node?
    decreases n, 0, 0
  {
    seq(|n.content|, i requires 0 <= i < |n.content| => Prune(path, n.content[i]))
  }

  function PrunePairs(path: Path, n: Tree, i: nat): seq<Tree>
    requires n.Node? && i <= |n.content|
    decreases n, 0, |n.content| - i
  {
    if i + 1 >= |n.content| then []
    else
      var key, value := n.content[i], n.content[i + 1];
      var rest := PrunePairs(path, n, i + 2);
      if key.Null? || value.Null? then rest
      else
        var child := path + [key.value];
        if IsKnownDefault(child, value) || IsEmptyCollection(Prune(child, value)) then rest
        else [key, Prune(child, value)] + rest
  }

  // ---------------------------------------------------------------- keys

  /** Index of the first key node with this value, or the length. */
  function KeyIndex(content: seq<Tree>, key: string): (i: nat)
    ensures i <= |content|
    ensures i < |content| ==> i + 1 < |content| && content[i].Node? && content[i].value == key
    decreases |content|
  {
    if |content| < 2 then |content|
    else if content[0].Node? && content[0].value == key then 0
    else 2 + KeyIndex(content[2..], key)
  }

  predicate HasKey(content: seq<Tree>, key: string)
  {
    KeyIndex(content, key) < |content|
  }

  function ValueOf(content: seq<Tree>, key: string): Tree
    requires HasKey(content, key)
  {
    content[KeyIndex(content, key) + 1]
  }

  // ---------------------------------------------------------------- sequence elements

  const IDENTITY_KEYS := ["id", "name", "alias", "api-key", "api_key", "apikey", "key", "provider", "model"]

  /** The trimmed scalar under the first key that equals `key` but for case and blanks. */
  function ScalarUnder(content: seq<Tree>, key: string): string
    decreases |content|
  {
    if |content| < 2 then ""
    else if content[0].Node? && content[1].Is(Scalar) && Lower(Trim(content[0].value)) == key then Trim(content[1].value)
    else ScalarUnder(content[2..], key)
  }

  function FirstIdentity(content: seq<Tree>, keys: seq<string>): string
  {
    if keys == [] then ""
    else
      var v := ScalarUnder(content, keys[0]);
      if v != "" then keys[0] + "=" + v else FirstIdentity(content, keys[1..])
  }

  function FirstScalar(content: seq<Tree>): string
    decreases |content|
  {
    if |content| < 2 then ""
    else if content[0].Node? && content[1].Is(Scalar) && Trim(content[1].value) != ""
    then Lower(Trim(content[0].value)) + "=" + Trim(content[1].value)
    else FirstScalar(content[2..])
  }

  function Identity(n: Tree): string
  {
    if !n.Is(Mapping) then ""
    else if FirstIdentity(n.content, IDENTITY_KEYS) != "" then FirstIdentity(n.content, IDENTITY_KEYS)
    else FirstScalar(n.content)
  }

  /** Structural equality. Alias targets are not part of a tree: two alias nodes are compared by name. */
  predicate StructurallyEqual(a: Tree, b: Tree)
  {
    if a.Null? || b.Null? then a == b
    else
      a.kind == b.kind &&
      if a.kind == Mapping || a.kind == Sequence then
        |a.content| == |b.content| &&
        forall i :: 0 <= i < |a.content| - (if a.kind == Mapping then |a.content| % 2 else 0)
          ==> StructurallyEqual(a.content[i], b.content[i])
      else Trim(a.value) == Trim(b.value)
  }

  /** How an original element can correspond to a target: by identity or trimmed value first. */
  predicate SameIdentity(original: Tree, target: Tree)
  {
    || (target.Is(Mapping) && original.Is(Mapping) && Identity(target) != "" && Identity(original) == Identity(target))
    || (target.Is(Scalar) && original.Is(Scalar) && Trim(target.value) != "" && Trim(original.value) == Trim(target.value))
  }

  /** The first unused original from `i` on that passes `test`, or the length. */
  function FirstUnused(originals: seq<Tree>, used: set<nat>, i: nat, test: Tree -> bool): (k: nat)
    requires i <= |originals|
    ensures i <= k <= |originals| && (k < |originals| ==> k !in used && originals[k].Node? && test(originals[k]))
    decreases |originals| - i
  {
    if i == |originals| || (i !in used && originals[i].Node? && test(originals[i])) then i
    else FirstUnused(originals, used, i + 1, test)
  }

  /** The original element a target is merged into, or the length. */
  function Match(originals: seq<Tree>, used: set<nat>, target: Tree): (k: nat)
    ensures k <= |originals| && (k < |originals| ==> k !in used && originals[k].Node?)
  {
    if target.Null? then |originals|
    else
      var k := FirstUnused(originals, used, 0, o => SameIdentity(o, target));
      if k < |originals| then k else FirstUnused(originals, used, 0, o => StructurallyEqual(o, target))
  }

  /** For each target in turn the original matched to it, or the number of originals. */
  function Matches(originals: seq<Tree>, used: set<nat>, targets: seq<Tree>): (ks: seq<nat>)
    ensures |ks| == |targets|
    decreases |targets|
  {
    if targets == [] then []
    else
      var k := Match(originals, used, targets[0]);
      [k] + Matches(originals, if k < |originals| then used + {k} else used, targets[1..])
  }

  function Picked(originals: seq<Tree>, k: nat): Tree
  {
    if k < |originals| then originals[k] else Null
  }

  /** The originals in the order of their targets, `Null` where nothing matched. */
  function Reordered(originals: seq<Tree>, targets: seq<Tree>): (r: seq<Tree>)
    ensures |r| == if originals == [] then 0 else if targets == [] then |originals| else |targets|
  {
    if originals == [] || targets == [] then originals
    else
      var ks := Matches(originals, {}, targets);
      seq(|targets|, i requires 0 <= i < |targets| => Picked(originals, ks[i]))
  }

  // ---------------------------------------------------------------- what a merge asks of its source

  predicate AliasFree(t: Tree)
  {
    t.Node? ==> t.kind != Alias && forall i :: 0 <= i < |t.content| ==> AliasFree(t.content[i])
  }

  /** Keys are nodes, and no alias is inside an element of a sequence, where it could be compared with another
      by what the two point to. */
  predicate Mergeable(t: Tree)
  {
    t.Node? ==>
      match t.kind
      case Mapping =>
        && (forall i :: 0 <= i < |t.content| - 1 && i % 2 == 0 ==> t.content[i].Node?)
        && (forall i :: 0 <= i < |t.content| && i % 2 == 1 ==> Mergeable(t.content[i]))
      case Sequence => forall i :: 0 <= i < |t.content| ==> AliasFree(t.content[i]) && Mergeable(t.content[i])
      case _ => true
  }

  // ---------------------------------------------------------------- stale keys

  predicate IsKept(src: seq<Tree>, key: string)
  {
    Trim(key) != "" && exists i :: 0 <= i < |src| - 1 && i % 2 == 0 && src[i].Node? && Trim(src[i].value) == Trim(key)
  }

  function KeptPairs(dst: seq<Tree>, src: seq<Tree>): seq<Tree>
    decreases |dst|
  {
    if |dst| < 2 then dst
    else if dst[0].Null? || IsKept(src, dst[0].value) then dst[..2] + KeptPairs(dst[2..], src)
    else KeptPairs(dst[2..], src)
  }

  /** Pairs whose key the source mapping does not have are removed. */
  function PruneMissing(dst: Tree, src: Tree): (r: Tree)
    ensures r.Null? <==> dst.Null?
    ensures r.Node? ==> r.trivia == dst.trivia && r.kind == dst.kind
  {
    if dst.Is(Mapping) && src.Is(Mapping) then dst.(content := KeptPairs(dst.content, src.content)) else dst
  }

  // ---------------------------------------------------------------- the merge

  /** Kind, tag, value and content replaced; the node and its trivia stay. */
  function CopyShallow(dst: Tree, src: Tree): (r: Tree)
    ensures r.Null? <==> dst.Null?
    ensures r.Node? ==> r.trivia == dst.trivia
  {
    if dst.Null? || src.Null? then dst
    else dst.(kind := src.kind, tag := src.tag, value := src.value, content := src.content)
  }

  function MergeMapping(path: Path, dst: Tree, src: Tree): (r: Tree)
    ensures r.Null? <==> dst.Null?
    ensures r.Node? ==> r.trivia == dst.trivia
    decreases src, 1, 0
  {
    if dst.Null? || src.Null? then dst
    else if dst.kind != Mapping || src.kind != Mapping then CopyShallow(dst, src)
    else dst.(content := MergePairs(path, dst.content, src, 0))
  }

  function MergePairs(path: Path, dst: seq<Tree>, src: Tree, i: nat): seq<Tree>
    requires src.Node? && i <= |src.content|
    decreases src, 0, |src.content| - i
  {
    if i + 1 >= |src.content| then dst
    else MergePairs(path, MergePair(path, dst, src, i), src, i + 2)
  }

  /** One source pair: merged into the existing value, or added unless it comes down to a default. */
  function MergePair(path: Path, dst: seq<Tree>, src: Tree, i: nat): seq<Tree>
    requires src.Node? && i + 1 < |src.content|
    decreases src, 0, 0
  {
    var key, value := src.content[i], src.content[i + 1];
    var child := path + [key.Name()];
    var k := KeyIndex(dst, key.Name());
    if k < |dst| then dst[k + 1 := MergeNode(child, dst[k + 1], value)]
    else
      var candidate := Prune(child, value);
      if IsKnownDefault(child, candidate) then dst else dst + [key, candidate]
  }

  function MergeNode(path: Path, dst: Tree, src: Tree): (r: Tree)
    ensures r.Null? <==> dst.Null?
    ensures r.Node? ==> r.trivia == dst.trivia
    decreases src, 2, 0
  {
    if dst.Null? || src.Null? then dst
    else match src.kind
    case Mapping => MergeMapping(path, if dst.kind != Mapping then CopyShallow(dst, src) else dst, src)
    case Sequence =>
      if dst.kind == Scalar && dst.tag == "!!null" && src.content == [] then dst
      else
        var d := AsSequence(dst);
        d.(content := MergeElements(path, Reordered(d.content, src.content), src))
    case Scalar => dst.(kind := src.kind, tag := src.tag, value := src.value)
    case Alias => dst.(kind := src.kind, tag := src.tag, value := src.value)
    case Unset => dst
    case Document => CopyShallow(dst, src)
  }

  function AsSequence(dst: Tree): Tree
    requires dst.Node?
  {
    if dst.kind != Sequence then dst.(kind := Sequence, tag := "!!seq", content := []) else dst
  }

  /** Element by element: merged where there is an original, copied where there is none. */
  function MergeElements(path: Path, dst: seq<Tree>, src: Tree): (r: seq<Tree>)
    requires src.Node?
    ensures |r| == |src.content|
    decreases src, 1, 0
  {
    seq(|src.content|, i requires 0 <= i < |src.content| =>
      MergeElement(path, if i < |dst| then dst[i] else Null, src.content[i]))
  }

  function MergeElement(path: Path, dst: Tree, src: Tree): Tree
    decreases src, 3, 0
  {
    if dst.Node? then PruneMissing(MergeNode(path, dst, src), src) else src
  }
}
