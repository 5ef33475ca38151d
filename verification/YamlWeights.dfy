/** What becomes of an explicit weight, however deep it stands in a configuration that is merged into a file. A
    weight is never a default by itself, but it can be lost with a value around it that is judged without
    regard to weights. */
module YamlWeights {
  import opened Text
  import opened YamlTree
  import opened YamlMerge
  import opened YamlStructure

  // ---------------------------------------------------------------- places

  datatype Step = Key(name: string) | Index(i: nat)

  /** The node that the steps lead to, or `Null`. */
  function Walk(t: Tree, steps: seq<Step>): Tree
    decreases |steps|
  {
    if steps == [] then t
    else match steps[0]
      case Key(k) => if t.Is(Mapping) && HasKey(t.content, k) then Walk(ValueOf(t.content, k), steps[1..]) else Null
      case Index(i) => if t.Is(Sequence) && i < |t.content| then Walk(t.content[i], steps[1..]) else Null
  }

  predicate Says(n: Tree, w: Tree)
  {
    n.Is(Scalar) && w.Is(Scalar) && n.tag == w.tag && n.value == w.value
  }

  /** The steps lead to an explicit weight. */
  predicate LeadsToWeight(t: Tree, steps: seq<Step>)
  {
    && Walk(t, steps).Is(Scalar) && Walk(t, steps).tag == "!!int"
    && (steps != [] ==> steps[|steps| - 1] == Key("weight"))
  }

  lemma FirstStep(t: Tree, steps: seq<Step>)
    requires steps != [] && LeadsToWeight(t, steps)
    ensures match steps[0]
      case Key(k) => t.Is(Mapping) && HasKey(t.content, k) && LeadsToWeight(ValueOf(t.content, k), steps[1..])
      case Index(i) => t.Is(Sequence) && i < |t.content| && |steps| > 1 && LeadsToWeight(t.content[i], steps[1..])
  {
  }

  // ---------------------------------------------------------------- inside a value that is new

  /** No value under a key on the way, the weight itself apart, is all zeros. */
  predicate NoZeroOnTheWay(t: Tree, steps: seq<Step>)
    requires LeadsToWeight(t, steps)
    decreases |steps|
  {
    steps == [] ||
    (FirstStep(t, steps);
     match steps[0]
     case Key(k) =>
       var u := ValueOf(t.content, k);
       |steps| == 1 || (!IsZero(u) && NoZeroOnTheWay(u, steps[1..]))
     case Index(i) => NoZeroOnTheWay(t.content[i], steps[1..]))
  }

  lemma SourceValue(t: Tree, key: string)
    requires t.Is(Mapping) && SourceOk(t) && HasKey(t.content, key)
    ensures SourceOk(ValueOf(t.content, key)) && ValueOf(t.content, key).Node?
  {
    hide SourceOk, KeyIndex, KeysOk;
    KeyIndexEven(t.content, key);
    SourcePair(t, KeyIndex(t.content, key));
  }

  predicate Dropped(path: Path, key: string, value: Tree)
  {
    IsKnownDefault(path + [key], value) || IsEmptyCollection(Prune(path + [key], value))
  }

  lemma PrunedKey(path: Path, t: Tree, key: string)
    requires t.Is(Mapping) && SourceOk(t) && HasKey(t.content, key)
    ensures var m, u := Prune(path, t), ValueOf(t.content, key);
      && m.Is(Mapping) && (HasKey(m.content, key) <==> !Dropped(path, key, u))
      && (HasKey(m.content, key) ==> ValueOf(m.content, key) == Prune(path + [key], u))
  {
    hide PrunePairs, Prune, SourceOk, KeyIndex, IsKnownDefault, IsEmptyCollection;
    KeyIndexEven(t.content, key);
    PruneMeans(path, t);
    PrunedLookup(path, t, 0, KeyIndex(t.content, key));
  }

  /** A weight is not dropped; what holds one is if it is all zeros, or if nothing is left of it. */
  lemma DroppedOnTheWay(path: Path, key: string, u: Tree, rest: seq<Step>)
    requires LeadsToWeight(u, rest) && (rest == [] ==> key == "weight")
    ensures rest == [] ==> !Dropped(path, key, u) && Prune(path + [key], u) == u
    ensures rest != [] ==> (IsKnownDefault(path + [key], u) <==> IsZero(u))
    ensures rest != [] && IsEmptyCollection(Prune(path + [key], u)) ==> Walk(Prune(path + [key], u), rest).Null?
  {
    hide IsZero, Dotted, KeyIndex, PrunePairs, PruneElements;
    PruneMeans(path + [key], u);
    if rest != [] {
      FirstStep(u, rest);
      NoKeyInNone(if rest[0].Key? then rest[0].name else "");
    }
  }

  /** What pruning leaves of a weight: it is where it was, exactly if no value on the way to it is all zeros. */
  lemma {:induction false} PrunedWalk(path: Path, t: Tree, steps: seq<Step>)
    requires SourceOk(t) && LeadsToWeight(t, steps)
    ensures Says(Walk(Prune(path, t), steps), Walk(t, steps)) <==> NoZeroOnTheWay(t, steps)
    decreases |steps|
  {
    hide Prune, SourceOk, KeyIndex, PrunePairs, LeadsToWeight, IsZero, IsKnownDefault, IsEmptyCollection;
    PruneMeans(path, t);
    if steps == [] {
      WeightIsScalar(t);
    } else {
      FirstStep(t, steps);
      match steps[0]
      case Index(i) =>
        SourceElement(t, i);
        PrunedWalk(path, t.content[i], steps[1..]);
      case Key(k) =>
        PrunedKey(path, t, k);
        SourceValue(t, k);
        LastStep(t, steps);
        PrunedWalk(path + [k], ValueOf(t.content, k), steps[1..]);
        DroppedOnTheWay(path, k, ValueOf(t.content, k), steps[1..]);
    }
  }

  lemma WeightIsScalar(t: Tree)
    requires LeadsToWeight(t, [])
    ensures t.Is(Scalar)
  {
  }

  lemma LastStep(t: Tree, steps: seq<Step>)
    requires steps != [] && LeadsToWeight(t, steps)
    ensures |steps| == 1 ==> steps[0] == Key("weight")
  {
  }

  // ---------------------------------------------------------------- the whole merge

  /** The original element that element `i` of the source is merged into, or `Null`. */
  function Original(dst: Tree, src: Tree, i: nat): Tree
    requires dst.Node? && src.Node? && i < |src.content|
  {
    var ds := Reordered(AsSequence(dst).content, src.content);
    if i < |ds| then ds[i] else Null
  }

  predicate IsBlankKey(step: Step)
  {
    step.Key? && IsBlank(step.name)
  }

  /** The weight of the source is found in the merge. Down to the first key on its way that the file does not
      have, or the first element that matches nothing in the file, nothing is lost but blank keys of elements;
      an element is then copied as it is, and a new key's value is written unless it comes down to zeros, without
      those values in it that are all zeros. */
  predicate Survives(path: Path, dst: Tree, src: Tree, steps: seq<Step>)
    requires LeadsToWeight(src, steps)
    decreases |steps|
  {
    dst.Node? &&
    (steps == [] ||
     (FirstStep(src, steps);
      match steps[0]
      case Key(k) =>
        var child, u := path + [k], ValueOf(src.content, k);
        var d := if dst.kind == Mapping then dst else CopyShallow(dst, src);
        if HasKey(d.content, k) then Survives(child, ValueOf(d.content, k), u, steps[1..])
        else |steps| == 1 || (!IsZero(Prune(child, u)) && NoZeroOnTheWay(u, steps[1..]))
      case Index(i) =>
        var o := Original(dst, src, i);
        o.Null? || (!IsBlankKey(steps[1]) && Survives(path, o, src.content[i], steps[1..]))))
  }

  /** Exactly when an explicit weight of a configuration is still there after the merge, whatever the file holds. */
  lemma {:induction false} WeightSurvives(path: Path, dst: Tree, src: Tree, steps: seq<Step>)
    requires FileOk(dst) && SourceOk(src) && LeadsToWeight(src, steps)
    ensures Says(Walk(MergeNode(path, dst, src), steps), Walk(src, steps)) <==> Survives(path, dst, src, steps)
    decreases |steps|, 1
  {
    hide MergeNode, SourceOk, FileOk, KeyIndex, LeadsToWeight, IsZero, Prune, IsKnownDefault, Reordered, IsBlank;
    AreNodes(dst, src);
    if steps == [] {
      WeightIsScalar(src);
      MergeNodeMeans(path, dst, src);
    } else {
      FirstStep(src, steps);
      match steps[0]
      case Key(k) => WeightUnderKey(path, dst, src, steps, k);
      case Index(i) => WeightInElement(path, dst, src, steps, i);
    }
  }

  lemma WeightUnderKey(path: Path, dst: Tree, src: Tree, steps: seq<Step>, k: string)
    requires FileOk(dst) && SourceOk(src) && steps != [] && LeadsToWeight(src, steps) && steps[0] == Key(k)
    ensures Says(Walk(MergeNode(path, dst, src), steps), Walk(src, steps)) <==> Survives(path, dst, src, steps)
    decreases |steps|, 0
  {
    hide MergeNode, SourceOk, FileOk, PairsOk, KeyIndex, LeadsToWeight, IsZero, Prune, IsKnownDefault, CopyShallow, NoZeroOnTheWay;
    AreNodes(dst, src);
    FirstStep(src, steps);
    LastStep(src, steps);
    var child, u, rest := path + [k], ValueOf(src.content, k), steps[1..];
    var d := if dst.kind == Mapping then dst else CopyShallow(dst, src);
    CopiedIsFile(dst, src);
    MergedAsMapping(path, dst, src);
    MergedLookup(path, d, src, k);
    SourceValue(src, k);
    FileIsPairs(d);
    if HasKey(d.content, k) {
      ValueIsFile(d.content, k);
      WeightSurvives(child, ValueOf(d.content, k), u, rest);
    } else {
      PrunedWalk(child, u, rest);
      NewOnTheWay(child, u, rest, k);
    }
  }

  lemma CopiedIsFile(dst: Tree, src: Tree)
    requires FileOk(dst) && src.Is(Mapping) && SourceOk(src)
    ensures dst.kind != Mapping ==> FileOk(CopyShallow(dst, src)) && CopyShallow(dst, src).Is(Mapping)
  {
    hide SourceOk;
    SourceIsFile(src);
  }

  lemma MergedAsMapping(path: Path, dst: Tree, src: Tree)
    requires dst.Node? && src.Is(Mapping)
    ensures MergeNode(path, dst, src) == MergeNode(path, if dst.kind == Mapping then dst else CopyShallow(dst, src), src)
  {
    hide MergeMapping;
    MergeNodeMeans(path, dst, src);
    MergeNodeMeans(path, CopyShallow(dst, src), src);
  }

  /** The value of a new key is tested once it is pruned. */
  lemma NewOnTheWay(child: Path, u: Tree, rest: seq<Step>, key: string)
    requires LeadsToWeight(u, rest) && child != [] && child[|child| - 1] == key && (rest == [] ==> key == "weight")
    ensures rest == [] ==> !IsKnownDefault(child, Prune(child, u)) && NoZeroOnTheWay(u, rest)
    ensures rest != [] ==> (IsKnownDefault(child, Prune(child, u)) <==> IsZero(Prune(child, u)))
  {
    hide IsZero, Dotted, KeyIndex, PrunePairs, PruneElements;
    PruneMeans(child, u);
    if rest != [] { FirstStep(u, rest); }
  }

  lemma WeightInElement(path: Path, dst: Tree, src: Tree, steps: seq<Step>, i: nat)
    requires FileOk(dst) && SourceOk(src) && steps != [] && LeadsToWeight(src, steps) && steps[0] == Index(i)
    ensures Says(Walk(MergeNode(path, dst, src), steps), Walk(src, steps)) <==> Survives(path, dst, src, steps)
    decreases |steps|, 0
  {
    hide MergeNode, MergeElement, MergeElements, SourceOk, FileOk, KeyIndex, LeadsToWeight, Reordered, IsBlank;
    AreNodes(dst, src);
    FirstStep(src, steps);
    SourceElement(src, i);
    AsSequenceIsFile(dst);
    ReorderedIsFile(AsSequence(dst), src.content);
    MergeSequenceMeans(path, dst, src);
    MergedElement(path, Reordered(AsSequence(dst).content, src.content), src, i);
    var o, e, rest := Original(dst, src, i), src.content[i], steps[1..];
    ElementWalk(path, o, e, rest);
    if o.Node? { WeightSurvives(path, o, e, rest); }
  }

  /** An element is copied, or merged and rid of stale keys, of which a blank key always is one. */
  lemma ElementWalk(path: Path, o: Tree, e: Tree, rest: seq<Step>)
    requires (o.Null? || FileOk(o)) && SourceOk(e) && LeadsToWeight(e, rest) && rest != []
    ensures var m := MergeElement(path, o, e);
      if o.Null? then m == e
      else if IsBlankKey(rest[0]) then Walk(m, rest).Null?
      else Walk(m, rest) == Walk(MergeNode(path, o, e), rest)
  {
    hide MergeNode, SourceOk, FileOk, PairsOk, KeyIndex, LeadsToWeight, KeptPairs, IsKept, Trim;
    FirstStep(e, rest);
    if o.Node? && rest[0].Key? {
      var k := rest[0].name;
      CopiedIsFile(o, e);
      MergedAsMapping(path, o, e);
      MergedLookup(path, if o.kind == Mapping then o else CopyShallow(o, e), e, k);
      var m := MergeNode(path, o, e).content;
      if IsBlank(k) {
        BlankIsDropped(m, e.content, k);
      } else {
        KeptIfFound(e, k);
        KeptLookup(m, e.content, k);
      }
    }
  }

  lemma KeptIfFound(e: Tree, key: string)
    requires e.Is(Mapping) && HasKey(e.content, key) && !IsBlank(key)
    ensures IsKept(e.content, key)
  {
    hide KeyIndex, Trim;
    KeyIndexEven(e.content, key);
  }

  /** A weight in the value of a key that is new to the file, at any depth: it is written exactly if it is the
      value itself, or if the value does not come down to zeros and nor does any value under a key on the way. */
  lemma WeightOfNewKey(path: Path, dst: Tree, src: Tree, k: string, rest: seq<Step>)
    requires FileOk(dst) && dst.Is(Mapping) && !HasKey(dst.content, k)
    requires SourceOk(src) && src.Is(Mapping) && HasKey(src.content, k) && LeadsToWeight(src, [Key(k)] + rest)
    ensures LeadsToWeight(ValueOf(src.content, k), rest)
    ensures var u := ValueOf(src.content, k);
      Says(Walk(MergeNode(path, dst, src), [Key(k)] + rest), Walk(src, [Key(k)] + rest))
      <==> rest == [] || (!IsZero(Prune(path + [k], u)) && NoZeroOnTheWay(u, rest))
  {
    hide MergeNode, SourceOk, FileOk, KeyIndex, LeadsToWeight, IsZero, Prune, NoZeroOnTheWay;
    FirstStep(src, [Key(k)] + rest);
    assert ([Key(k)] + rest)[1..] == rest;
    WeightSurvives(path, dst, src, [Key(k)] + rest);
  }

  /** Nothing on the way comes down to zeros, and no key of an element on the way is blank. */
  predicate Steady(path: Path, src: Tree, steps: seq<Step>)
    requires LeadsToWeight(src, steps)
    decreases |steps|
  {
    steps == [] ||
    (FirstStep(src, steps);
     match steps[0]
     case Key(k) =>
       var child, u := path + [k], ValueOf(src.content, k);
       (|steps| == 1 || !IsZero(Prune(child, u))) && Steady(child, u, steps[1..])
     case Index(i) => !IsBlankKey(steps[1]) && Steady(path, src.content[i], steps[1..]))
  }

  lemma {:induction false} SteadyHasNoZero(path: Path, src: Tree, steps: seq<Step>)
    requires LeadsToWeight(src, steps) && Steady(path, src, steps)
    ensures NoZeroOnTheWay(src, steps)
    decreases |steps|
  {
    hide KeyIndex, LeadsToWeight, IsZero, Prune;
    if steps != [] {
      FirstStep(src, steps);
      match steps[0]
      case Key(k) =>
        var u := ValueOf(src.content, k);
        if IsZero(u) { ZeroPrunes(path + [k], u); }
        SteadyHasNoZero(path + [k], u, steps[1..]);
      case Index(i) => SteadyHasNoZero(path, src.content[i], steps[1..]);
    }
  }

  /** Such a weight is kept whatever the file holds. */
  lemma {:induction false} SteadyWeightSurvives(path: Path, dst: Tree, src: Tree, steps: seq<Step>)
    requires FileOk(dst) && SourceOk(src) && LeadsToWeight(src, steps) && Steady(path, src, steps)
    ensures Survives(path, dst, src, steps)
    decreases |steps|
  {
    hide SourceOk, FileOk, KeyIndex, LeadsToWeight, IsZero, Prune, CopyShallow, Reordered, NoZeroOnTheWay;
    AreNodes(dst, src);
    if steps != [] {
      FirstStep(src, steps);
      match steps[0]
      case Key(k) =>
        var d := if dst.kind == Mapping then dst else CopyShallow(dst, src);
        CopiedIsFile(dst, src);
        FileIsPairs(d);
        SourceValue(src, k);
        SteadyHasNoZero(path + [k], ValueOf(src.content, k), steps[1..]);
        if HasKey(d.content, k) {
          ValueIsFile(d.content, k);
          SteadyWeightSurvives(path + [k], ValueOf(d.content, k), ValueOf(src.content, k), steps[1..]);
        }
      case Index(i) =>
        SourceElement(src, i);
        AsSequenceIsFile(dst);
        ReorderedIsFile(AsSequence(dst), src.content);
        if Original(dst, src, i).Node? {
          SteadyWeightSurvives(path, Original(dst, src, i), src.content[i], steps[1..]);
        }
    }
  }

  // ---------------------------------------------------------------- a weight that is lost

  function Str(value: string): Tree
  {
    Node(Scalar, "!!str", value, [], 0)
  }

  function Int(value: string): Tree
  {
    Node(Scalar, "!!int", value, [], 0)
  }

  /** `{api-key: "", weight: 0}`. */
  function KeylessEntry(): Tree
  {
    Node(Mapping, "!!map", "", [Str("api-key"), Str(""), Str("weight"), Int("0")], 0)
  }

  /** `[{name: n, base-url: u, api-key-entries: [{api-key: "", weight: 0}], models: []}]`. */
  function Provider(name: string, url: string): Tree
  {
    var entries := Node(Sequence, "!!seq", "", [KeylessEntry()], 0);
    var models := Node(Sequence, "!!seq", "", [], 0);
    Node(Sequence, "!!seq", "",
         [Node(Mapping, "!!map", "", [Str("name"), Str(name), Str("base-url"), Str(url),
                                      Str("api-key-entries"), entries, Str("models"), models], 0)], 0)
  }

  const TO_WEIGHT: seq<Step> := [Index(0), Key("api-key-entries"), Index(0), Key("weight")]

  lemma ProviderHasWeight(name: string, url: string)
    ensures LeadsToWeight(Provider(name, url), TO_WEIGHT) && !NoZeroOnTheWay(Provider(name, url), TO_WEIGHT)
    ensures Walk(Provider(name, url), TO_WEIGHT) == Int("0")
  {
    hide IsZero, KeyIndex;
    var one := Provider(name, url).content[0];
    OnlyKeys(name, url);
    EntriesHoldWeight(one.content[5], TO_WEIGHT[2..]);
    EntriesAreZero(one.content[5]);
    assert TO_WEIGHT[1..][1..] == TO_WEIGHT[2..];
    assert Walk(one, TO_WEIGHT[1..]) == Int("0");
    assert LeadsToWeight(one, TO_WEIGHT[1..]) && !NoZeroOnTheWay(one, TO_WEIGHT[1..]);
  }

  lemma EntriesHoldWeight(entries: Tree, steps: seq<Step>)
    requires entries.Is(Sequence) && entries.content == [KeylessEntry()] && steps == [Index(0), Key("weight")]
    ensures Walk(entries, steps) == Int("0")
  {
    hide IsZero, KeyIndex;
    OnlyKeys("", "");
    assert steps[1..] == [Key("weight")];
    assert Walk(KeylessEntry(), steps[1..]) == Int("0");
  }

  lemma OnlyKeys(name: string, url: string)
    ensures var one := Provider(name, url).content[0].content;
      HasKey(one, "api-key-entries") && ValueOf(one, "api-key-entries") == one[5]
    ensures HasKey(KeylessEntry().content, "weight") && ValueOf(KeylessEntry().content, "weight") == Int("0")
  {
    var one, entry := Provider(name, url).content[0].content, KeylessEntry().content;
    KeyIndexIs(one, "api-key-entries", 4);
    KeyIndexIs(entry, "weight", 2);
  }

  lemma EntriesAreZero(entries: Tree)
    requires entries.Is(Sequence) && entries.content == [KeylessEntry()]
    ensures IsZero(entries)
  {
    assert IsZero(Str("")) && IsZero(Int("0"));
    assert IsZero(KeylessEntry());
  }

  lemma NotZeroUnder(m: Tree, key: string)
    requires m.Is(Mapping) && HasKey(m.content, key) && !IsZero(ValueOf(m.content, key))
    ensures !IsZero(m)
  {
    hide KeyIndex;
    KeyIndexEven(m.content, key);
  }

  lemma NameIsKept(path: Path, one: Tree, name: string)
    requires one.Is(Mapping) && SourceOk(one) && HasKey(one.content, "name") && ValueOf(one.content, "name") == Str(name)
    requires name != "" && path == ["openai-compatibility"]
    ensures !IsZero(Prune(path, one))
  {
    hide SourceOk, KeyIndex, PrunePairs, Prune;
    PrunedKey(path, one, "name");
    PruneMeans(path + ["name"], Str(name));
    assert (path + ["name"])[1..] == ["name"];
    assert Dotted(path + ["name"]) == "openai-compatibility" + "." + "name";
    assert !IsKnownDefault(path + ["name"], Str(name));
    NotZeroUnder(Prune(path, one), "name");
  }

  lemma ProviderIsWritten(name: string, url: string)
    requires name != "" && SourceOk(Provider(name, url))
    ensures !IsZero(Prune(["openai-compatibility"], Provider(name, url)))
  {
    hide Prune, SourceOk, KeysOk;
    var path, list := ["openai-compatibility"], Provider(name, url);
    var one := list.content[0];
    SourceElement(list, 0);
    KeyIndexIs(one.content, "name", 0);
    NameIsKept(path, one, name);
    PruneMeans(path, list);
    assert Prune(path, list).content[0] == Prune(path, one);
  }

  /** A provider without a key, new to the file: its weight of zero is lost, though the provider is written. */
  lemma ZeroWeightCanBeLost(dst: Tree, src: Tree, name: string, url: string)
    requires FileOk(dst) && dst.Is(Mapping) && !HasKey(dst.content, "openai-compatibility")
    requires SourceOk(src) && src.Is(Mapping) && HasKey(src.content, "openai-compatibility")
    requires ValueOf(src.content, "openai-compatibility") == Provider(name, url) && name != ""
    ensures var steps := [Key("openai-compatibility")] + TO_WEIGHT;
      && Walk(src, steps) == Int("0") && !Says(Walk(MergeNode([], dst, src), steps), Int("0"))
      && MergeNode([], dst, src).Is(Mapping) && HasKey(MergeNode([], dst, src).content, "openai-compatibility")
  {
    hide MergeNode, SourceOk, FileOk, KeyIndex, IsZero, Prune, NoZeroOnTheWay, Provider;
    var key := "openai-compatibility";
    ProviderHasWeight(name, url);
    SourceValue(src, key);
    ProviderIsWritten(name, url);
    assert ([Key(key)] + TO_WEIGHT)[1..] == TO_WEIGHT;
    WeightOfNewKey([], dst, src, key, TO_WEIGHT);
    MergedLookup([], dst, src, key);
    assert [] + [key] == [key];
    NewOnTheWay([key], Provider(name, url), TO_WEIGHT, key);
  }
}
