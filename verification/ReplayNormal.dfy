/** What normalization accepts of a replay item and what it keeps of it, told from the members of the item. */
module ReplayNormal {
  import opened Wrappers
  import opened Text
  import opened ReplayItems

  /** A member as trimmed text; an absent one is blank. */
  function Said(item: Item, key: Key): string
  {
    Trim(AsText(item.Get(key)))
  }

  function Or(s: string, t: string): string
  {
    if s != "" then s else t
  }

  function Spoken(s: string): Json
  {
    if s == "" then Absent else Str(s)
  }

  /** Only a number counts, and of it only the integer part. */
  function Whole(v: Json): Json
  {
    match v
    case Num(i, _) => Num(i, IntText(i))
    case _ => Absent
  }

  function WholeNatural(v: Json): Json
  {
    match v
    case Num(i, _) => if i < 0 then Absent else Num(i, IntText(i))
    case _ => Absent
  }

  lemma AsTextMeans(v: Json)
    ensures v.Absent? ==> AsText(v) == ""
    ensures v.Str? ==> AsText(v) == v.text
    ensures v.Num? ==> AsText(v) == v.shown
    ensures v.Other? ==> AsText(v) == v.text
    ensures v.Obj? ==> AsText(v) != ""
  {
  }

  // ---------------------------------------------------------------- signatures

  /** A signature is accepted exactly if it is long enough and not the skip marker; then it reads back as follows,
      and nothing else is in it. */
  lemma SignatureKept(item: Item)
    requires Said(item, Type) == "thought_signature"
    ensures var sig, r := Or(Said(item, ThoughtSignature), Said(item, ThoughtSignatureSnake)), NormalizeItem(item);
      && (r.Some? <==> |sig| >= 16 && sig != "skip_thought_signature_validator")
      && (r.Some? ==>
            var n, kind := r.value, Said(item, TargetKind);
            && n.Get(Type) == Str("thought_signature") && n.Get(ThoughtSignature) == Str(sig)
            && n.Get(ContentIndex) == Whole(item.Get(ContentIndex)) && n.Get(PartIndex) == Whole(item.Get(PartIndex))
            && n.Get(TargetKind) == (if kind == "text" || kind == "thought" then Str(kind) else Absent)
            && n.Get(TargetHash) == Spoken(Said(item, TargetHash))
            && n.Get(TargetOccurrence) == WholeNatural(item.Get(TargetOccurrence))
            && n.Get(ContextHash) == Spoken(Said(item, ContextHash))
            && (forall k :: k !in [Type, ThoughtSignature, ContentIndex, PartIndex, TargetKind, TargetHash, TargetOccurrence, ContextHash]
                  ==> n.Get(k) == Absent))
  {
    hide *;
    SignatureMeans(item);
    SignatureJudged(item);
    if NormalizeItem(item).Some? {
      SignatureWritten(SignatureOf(item), CallOf(item));
    }
  }

  lemma SignatureMeans(item: Item)
    ensures var s, kind := SignatureOf(item), Said(item, TargetKind);
      && s.sig == Or(Said(item, ThoughtSignature), Said(item, ThoughtSignatureSnake))
      && s.contentIndex == Whole(item.Get(ContentIndex)) && s.partIndex == Whole(item.Get(PartIndex))
      && s.targetKind == (if kind == "text" || kind == "thought" then Str(kind) else Absent)
      && s.targetHash == Spoken(Said(item, TargetHash)) && s.occurrence == WholeNatural(item.Get(TargetOccurrence))
      && s.contextHash == Spoken(Said(item, ContextHash))
  {
    hide Trim, IntText, AsText, Item.Get;
  }

  lemma SignatureJudged(item: Item)
    requires Said(item, Type) == "thought_signature"
    ensures var s := SignatureOf(item);
      NormalizeItem(item) == if |s.sig| >= 16 && s.sig != "skip_thought_signature_validator" then Some(Written(s.Fields())) else None
  {
    hide Trim, SignatureOf, Written;
  }

  lemma SignatureWritten(s: Signature, c: Call)
    ensures var n := Written(s.Fields());
      && n.Get(Type) == Str("thought_signature") && n.Get(ThoughtSignature) == Str(s.sig)
      && n.Get(ContentIndex) == s.contentIndex && n.Get(PartIndex) == s.partIndex && n.Get(TargetKind) == s.targetKind
      && n.Get(TargetHash) == s.targetHash && n.Get(TargetOccurrence) == s.occurrence && n.Get(ContextHash) == s.contextHash
      && (forall k :: k !in [Type, ThoughtSignature, ContentIndex, PartIndex, TargetKind, TargetHash, TargetOccurrence, ContextHash]
            ==> n.Get(k) == Absent)
  {
    hide *;
    FieldsDistinct(c, s);
    WrittenHolds(s.Fields());
    SignatureFields(s, Written(s.Fields()));
    KeysOfFields(s, c);
    OnlyFields(s.Fields(), [Type, ThoughtSignature, ContentIndex, PartIndex, TargetKind, TargetHash, TargetOccurrence, ContextHash]);
  }

  lemma SignatureFields(s: Signature, n: Item)
    requires Holds(n, s.Fields())
    ensures n.Get(Type) == Str("thought_signature") && n.Get(ThoughtSignature) == Str(s.sig)
    ensures n.Get(ContentIndex) == s.contentIndex && n.Get(PartIndex) == s.partIndex && n.Get(TargetKind) == s.targetKind
    ensures n.Get(TargetHash) == s.targetHash && n.Get(TargetOccurrence) == s.occurrence && n.Get(ContextHash) == s.contextHash
  {
    var f := s.Fields();
    assert n.Get(f[0].key) == f[0].value && n.Get(f[1].key) == f[1].value && n.Get(f[2].key) == f[2].value;
    assert n.Get(f[3].key) == f[3].value && n.Get(f[4].key) == f[4].value && n.Get(f[5].key) == f[5].value;
    assert n.Get(f[6].key) == f[6].value && n.Get(f[7].key) == f[7].value;
  }

  lemma OnlyFields(fields: seq<Field>, keys: seq<Key>)
    requires forall i :: 0 <= i < |fields| ==> fields[i].key in keys
    ensures forall k :: k !in keys ==> Written(fields).Get(k) == Absent
  {
    forall k | k !in keys ensures Written(fields).Get(k) == Absent {
      NotWritten(fields, k);
    }
  }

  lemma KeysOfFields(s: Signature, c: Call)
    ensures forall i :: 0 <= i < |s.Fields()| ==> s.Fields()[i].key in [Type, ThoughtSignature, ContentIndex, PartIndex, TargetKind, TargetHash, TargetOccurrence, ContextHash]
    ensures forall i :: 0 <= i < |c.Fields()| ==> c.Fields()[i].key in [Type, CallId, Name, Args, ThoughtSignature, ContentIndex, PartIndex, TargetOccurrence, ContextHash]
  {
  }

  // ---------------------------------------------------------------- calls

  /** A member of the nested `functionCall`, if that is an object. */
  function Nested(item: Item, key: Key): Json
  {
    match item.Get(FunctionCall)
    case Obj(members) => members.Get(key)
    case _ => Absent
  }

  function NameSaid(item: Item): string
  {
    Or(Said(item, Name), Trim(AsText(Nested(item, Name))))
  }

  function ArgsGiven(item: Item): Json
  {
    if item.Get(Args) != Absent then item.Get(Args) else Nested(item, Args)
  }

  /** The nested id is only looked at when the name or the arguments are missing at the top level. */
  function IdSaid(item: Item): string
  {
    var id := Or(Said(item, CallId), Said(item, Id));
    if Said(item, Name) == "" || item.Get(Args) == Absent then Or(id, Trim(AsText(Nested(item, Id)))) else id
  }

  /** A call is accepted exactly if it has a name that is not blank and arguments, each at the top level or nested; then
      it reads back as follows, and nothing else is in it. */
  lemma CallKept(item: Item)
    requires Said(item, Type) == "function_call_part"
    ensures var r := NormalizeItem(item);
      && (r.Some? <==> NameSaid(item) != "" && ArgsGiven(item) != Absent)
      && (r.Some? ==>
            var n, sig := r.value, Said(item, ThoughtSignature);
            && n.Get(Type) == Str("function_call_part") && n.Get(Name) == Str(NameSaid(item)) && n.Get(Args) == ArgsGiven(item)
            && n.Get(CallId) == Spoken(IdSaid(item))
            && n.Get(ThoughtSignature) == (if sig == "skip_thought_signature_validator" then Absent else Spoken(sig))
            && n.Get(ContentIndex) == Whole(item.Get(ContentIndex)) && n.Get(PartIndex) == Whole(item.Get(PartIndex))
            && n.Get(TargetOccurrence) == WholeNatural(item.Get(TargetOccurrence))
            && n.Get(ContextHash) == Spoken(Said(item, ContextHash))
            && (forall k :: k !in [Type, CallId, Name, Args, ThoughtSignature, ContentIndex, PartIndex, TargetOccurrence, ContextHash]
                  ==> n.Get(k) == Absent))
  {
    hide *;
    CallMeans(item);
    CallJudged(item);
    if NormalizeItem(item).Some? {
      CallWritten(CallOf(item), SignatureOf(item));
    }
  }

  lemma CallJudged(item: Item)
    requires Said(item, Type) == "function_call_part"
    ensures var c := CallOf(item); NormalizeItem(item) == if c.name != "" && c.args != Absent then Some(Written(c.Fields())) else None
  {
    hide Trim, CallOf, Written;
  }

  lemma CallWritten(c: Call, s: Signature)
    ensures var n := Written(c.Fields());
      && n.Get(Type) == Str("function_call_part") && n.Get(CallId) == Spoken(c.id)
      && n.Get(Name) == Str(c.name) && n.Get(Args) == c.args && n.Get(ThoughtSignature) == c.sig
      && n.Get(ContentIndex) == c.contentIndex && n.Get(PartIndex) == c.partIndex
      && n.Get(TargetOccurrence) == c.occurrence && n.Get(ContextHash) == c.contextHash
      && (forall k :: k !in [Type, CallId, Name, Args, ThoughtSignature, ContentIndex, PartIndex, TargetOccurrence, ContextHash]
            ==> n.Get(k) == Absent)
  {
    hide *;
    FieldsDistinct(c, s);
    WrittenHolds(c.Fields());
    CallReads(c, Written(c.Fields()));
    SpokenIsNonEmpty(c.id);
    KeysOfFields(s, c);
    OnlyFields(c.Fields(), [Type, CallId, Name, Args, ThoughtSignature, ContentIndex, PartIndex, TargetOccurrence, ContextHash]);
  }

  lemma SpokenIsNonEmpty(s: string)
    ensures NonEmpty(s) == Spoken(s)
  {
  }

  lemma CallMeans(item: Item)
    ensures var c, sig := CallOf(item), Said(item, ThoughtSignature);
      && c.name == NameSaid(item) && c.args == ArgsGiven(item) && c.id == IdSaid(item)
      && c.sig == (if sig == "skip_thought_signature_validator" then Absent else Spoken(sig))
      && c.contentIndex == Whole(item.Get(ContentIndex)) && c.partIndex == Whole(item.Get(PartIndex))
      && c.occurrence == WholeNatural(item.Get(TargetOccurrence)) && c.contextHash == Spoken(Said(item, ContextHash))
  {
    hide *;
    CallNamed(item);
    CallPlaced(item);
  }

  lemma CallPlaced(item: Item)
    ensures var c, sig := CallOf(item), Said(item, ThoughtSignature);
      && c.sig == (if sig == "skip_thought_signature_validator" then Absent else Spoken(sig))
      && c.contentIndex == Whole(item.Get(ContentIndex)) && c.partIndex == Whole(item.Get(PartIndex))
      && c.occurrence == WholeNatural(item.Get(TargetOccurrence)) && c.contextHash == Spoken(Said(item, ContextHash))
  {
    hide Trim, IntText, AsText, Item.Get;
  }

  lemma CallNamed(item: Item)
    ensures CallOf(item).name == NameSaid(item) && CallOf(item).args == ArgsGiven(item) && CallOf(item).id == IdSaid(item)
  {
    hide Trim, IntText, AsText, Item.Get, UsableSignature, Index, Occurrence, NonEmpty;
    NothingSaid();
  }

  /** A nested member that is not there says nothing. */
  lemma NothingSaid()
    ensures AsText(Absent) == "" && Trim("") == "" && forall k :: Nil.Get(k) == Absent
  {
  }

  /** Nothing else is accepted. */
  lemma OthersDropped(item: Item)
    requires Said(item, Type) != "thought_signature" && Said(item, Type) != "function_call_part"
    ensures NormalizeItem(item) == None
  {
  }

  // ---------------------------------------------------------------- chains

  /** Each item is judged alone and none that is accepted is left out: what is kept of one item, and of two chains
      one behind the other. */
  lemma {:induction false} KeptInOrder(a: Chain, b: Chain, item: Item)
    ensures Kept([item]) == if NormalizeItem(item).Some? then [NormalizeItem(item).value] else []
    ensures Kept(a + b) == Kept(a) + Kept(b)
    decreases |b|
  {
    hide NormalizeItem;
    assert [item][..0] == [];
    if b == [] {
      assert a + b == a;
    } else {
      assert (a + b)[..|a + b| - 1] == a + b[..|b| - 1] && (a + b)[|a + b| - 1] == b[|b| - 1];
      KeptInOrder(a, b[..|b| - 1], item);
    }
  }

  lemma {:induction false} SizesAdd(a: Chain, b: Chain)
    ensures TotalSize(a + b) == TotalSize(a) + TotalSize(b)
    decreases |b|
  {
    if b == [] {
      assert a + b == a;
    } else {
      assert (a + b)[..|a + b| - 1] == a + b[..|b| - 1] && (a + b)[|a + b| - 1] == b[|b| - 1];
      SizesAdd(a, b[..|b| - 1]);
    }
  }

  /** A chain is accepted exactly if it is within both bounds and something of it is kept, and as just that. */
  lemma ChainAccepted(items: Chain)
    ensures NormalizeItems(items).Some? <==> |items| <= 4096 && TotalSize(Kept(items)) <= 16_777_216 && Kept(items) != []
    ensures NormalizeItems(items).Some? ==> NormalizeItems(items).value == Kept(items)
  {
    hide Kept, TotalSize;
  }
}
