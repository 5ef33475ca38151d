/** Replay items: field-level normalization, the per-conversation bounds, and the size
    of the value stored in Home. */
module ReplayItems {
  import opened Wrappers
  import opened Text

  const MAX_ITEMS: nat := 4096
  const MAX_BYTES: nat := 16 * 1024 * 1024
  const MAX_SERIALIZED_BYTES: nat := 24 * 1024 * 1024
  const MIN_SIGNATURE: nat := 16
  const SKIP_VALIDATOR := "skip_thought_signature_validator"

  /** The members the code reads; any other member name is `Named`. */
  datatype Key =
    | Type | ThoughtSignature | ThoughtSignatureSnake | ContentIndex | PartIndex | TargetKind | TargetHash
    | TargetOccurrence | ContextHash | CallId | Id | Name | Args | FunctionCall | Named(name: string)

  /** A parsed JSON value; `Absent` is a path that does not exist. A number keeps its
      integer part (what `Int()` reads) and its text. */
  datatype Json =
    | Absent
    | Str(text: string)
    | Num(integer: int, shown: string)
    | Obj(members: Item)
    | Other(raw: string, text: string)

  /** The members of a JSON object in document order. */
  datatype Item = Nil | Member(key: Key, value: Json, rest: Item)
  {
    function Get(k: Key): Json
    {
      if Nil? then Absent else if key == k then value else rest.Get(k)
    }

    /** Length as JSON text, member names counted as six bytes and their punctuation. */
    function Size(): nat
    {
      if Nil? then 2 else 10 + ValueSize(value) + rest.Size()
    }
  }

  function ValueSize(v: Json): nat
  {
    match v
    case Absent => 0
    case Str(s) => |s| + 2
    case Num(_, s) => |s|
    case Obj(o) => o.Size()
    case Other(raw, _) => |raw|
  }

  datatype Field = Field(key: Key, value: Json)

  /** The object written by setting the fields one after another, absent ones skipped. */
  function Written(fields: seq<Field>): Item
  {
    if fields == [] then Nil
    else if fields[0].value == Absent then Written(fields[1..])
    else Member(fields[0].key, fields[0].value, Written(fields[1..]))
  }

  /** `gjson.Result.String()`. */
  function AsText(v: Json): string
  {
    match v
    case Absent => ""
    case Str(s) => s
    case Num(_, s) => s
    case Obj(_) => "{}"
    case Other(_, s) => s
  }

  function TrimmedText(item: Item, key: Key): (s: string)
    ensures Trimmed(s)
  {
    Trim(AsText(item.Get(key)))
  }

  /** The first non-empty of two trimmed members. */
  function EitherText(item: Item, first: Key, second: Key): (s: string)
    ensures Trimmed(s)
  {
    var s := TrimmedText(item, first);
    if s == "" then TrimmedText(item, second) else s
  }

  function NonEmpty(s: string): Json
  {
    if s == "" then Absent else Str(s)
  }

  function Index(item: Item, key: Key): Json
  {
    var v := item.Get(key);
    if v.Num? then Num(v.integer, IntText(v.integer)) else Absent
  }

  function Occurrence(item: Item): Json
  {
    var v := Index(item, TargetOccurrence);
    if v.Num? && v.integer >= 0 then v else Absent
  }

  datatype Signature = Signature(
    sig: string, contentIndex: Json, partIndex: Json, targetKind: Json, targetHash: Json,
    occurrence: Json, contextHash: Json)
  {
    function Fields(): seq<Field>
    {
      [Field(Type, Str("thought_signature")), Field(ThoughtSignature, Str(sig)),
       Field(ContentIndex, contentIndex), Field(PartIndex, partIndex), Field(TargetKind, targetKind),
       Field(TargetHash, targetHash), Field(TargetOccurrence, occurrence), Field(ContextHash, contextHash)]
    }
  }

  function Kind(item: Item): Json
  {
    var kind := TrimmedText(item, TargetKind);
    if kind == "text" || kind == "thought" then Str(kind) else Absent
  }

  function SignatureOf(item: Item): Signature
  {
    Signature(EitherText(item, ThoughtSignature, ThoughtSignatureSnake),
              Index(item, ContentIndex), Index(item, PartIndex), Kind(item),
              NonEmpty(TrimmedText(item, TargetHash)), Occurrence(item), NonEmpty(TrimmedText(item, ContextHash)))
  }

  function NormalizeSignature(item: Item): Option<Item>
  {
    var s := SignatureOf(item);
    if s.sig == "" || s.sig == SKIP_VALIDATOR || |s.sig| < MIN_SIGNATURE then None else Some(Written(s.Fields()))
  }

  datatype Call = Call(
    id: string, name: string, args: Json, sig: Json, contentIndex: Json, partIndex: Json,
    occurrence: Json, contextHash: Json)
  {
    function Fields(): seq<Field>
    {
      [Field(Type, Str("function_call_part")), Field(CallId, NonEmpty(id)), Field(Name, Str(name)), Field(Args, args),
       Field(ThoughtSignature, sig), Field(ContentIndex, contentIndex), Field(PartIndex, partIndex),
       Field(TargetOccurrence, occurrence), Field(ContextHash, contextHash)]
    }
  }

  function UsableSignature(item: Item): Json
  {
    var sig := TrimmedText(item, ThoughtSignature);
    if sig == SKIP_VALIDATOR then Absent else NonEmpty(sig)
  }

  /** Call id, name and arguments each fall back to the nested `functionCall` when the
      name or the arguments are missing at the top level. */
  function CallOf(item: Item): (c: Call)
    ensures Trimmed(c.id) && Trimmed(c.name)
  {
    var id := EitherText(item, CallId, Id);
    var name := TrimmedText(item, Name);
    var args := item.Get(Args);
    var nested := item.Get(FunctionCall);
    var inner := if nested.Obj? then nested.members else Nil;
    var fallBack := (name == "" || args == Absent) && nested != Absent;
    Call(if fallBack && id == "" then TrimmedText(inner, Id) else id,
         if fallBack && name == "" then TrimmedText(inner, Name) else name,
         if fallBack && args == Absent then inner.Get(Args) else args,
         UsableSignature(item), Index(item, ContentIndex), Index(item, PartIndex), Occurrence(item),
         NonEmpty(TrimmedText(item, ContextHash)))
  }

  function NormalizeCall(item: Item): Option<Item>
  {
    var c := CallOf(item);
    if c.name == "" || c.args == Absent then None else Some(Written(c.Fields()))
  }

  function NormalizeItem(item: Item): Option<Item>
  {
    var kind := TrimmedText(item, Type);
    if kind == "thought_signature" then NormalizeSignature(item)
    else if kind == "function_call_part" then NormalizeCall(item)
    else None
  }

  type Chain = seq<Item>

  /** The items that normalize, normalized, in order. */
  function Kept(items: Chain): Chain
  {
    if items == [] then []
    else
      var rest := Kept(items[..|items| - 1]);
      match NormalizeItem(items[|items| - 1])
      case Some(n) => rest + [n]
      case None => rest
  }

  function TotalSize(items: Chain): nat
  {
    if items == [] then 0 else TotalSize(items[..|items| - 1]) + items[|items| - 1].Size()
  }

  /** What normalization accepts: a chain within both bounds, of which something is left. */
  function NormalizeItems(items: Chain): Option<Chain>
  {
    var kept := Kept(items);
    if |items| > MAX_ITEMS || TotalSize(kept) > MAX_BYTES || kept == [] then None else Some(kept)
  }

  lemma KeptPrefix(items: Chain, i: nat)
    requires i <= |items|
    ensures TotalSize(Kept(items[..i])) <= TotalSize(Kept(items))
    decreases |items|
  {
    hide NormalizeItem;
    if i == |items| {
      assert items[..i] == items;
    } else {
      var shorter := items[..|items| - 1];
      assert shorter[..i] == items[..i];
      KeptPrefix(shorter, i);
      var rest := Kept(shorter);
      match NormalizeItem(items[|items| - 1])
      case None =>
      case Some(n) => assert (rest + [n])[..|rest|] == rest;
    }
  }

  /** The loop gives up at the first item that takes the running total over the limit;
      it agrees with judging the whole chain at once. */
  method Normalize(items: Chain) returns (result: Option<Chain>)
    ensures result == NormalizeItems(items)
  {
    hide NormalizeItem;
    if |items| > MAX_ITEMS {
      return None;
    }
    var normalized: Chain := [];
    var total := 0;
    for i := 0 to |items|
      invariant normalized == Kept(items[..i])
      invariant total == TotalSize(normalized) <= MAX_BYTES
    {
      assert items[..i + 1][..i] == items[..i];
      var n := NormalizeItem(items[i]);
      if n.Some? {
        assert (normalized + [n.value])[..|normalized|] == normalized;
        total := total + n.value.Size();
        if total > MAX_BYTES {
          KeptPrefix(items, i + 1);
          return None;
        }
        normalized := normalized + [n.value];
      }
    }
    assert items[..|items|] == items;
    return if normalized == [] then None else Some(normalized);
  }

  predicate Distinct(fields: seq<Field>)
  {
    forall i, j :: 0 <= i < j < |fields| ==> fields[i].key != fields[j].key
  }

  /** Reading a written object gives back each field. */
  lemma {:induction false} ReadWritten(fields: seq<Field>, i: nat)
    requires Distinct(fields) && i < |fields|
    ensures Written(fields).Get(fields[i].key) == fields[i].value
  {
    assert fields[1..] == fields[1..];
    if i == 0 {
      if fields[0].value == Absent { NotWritten(fields[1..], fields[0].key); }
    } else {
      ReadWritten(fields[1..], i - 1);
    }
  }

  lemma {:induction false} NotWritten(fields: seq<Field>, k: Key)
    requires forall i :: 0 <= i < |fields| ==> fields[i].key != k
    ensures Written(fields).Get(k) == Absent
  {
    if fields != [] {
      NotWritten(fields[1..], k);
    }
  }

  /** Every member the code reads, as read from an object written from `fields`. */
  ghost predicate Holds(n: Item, fields: seq<Field>)
  {
    forall i :: 0 <= i < |fields| ==> n.Get(fields[i].key) == fields[i].value
  }

  lemma WrittenHolds(fields: seq<Field>)
    requires Distinct(fields)
    ensures Holds(Written(fields), fields)
  {
    forall i | 0 <= i < |fields| ensures Written(fields).Get(fields[i].key) == fields[i].value {
      ReadWritten(fields, i);
    }
  }

  lemma TrimTwice(s: string)
    requires Trimmed(s)
    ensures Trim(s) == s
  {
  }

  lemma IndexTwice(item: Item, n: Item, key: Key)
    requires n.Get(key) == Index(item, key)
    ensures Index(n, key) == Index(item, key)
  {
  }

  lemma OccurrenceTwice(item: Item, n: Item)
    requires n.Get(TargetOccurrence) == Occurrence(item)
    ensures Occurrence(n) == Occurrence(item)
  {
  }

  lemma SignatureStable(s: Signature, item: Item, n: Item)
    requires s == SignatureOf(item) && s.sig != ""
    requires Holds(n, s.Fields())
    ensures n.Get(Type) == Str("thought_signature") && SignatureOf(n) == s
  {
    hide Trim, IntText, Trimmed, Index, Occurrence;
    var f := s.Fields();
    assert n.Get(f[0].key) == f[0].value && n.Get(f[1].key) == f[1].value && n.Get(f[2].key) == f[2].value;
    assert n.Get(f[3].key) == f[3].value && n.Get(f[4].key) == f[4].value && n.Get(f[5].key) == f[5].value;
    assert n.Get(f[6].key) == f[6].value && n.Get(f[7].key) == f[7].value;
    IndexTwice(item, n, ContentIndex);
    IndexTwice(item, n, PartIndex);
    OccurrenceTwice(item, n);
  }

  lemma CallStable(item: Item, n: Item, c: Call)
    requires c == CallOf(item) && c.name != "" && c.args != Absent
    requires n.Get(Id) == Absent && n.Get(CallId) == NonEmpty(c.id)
    requires n.Get(Name) == Str(c.name) && n.Get(Args) == c.args && n.Get(ThoughtSignature) == c.sig
    requires n.Get(ContentIndex) == c.contentIndex && n.Get(PartIndex) == c.partIndex
    requires n.Get(TargetOccurrence) == c.occurrence && n.Get(ContextHash) == c.contextHash
    ensures CallOf(n) == c
  {
    hide Trim, IntText, Trimmed, Index, Occurrence;
    TrimTwice(c.name);
    TrimTwice(c.id);
    assert TrimmedText(n, Name) == c.name;
    assert EitherText(n, CallId, Id) == c.id;
    assert UsableSignature(n) == c.sig;
    IndexTwice(item, n, ContentIndex);
    IndexTwice(item, n, PartIndex);
    OccurrenceTwice(item, n);
    assert NonEmpty(TrimmedText(n, ContextHash)) == c.contextHash;
  }

  lemma CallReads(c: Call, n: Item)
    requires Holds(n, c.Fields())
    ensures n.Get(Type) == Str("function_call_part") && n.Get(CallId) == NonEmpty(c.id)
    ensures n.Get(Name) == Str(c.name) && n.Get(Args) == c.args && n.Get(ThoughtSignature) == c.sig
    ensures n.Get(ContentIndex) == c.contentIndex && n.Get(PartIndex) == c.partIndex
    ensures n.Get(TargetOccurrence) == c.occurrence && n.Get(ContextHash) == c.contextHash
  {
    var f := c.Fields();
    assert n.Get(f[0].key) == f[0].value && n.Get(f[1].key) == f[1].value && n.Get(f[2].key) == f[2].value;
    assert n.Get(f[3].key) == f[3].value && n.Get(f[4].key) == f[4].value && n.Get(f[5].key) == f[5].value;
    assert n.Get(f[6].key) == f[6].value && n.Get(f[7].key) == f[7].value && n.Get(f[8].key) == f[8].value;
  }

  lemma FieldsDistinct(c: Call, s: Signature)
    ensures Distinct(c.Fields()) && Distinct(s.Fields())
    ensures forall i :: 0 <= i < |c.Fields()| ==> c.Fields()[i].key != Id
  {
  }

  lemma CallTwice(item: Item, c: Call, n: Item)
    requires c == CallOf(item) && c.name != "" && c.args != Absent && n == Written(c.Fields())
    ensures n.Get(Type) == Str("function_call_part") && CallOf(n) == c
  {
    FieldsDistinct(c, SignatureOf(item));
    WrittenHolds(c.Fields());
    NotWritten(c.Fields(), Id);
    CallReads(c, n);
    CallStable(item, n, c);
  }

  lemma SignatureTwice(item: Item, s: Signature, n: Item)
    requires s == SignatureOf(item) && s.sig != "" && n == Written(s.Fields())
    ensures n.Get(Type) == Str("thought_signature") && SignatureOf(n) == s
  {
    FieldsDistinct(CallOf(item), s);
    WrittenHolds(s.Fields());
    SignatureStable(s, item, n);
  }

  /** Normalizing a normalized item changes nothing. */
  lemma NormalizeItemTwice(item: Item)
    requires NormalizeItem(item).Some?
    ensures NormalizeItem(NormalizeItem(item).value) == NormalizeItem(item)
  {
    hide SignatureOf, CallOf, Written;
    var n := NormalizeItem(item).value;
    if TrimmedText(item, Type) == "thought_signature" {
      SignatureTwice(item, SignatureOf(item), n);
      assert Trimmed("thought_signature");
    } else {
      CallTwice(item, CallOf(item), n);
      assert Trimmed("function_call_part");
    }
  }

  lemma {:induction false} KeptTwice(items: Chain)
    ensures Kept(Kept(items)) == Kept(items)
    ensures |Kept(items)| <= |items|
  {
    if items != [] {
      var shorter := items[..|items| - 1];
      KeptTwice(shorter);
      match NormalizeItem(items[|items| - 1])
      case None =>
      case Some(n) =>
        NormalizeItemTwice(items[|items| - 1]);
        assert (Kept(shorter) + [n])[..|Kept(shorter)|] == Kept(shorter);
    }
  }

  /** A chain that normalization accepted is accepted again, unchanged: no item is lost,
      rewritten or pushed over a bound. */
  lemma NormalizeTwice(items: Chain)
    requires NormalizeItems(items).Some?
    ensures NormalizeItems(NormalizeItems(items).value) == NormalizeItems(items)
  {
    KeptTwice(items);
  }

  /** Length of `n` bytes in padded base64 (section 4 of RFC 4648). */
  function Base64Length(n: nat): nat
  {
    (n + 2) / 3 * 4
  }

  /** The generation marker: fixed JSON text around the type name (33 bytes) and two
      nonces of 32 hexadecimal digits; a tombstone's also carries `,"deleted":true`. */
  function MarkerLength(deleted: bool): nat
  {
    136 + if deleted then 15 else 0
  }

  /** The quoted base64 items of a JSON array, each followed by a comma or the bracket. */
  function ElementsLength(items: Chain): nat
  {
    if items == [] then 0 else ElementsLength(items[..|items| - 1]) + Base64Length(items[|items| - 1].Size()) + 3
  }

  /** Bytes of the Home value for a chain: an array of the marker and the items. */
  function SerializedLength(deleted: bool, items: Chain): nat
  {
    1 + Base64Length(MarkerLength(deleted)) + 3 + ElementsLength(items)
  }

  lemma {:induction false} ElementsBound(items: Chain)
    ensures 3 * ElementsLength(items) <= 4 * TotalSize(items) + 17 * |items|
  {
    if items != [] {
      ElementsBound(items[..|items| - 1]);
    }
  }

  /** No chain this code writes is ever refused for its size when it is read back. */
  lemma OwnValueFits(items: Chain)
    requires NormalizeItems(items).Some?
    ensures SerializedLength(false, NormalizeItems(items).value) <= MAX_SERIALIZED_BYTES
  {
    KeptTwice(items);
    ElementsBound(Kept(items));
  }
}
