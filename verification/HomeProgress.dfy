/** What succeeds in Home: reads return the last write, a publish or delete of something unchanged takes effect,
    and a publish that lost its swap goes round again exactly when the local rule would let it through. */
module HomeProgress {
  import opened Wrappers
  import opened ReplayItems
  import opened ReplayNormal
  import opened ReplayLineage
  import opened HomeReplay

  // ---------------------------------------------------------------- the retry

  /** The other half of the refinement: a publisher that lost its swap goes round again exactly if attempts are
      left and what it finds has grown on its branch to a prefix of what it writes. */
  lemma RetryIsDescent(ws: seq<World>, es: seq<Event>, i: nat, id: nat)
    requires Run(ws, es) && i < |ws| && id in ws[i].publishers && ws[i].publishers[id].phase == Reading
    ensures var w, p := ws[i], ws[i].publishers[id];
      Next(w, Reread(id)).publishers[id].phase
      == if p.attempt + 1 < 4 && IsDescendant(EntryOf(w, p.key), p.snapshot, p.chain) then Swapping else Finished(Refused)
  {
    hide NormalizeItems, Known;
    InvAlways(ws, es, i);
    var w, p := ws[i], ws[i].publishers[id];
    if p.key in w.kv {
      assert ValueOk(w, w.kv[p.key]);
      if BranchOf(w.kv[p.key]).Some? { OwnValuesAreAccepted(w.kv[p.key]); }
    }
  }

  /** Nothing but such a re-read refuses a publish. */
  lemma RefusedByReread(ws: seq<World>, es: seq<Event>, i: nat, id: nat)
    requires Run(ws, es) && i < |es| && id in ws[i].publishers && ws[i].publishers[id].Active()
    requires ws[i + 1].publishers[id].phase == Finished(Refused)
    ensures es[i] == Reread(id)
    ensures var p := ws[i].publishers[id]; p.attempt + 1 >= 4 || !IsDescendant(EntryOf(ws[i], p.key), p.snapshot, p.chain)
  {
    hide NormalizeItems, Accepted, Length, Observed;
    assert Enabled(ws[i], es[i]) && ws[i + 1] == Next(ws[i], es[i]);
    if es[i] == Reread(id) { RetryIsDescent(ws, es, i, id); }
  }

  predicate Normal(chain: Chain)
  {
    NormalizeItems(chain) == Some(chain)
  }

  function Value(generation: nat, chain: Chain): Raw
  {
    Marked(generation, Some(1), false, chain)
  }

  /** A publisher that read `read` and writes `chain` on the branch it read from. */
  function Extending(read: Chain, chain: Chain): Publisher
  {
    Publisher("k", Snapshot(read, true, true, Value(0, read), Some(1), 0), chain, 1, Value(0, read), true, 0, Swapping)
  }

  function Contest(read: Chain, shorter: Chain, longer: Chain): seq<Event>
  {
    var snapshot := Extending(read, longer).snapshot;
    [Overwrite("k", read), Observe("k"), Start(0, "k", snapshot, longer), Start(1, "k", snapshot, shorter),
     Swap(1, true), Swap(0, true), Reread(0), Swap(0, true)]
  }

  function Rounds(read: Chain, shorter: Chain, longer: Chain): seq<World>
  {
    var first, second := Extending(read, longer), Extending(read, shorter);
    var written := second.(phase := Finished(Done));
    var again := first.(expected := Value(4, shorter), attempt := 1);
    var known := {first.snapshot};
    [World(map[], 0, {}, map[]),
     World(map["k" := Value(0, read)], 2, {}, map[]),
     World(map["k" := Value(0, read)], 2, known, map[]),
     World(map["k" := Value(0, read)], 3, known, map[0 := first]),
     World(map["k" := Value(0, read)], 4, known, map[0 := first, 1 := second]),
     World(map["k" := Value(4, shorter)], 5, known, map[0 := first, 1 := written]),
     World(map["k" := Value(4, shorter)], 6, known, map[0 := first.(phase := Reading), 1 := written]),
     World(map["k" := Value(4, shorter)], 6, known, map[0 := again, 1 := written]),
     World(map["k" := Value(6, longer)], 7, known, map[0 := again.(phase := Finished(Done)), 1 := written])]
  }

  lemma ReadAndStarted(read: Chain, shorter: Chain, longer: Chain, i: nat)
    requires Normal(read) && Normal(shorter) && Normal(longer) && read <= shorter <= longer && i < 4
    ensures var ws, es := Rounds(read, shorter, longer), Contest(read, shorter, longer);
      Enabled(ws[i], es[i]) && ws[i + 1] == Next(ws[i], es[i])
  {
    hide NormalizeItems, Accepted, Length;
    OwnValuesAreAccepted(Value(0, read));
  }

  lemma Contested(read: Chain, shorter: Chain, longer: Chain, i: nat)
    requires Normal(read) && Normal(shorter) && Normal(longer) && read <= shorter <= longer && 4 <= i < 8
    ensures var ws, es := Rounds(read, shorter, longer), Contest(read, shorter, longer);
      Enabled(ws[i], es[i]) && ws[i + 1] == Next(ws[i], es[i])
  {
    hide NormalizeItems, Accepted, Length;
    OwnValuesAreAccepted(Value(4, shorter));
  }

  /** And a retry can succeed: two publishers extend the same chain, the shorter extension is stored first, and
      the longer one, after losing its swap to it, is stored on its second attempt. */
  lemma RetryCanSucceed(read: Chain, shorter: Chain, longer: Chain)
    requires Normal(read) && Normal(shorter) && Normal(longer) && read <= shorter <= longer
    ensures exists ws: seq<World>, es: seq<Event> ::
      && Run(ws, es) && |es| == 8 && es[4] == Swap(1, true) && es[7] == Swap(0, true)
      && Holding(ws[5], "k", shorter) && Holding(ws[8], "k", longer)
      && 0 in ws[8].publishers && ws[8].publishers[0].phase == Finished(Done) && ws[8].publishers[0].attempt == 1
  {
    hide NormalizeItems, Next, Enabled;
    var ws, es := Rounds(read, shorter, longer), Contest(read, shorter, longer);
    forall i | 0 <= i < |es| ensures Enabled(ws[i], es[i]) && ws[i + 1] == Next(ws[i], es[i]) {
      if i < 4 { ReadAndStarted(read, shorter, longer, i); } else { Contested(read, shorter, longer, i); }
    }
    NormalIsNotEmpty(shorter);
    NormalIsNotEmpty(longer);
    assert Run(ws, es);
  }

  // ---------------------------------------------------------------- reads return the last write

  /** The chain an event leaves under a key, if it writes there. */
  function Written(w: World, e: Event, key: string): Option<Chain>
    requires Enabled(w, e)
  {
    match e
    case Overwrite(k, items) => if k == key then NormalizeItems(items) else None
    case Swap(id, _) => if w.publishers[id].key == key && SwapTakes(w, id) then Some(w.publishers[id].chain) else None
    case Reserve(k, _) => if k == key then Some([]) else None
    case Erase(k) => if k == key then Some([]) else None
    case EraseIf(k, p) => if k == key && key in w.kv && p.found && w.kv[key] == p.revision then Some([])
                          else if k == key && key !in w.kv && !p.found then Some([]) else None
    case _ => None
  }

  predicate Holding(w: World, key: string, chain: Chain)
  {
    && key in w.kv && w.kv[key].Marked? && w.kv[key].branch.Some? && w.kv[key].items == chain
    && (w.kv[key].deleted <==> chain == [])
  }

  lemma WriteHolds(w: World, e: Event, key: string)
    requires Inv(w) && Enabled(w, e) && Written(w, e, key).Some?
    ensures Holding(Next(w, e), key, Written(w, e, key).value)
  {
    hide NormalizeItems, Known;
    if e.Swap? {
      assert PublisherOk(w, w.publishers[e.id]);
      NormalIsNotEmpty(w.publishers[e.id].chain);
    } else if e.Overwrite? {
      NormalizeTwice(e.items);
      NormalIsNotEmpty(NormalizeItems(e.items).value);
    }
  }

  lemma NormalIsNotEmpty(chain: Chain)
    requires Normal(chain)
    ensures chain != []
  {
  }

  lemma OthersHold(w: World, e: Event, key: string)
    requires Enabled(w, e) && Written(w, e, key).None? && e != Expire(key)
    ensures key in Next(w, e).kv <==> key in w.kv
    ensures key in w.kv ==> Next(w, e).kv[key] == w.kv[key]
  {
    hide NormalizeItems;
  }

  lemma {:induction false} StillHolding(ws: seq<World>, es: seq<Event>, i: nat, j: nat, key: string)
    requires Run(ws, es) && i < j < |ws| && Written(ws[i], es[i], key).Some?
    requires forall k :: i < k < j ==> Written(ws[k], es[k], key).None? && es[k] != Expire(key)
    ensures Holding(ws[j], key, Written(ws[i], es[i], key).value)
    decreases j
  {
    hide Written, NormalizeItems, Next;
    if j == i + 1 {
      InvAlways(ws, es, i);
      WriteHolds(ws[i], es[i], key);
    } else {
      StillHolding(ws, es, i, j - 1, key);
      OthersHold(ws[j - 1], es[j - 1], key);
    }
  }

  /** Whoever reads a key gets the chain of the last write to it, a tombstone being no chain at all, and a snapshot
      with which it can be published to. */
  lemma ReadReturnsLastWrite(ws: seq<World>, es: seq<Event>, i: nat, j: nat, key: string)
    requires Run(ws, es) && i < j < |es| && Written(ws[i], es[i], key).Some? && es[j] == Observe(key)
    requires forall k :: i < k < j ==> Written(ws[k], es[k], key).None? && es[k] != Expire(key)
    ensures key in ws[j].kv && Observed(ws[j].kv[key]) in ws[j + 1].snapshots
    ensures var p := Observed(ws[j].kv[key]);
      p.items == Written(ws[i], es[i], key).value && p.loaded && p.found && p.branch.Some? && p.revision == ws[j].kv[key]
  {
    hide NormalizeItems, Written;
    StillHolding(ws, es, i, j, key);
    InvAlways(ws, es, j);
    assert ValueOk(ws[j], ws[j].kv[key]);
    OwnValuesAreAccepted(ws[j].kv[key]);
    assert ws[j + 1] == Next(ws[j], es[j]);
  }

  /** A key that nobody wrote holds what it held at the start, whoever put it there. */
  lemma {:induction false} UntouchedIsThere(ws: seq<World>, es: seq<Event>, j: nat, key: string)
    requires Run(ws, es) && j < |ws| && forall k :: 0 <= k < j ==> Written(ws[k], es[k], key).None? && es[k] != Expire(key)
    ensures key in ws[j].kv <==> key in ws[0].kv
    ensures key in ws[j].kv ==> ws[j].kv[key] == ws[0].kv[key]
  {
    hide Written, Next;
    if j > 0 {
      UntouchedIsThere(ws, es, j - 1, key);
      OthersHold(ws[j - 1], es[j - 1], key);
    }
  }

  predicate AllNormalize(items: Chain)
  {
    forall i :: 0 <= i < |items| ==> NormalizeItem(items[i]).Some?
  }

  lemma {:induction false} KeptAll(items: Chain)
    ensures |Kept(items)| <= |items| && (|Kept(items)| == |items| <==> AllNormalize(items))
  {
    hide NormalizeItem;
    if items != [] {
      var before := items[..|items| - 1];
      KeptAll(before);
      assert AllNormalize(items) <==> AllNormalize(before) && NormalizeItem(items[|items| - 1]).Some?;
    }
  }

  /** What any stored value is read as, also one from an older release or a stranger: nothing of it beyond 24 MiB; its
      bytes and its branch otherwise; and its chain exactly if it decodes, is no tombstone, and every item in it is
      accepted within the bounds. */
  lemma AnyValueIsRead(raw: Raw)
    ensures var p := Observed(raw);
      && p.loaded && p.found && p.epoch == 0
      && (Length(raw) > 25_165_824 ==> p.items == [] && p.branch == None && p.revision == NO_BYTES)
      && (Length(raw) <= 25_165_824 ==>
            && p.revision == raw && p.branch == (if raw.Marked? then raw.branch else None)
            && (p.items != [] <==> Readable(raw) && raw.items != [] && |raw.items| <= 4096 && AllNormalize(raw.items) && TotalSize(Kept(raw.items)) <= 16_777_216)
            && (p.items != [] ==> p.items == Kept(raw.items)))
  {
    hide Kept, TotalSize, NormalizeItems, AllNormalize, Length;
    if Readable(raw) {
      KeptAll(raw.items);
      ChainAccepted(raw.items);
      NothingKept();
    }
  }

  lemma NothingKept()
    ensures Kept([]) == []
  {
  }

  predicate Readable(raw: Raw)
  {
    raw.Unmarked? || (raw.Marked? && !raw.deleted)
  }

  /** A read that finds nothing and fences the key gets a snapshot of its own tombstone. */
  lemma ReservationIsRead(ws: seq<World>, es: seq<Event>, j: nat, key: string)
    requires Run(ws, es) && j < |es| && es[j] == Reserve(key, true)
    ensures key in ws[j + 1].kv && Observed(ws[j + 1].kv[key]) in ws[j + 1].snapshots
    ensures var p := Observed(ws[j + 1].kv[key]); p.items == [] && p.branch.Some? && p.revision == ws[j + 1].kv[key]
  {
    hide NormalizeItems, Length;
    assert Enabled(ws[j], es[j]) && ws[j + 1] == Next(ws[j], es[j]);
    OwnValuesAreAccepted(ws[j + 1].kv[key]);
  }

  // ---------------------------------------------------------------- what is unchanged can be written

  /** A first swap, and a conditional delete, take effect if the value that was observed is still there, and a
      publisher that hears of it is done. */
  lemma UnchangedIsWritten(ws: seq<World>, es: seq<Event>, i: nat, j: nat, key: string)
    requires Run(ws, es) && i <= j < |es| && key in ws[i].kv && Length(ws[i].kv[key]) <= MAX_SERIALIZED_BYTES
    requires key in ws[j].kv && ws[j].kv[key] == ws[i].kv[key]
    ensures es[j].Swap? && ws[j].publishers[es[j].id].attempt == 0 && ws[j].publishers[es[j].id].key == key &&
            ws[j].publishers[es[j].id].snapshot == Observed(ws[i].kv[key]) ==>
      var p := ws[j].publishers[es[j].id];
      && Holding(ws[j + 1], key, p.chain) && ws[j + 1].kv[key].branch == Some(p.branch)
      && ws[j + 1].publishers[es[j].id].phase == Finished(if es[j].reply then Done else Failed)
    ensures es[j].EraseIf? && es[j].key == key && es[j].snapshot == Observed(ws[i].kv[key]) ==> Holding(ws[j + 1], key, [])
  {
    hide NormalizeItems, Known, Length, Accepted;
    InvAlways(ws, es, j);
    var w, e := ws[j], es[j];
    assert Enabled(w, e) && ws[j + 1] == Next(w, e);
    if e.Swap? {
      assert PublisherOk(w, w.publishers[e.id]);
      NormalIsNotEmpty(w.publishers[e.id].chain);
    }
  }
}
