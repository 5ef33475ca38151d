/** What requests get from the local register, told from the events of a run and their times alone. */
module ReplayTimes {
  import opened Wrappers
  import opened ReplayItems
  import opened ReplayLineage
  import opened ReplayRegister
  import opened ReplayRuns

  /** One hour, in nanoseconds. */
  const HOUR: int := 60 * 60 * 1_000_000_000

  /** What the events say about a key: nothing is there, or a chain that was written, or read, last at `time`. */
  datatype Memory = Nothing | Chained(chain: Chain, time: int)

  predicate IsFresh(m: Memory, now: int)
  {
    m.Chained? && now - m.time <= HOUR
  }

  /** The chain an event writes under a key; deleting writes the empty one. */
  function Wrote(e: Event, key: string): Option<Memory>
  {
    match e
    case Cached(k, items, now, ok) =>
      if k == key && ok && NormalizeItems(items).Some? then Some(Chained(NormalizeItems(items).value, now)) else None
    case Published(k, _, items, now, outcome) =>
      if k == key && outcome == Done && NormalizeItems(items).Some? then Some(Chained(NormalizeItems(items).value, now)) else None
    case Deleted(k, now) => if k == key != "" then Some(Chained([], now)) else None
    case DeletedIf(k, _, now, outcome) => if k == key && outcome == Done then Some(Chained([], now)) else None
    case _ => None
  }

  /** What is known after one more event. A read of what is fresh renews it, any other read finds nothing and leaves
      the empty chain; a purge forgets what is not fresh, a clear everything. `evicted` is the one thing that
      neither the events nor their times tell. */
  function Recalled(m: Memory, e: Event, key: string, evicted: bool): Memory
  {
    if Wrote(e, key).Some? then if evicted then Nothing else Wrote(e, key).value
    else match e
      case Got(k, now, _) =>
        if k == key != "" then Chained(if IsFresh(m, now) then m.chain else [], now)
        else if evicted then Nothing else m
      case AllCleared => Nothing
      case PurgedAt(now) => if IsFresh(m, now) then m else Nothing
      case _ => if evicted then Nothing else m
  }

  /** Reads, writes of a key that was there, purges and clears evict nothing. */
  predicate Evicts(w: World, w': World, e: Event, key: string)
  {
    !e.AllCleared? && !e.PurgedAt? && key !in w'.store.entries && (key in w.store.entries || Wrote(e, key).Some?)
  }

  function Told(ws: seq<World>, es: seq<Event>, key: string, n: nat): Memory
    requires n <= |es| < |ws|
  {
    if n == 0 then Nothing
    else Recalled(Told(ws, es, key, n - 1), es[n - 1], key, Evicts(ws[n - 1], ws[n], es[n - 1], key))
  }

  /** The store holds just that. */
  predicate Agrees(s: Store, key: string, m: Memory)
  {
    match m
    case Nothing => key !in s.entries
    case Chained(chain, time) => key in s.entries && s.entries[key].items == chain && s.entries[key].timestamp == time
  }

  /** A write, and perhaps an eviction after it: every entry that is left is the new one or was there. */
  lemma SettledEntries(m: Store, s': Store, k: string)
    requires Settles(m, s') && k in s'.entries
    ensures k in m.entries && s'.entries[k] == m.entries[k]
  {
  }

  lemma RecallRead(w: World, w': World, e: Event, key: string, m: Memory)
    requires Inv(w) && Next(w, w', e) && e.Got? && Agrees(w.store, key, m)
    ensures Agrees(w'.store, key, Recalled(m, e, key, Evicts(w, w', e, key)))
    ensures e.key == key != "" ==>
      (var found := if IsFresh(m, e.now) then m.chain else [];
       && key in w'.store.entries
       && e.snapshot == Snapshot(found, true, true, w'.store.entries[key].revision, w'.store.entries[key].branch, w'.store.epoch))
  {
    var s, s' := w.store, w'.store;
    if e.key == "" {
    } else if e.key == key {
      if key in s.entries && !Expired(s.entries[key], e.now) {
        assert EntryOk(s, s.entries[key]);
      } else if key in s.entries {
        ReservedIsEmpty(Forgotten(s, key), s', key, e.now, e.snapshot);
      } else {
        ReservedIsEmpty(s, s', key, e.now, e.snapshot);
      }
    } else if key in s'.entries {
      if e.key !in s.entries {
        ReserveLeaves(s, s', e.key, e.now, e.snapshot, key);
      } else if Expired(s.entries[e.key], e.now) {
        ReserveLeaves(Forgotten(s, e.key), s', e.key, e.now, e.snapshot, key);
      }
    }
  }

  lemma ReservedIsEmpty(s: Store, s': Store, key: string, now: int, snapshot: LocalSnapshot)
    requires Reserves(s, s', key, now, snapshot)
    ensures key in s'.entries && s'.entries[key].items == [] && s'.entries[key].timestamp == now && s'.entries[key].deleted
    ensures snapshot == Snapshot([], true, true, s'.entries[key].revision, s'.entries[key].branch, s'.epoch)
  {
  }

  /** A write of `chain` under `key`, seen from another key and from its own. */
  lemma RecallWrite(w: World, w': World, e: Event, key: string, m: Memory, mid: Store, written: string, chain: Chain, now: int)
    requires Agrees(w.store, key, m) && Settles(mid, w'.store)
    requires written in mid.entries && mid.entries == w.store.entries[written := mid.entries[written]]
    requires mid.entries[written].items == chain && mid.entries[written].timestamp == now
    requires Wrote(e, key) == if key == written then Some(Chained(chain, now)) else None
    requires e.Cached? || e.Published? || e.Deleted? || e.DeletedIf?
    ensures Agrees(w'.store, key, Recalled(m, e, key, Evicts(w, w', e, key)))
  {
    hide Settles, Wrote;
    if key in w'.store.entries {
      SettledEntries(mid, w'.store, key);
    }
  }

  lemma RecallIdle(w: World, w': World, e: Event, key: string, m: Memory)
    requires Agrees(w.store, key, m) && w'.store == w.store && Wrote(e, key) == None
    requires e.Cached? || e.Published? || e.Deleted? || e.DeletedIf?
    ensures Agrees(w'.store, key, Recalled(m, e, key, Evicts(w, w', e, key)))
  {
    hide Wrote;
  }

  lemma RecallPublish(w: World, w': World, e: Event, key: string, m: Memory)
    requires Inv(w) && Next(w, w', e) && e.Published? && Agrees(w.store, key, m)
    ensures Agrees(w'.store, key, Recalled(m, e, key, Evicts(w, w', e, key)))
  {
    hide Settles, NormalizeItems, Agrees, Recalled, Evicts, Inv;
    var s, s' := w.store, w'.store;
    if e.outcome != Done {
      RecallIdle(w, w', e, key, m);
    } else {
      var chain := NormalizeItems(e.items).value;
      if !e.snapshot.loaded {
        NormalizeTwice(e.items);
        RecallWrite(w, w', e, key, m, RevisedFresh(s, e.key, chain, e.now, false), e.key, chain, e.now);
      } else {
        match Decide(Lookup(s, e.key), s.epoch, e.snapshot, chain)
        case Refuse => assert false;
        case Fresh => RecallWrite(w, w', e, key, m, RevisedFresh(s, e.key, chain, e.now, false), e.key, chain, e.now);
        case Keep(b) => RecallWrite(w, w', e, key, m, Revised(s, e.key, chain, e.now, b, false), e.key, chain, e.now);
      }
    }
  }

  lemma RecallStep(w: World, w': World, e: Event, key: string, m: Memory)
    requires Inv(w) && Next(w, w', e) && Agrees(w.store, key, m)
    ensures Agrees(w'.store, key, Recalled(m, e, key, Evicts(w, w', e, key)))
  {
    hide Inv, Settles, NormalizeItems, Reads, Publishes;
    var s, s' := w.store, w'.store;
    match e
    case Got(_, _, _) => RecallRead(w, w', e, key, m);
    case Published(_, _, _, _, _) => RecallPublish(w, w', e, key, m);
    case Cached(k, items, now, ok) =>
      if ok {
        RecallWrite(w, w', e, key, m, RevisedFresh(s, k, NormalizeItems(items).value, now, false), k, NormalizeItems(items).value, now);
      } else {
        RecallIdle(w, w', e, key, m);
      }
    case Deleted(k, now) =>
      if k != "" {
        RecallWrite(w, w', e, key, m, RevisedFresh(s, k, [], now, true), k, [], now);
      } else {
        RecallIdle(w, w', e, key, m);
      }
    case DeletedIf(k, _, now, outcome) =>
      if outcome == Done {
        RecallWrite(w, w', e, key, m, RevisedFresh(s, k, [], now, true), k, [], now);
      } else {
        RecallIdle(w, w', e, key, m);
      }
    case AllCleared =>
    case PurgedAt(_) =>
  }

  lemma {:induction false} ToldIsStored(ws: seq<World>, es: seq<Event>, key: string, n: nat)
    requires Run(ws, es) && n < |ws|
    ensures Agrees(ws[n].store, key, Told(ws, es, key, n))
  {
    hide Inv, Next, Recalled, Evicts;
    if n > 0 {
      ToldIsStored(ws, es, key, n - 1);
      InvAlways(ws, es, n - 1);
      assert Next(ws[n - 1], ws[n], es[n - 1]);
      RecallStep(ws[n - 1], ws[n], es[n - 1], key, Told(ws, es, key, n - 1));
    }
  }

  /** A read, in every run: if the key was written or read within the hour, and was not thrown out since, the read
      yields the chain written last and renews it; otherwise it yields nothing. Either way its snapshot describes
      what is there now. */
  lemma ReadIsTold(ws: seq<World>, es: seq<Event>, i: nat)
    requires Run(ws, es) && i < |es| && es[i].Got? && es[i].key != ""
    ensures var key, m, s := es[i].key, Told(ws, es, es[i].key, i), ws[i + 1].store;
      && Told(ws, es, key, i + 1) == Chained(if IsFresh(m, es[i].now) then m.chain else [], es[i].now)
      && key in s.entries && s.entries[key].items == Told(ws, es, key, i + 1).chain
      && es[i].snapshot == Snapshot(Told(ws, es, key, i + 1).chain, true, true, s.entries[key].revision, s.entries[key].branch, s.epoch)
  {
    hide Inv, Next, Reads;
    var key, m := es[i].key, Told(ws, es, es[i].key, i);
    ToldIsStored(ws, es, key, i);
    InvAlways(ws, es, i);
    assert Next(ws[i], ws[i + 1], es[i]);
    RecallRead(ws[i], ws[i + 1], es[i], key, m);
  }

  /** What a purge takes is what was neither written nor read within the hour. */
  lemma PurgeIsTold(ws: seq<World>, es: seq<Event>, i: nat, key: string)
    requires Run(ws, es) && i < |es| && es[i].PurgedAt?
    ensures key in ws[i + 1].store.entries <==> IsFresh(Told(ws, es, key, i), es[i].now)
    ensures key in ws[i + 1].store.entries ==> ws[i + 1].store.entries[key] == ws[i].store.entries[key]
  {
    ToldIsStored(ws, es, key, i);
    assert Next(ws[i], ws[i + 1], es[i]);
  }

  // ---------------------------------------------------------------- while nothing happens to a key

  /** The event neither reads nor writes the key, and it is still there. */
  predicate Quiet(w': World, e: Event, key: string)
  {
    Wrote(e, key).None? && !(e.Got? && e.key == key) && key in w'.store.entries
  }

  lemma OthersLeave(w: World, w': World, e: Event, key: string, mid: Store, written: string)
    requires Settles(mid, w'.store) && written in mid.entries && mid.entries == w.store.entries[written := mid.entries[written]]
    requires written != key && key in w'.store.entries
    ensures key in w.store.entries && w'.store.entries[key] == w.store.entries[key]
  {
    hide Settles;
    SettledEntries(mid, w'.store, key);
  }

  lemma QuietKeeps(w: World, w': World, e: Event, key: string)
    requires Inv(w) && Next(w, w', e) && Quiet(w', e, key)
    ensures key in w.store.entries && key in w'.store.entries && w'.store.entries[key] == w.store.entries[key]
  {
    hide Inv, Settles, NormalizeItems, Reserves;
    var s, s' := w.store, w'.store;
    match e
    case Got(k, now, snapshot) =>
      if k != "" {
        if k !in s.entries {
          ReserveLeaves(s, s', k, now, snapshot, key);
        } else if Expired(s.entries[k], now) {
          ReserveLeaves(Forgotten(s, k), s', k, now, snapshot, key);
        }
      }
    case Published(_, _, _, _, _) => QuietPublish(w, w', e, key);
    case Cached(k, items, now, ok) =>
      if ok { OthersLeave(w, w', e, key, RevisedFresh(s, k, NormalizeItems(items).value, now, false), k); }
    case Deleted(k, now) =>
      if k != "" { OthersLeave(w, w', e, key, RevisedFresh(s, k, [], now, true), k); }
    case DeletedIf(k, _, now, outcome) =>
      if outcome == Done { OthersLeave(w, w', e, key, RevisedFresh(s, k, [], now, true), k); }
    case AllCleared =>
    case PurgedAt(_) =>
  }

  lemma QuietPublish(w: World, w': World, e: Event, key: string)
    requires Inv(w) && e.Published? && Next(w, w', e) && Quiet(w', e, key)
    ensures key in w.store.entries && w'.store.entries[key] == w.store.entries[key]
  {
    hide Inv, Settles, NormalizeItems;
    var s, s' := w.store, w'.store;
    if e.outcome == Done {
      var chain := NormalizeItems(e.items).value;
      if !e.snapshot.loaded {
        OthersLeave(w, w', e, key, RevisedFresh(s, e.key, NormalizeItems(chain).value, e.now, false), e.key);
      } else {
        match Decide(Lookup(s, e.key), s.epoch, e.snapshot, chain)
        case Refuse => assert false;
        case Fresh => OthersLeave(w, w', e, key, RevisedFresh(s, e.key, chain, e.now, false), e.key);
        case Keep(b) => OthersLeave(w, w', e, key, Revised(s, e.key, chain, e.now, b, false), e.key);
      }
    }
  }

  lemma {:induction false} QuietlyKept(ws: seq<World>, es: seq<Event>, i: nat, j: nat, key: string)
    requires Run(ws, es) && i <= j < |ws| && forall k :: i <= k < j ==> Quiet(ws[k + 1], es[k], key)
    ensures i < j ==> key in ws[i].store.entries && key in ws[j].store.entries && ws[j].store.entries[key] == ws[i].store.entries[key]
    decreases j
  {
    hide Inv, Next, Quiet;
    if i < j {
      QuietlyKept(ws, es, i, j - 1, key);
      InvAlways(ws, es, j - 1);
      assert Next(ws[j - 1], ws[j], es[j - 1]);
      QuietKeeps(ws[j - 1], ws[j], es[j - 1], key);
    }
  }

  /** So a chain can be read for an hour after it was written, and no longer, if nothing else happens to its key. */
  lemma ReadAfterWrite(ws: seq<World>, es: seq<Event>, i: nat, j: nat, key: string)
    requires Run(ws, es) && i < j < |es| && Wrote(es[i], key).Some? && key in ws[i + 1].store.entries
    requires (forall k :: i < k < j ==> Quiet(ws[k + 1], es[k], key)) && es[j].Got? && es[j].key == key != ""
    ensures var m := Wrote(es[i], key).value;
      es[j].snapshot.items == if es[j].now - m.time <= 3_600_000_000_000 then m.chain else []
  {
    hide Inv, Next, Quiet, Told, NormalizeItems;
    ToldAfterWrite(ws, es, i, key);
    ToldIsStored(ws, es, key, i + 1);
    QuietlyKept(ws, es, i + 1, j, key);
    ToldIsStored(ws, es, key, j);
    ReadIsTold(ws, es, j);
  }

  /** And for an hour after it was last read: a read that finds something renews it. */
  lemma ReadAfterRead(ws: seq<World>, es: seq<Event>, i: nat, j: nat, key: string)
    requires Run(ws, es) && i < j < |es| && es[i].Got? && es[j].Got? && es[i].key == es[j].key == key != ""
    requires forall k :: i < k < j ==> Quiet(ws[k + 1], es[k], key)
    ensures es[j].snapshot.items == if es[j].now - es[i].now <= 3_600_000_000_000 then es[i].snapshot.items else []
  {
    hide Inv, Next, Quiet, Told;
    ReadIsTold(ws, es, i);
    ToldIsStored(ws, es, key, i + 1);
    QuietlyKept(ws, es, i + 1, j, key);
    ToldIsStored(ws, es, key, j);
    ReadIsTold(ws, es, j);
  }

  lemma ToldAfterWrite(ws: seq<World>, es: seq<Event>, i: nat, key: string)
    requires Run(ws, es) && i < |es| && Wrote(es[i], key).Some? && key in ws[i + 1].store.entries
    ensures Told(ws, es, key, i + 1) == Wrote(es[i], key).value
  {
    hide Wrote, Next;
  }

  // ---------------------------------------------------------------- what succeeds

  /** How a publish ends, in every run. With a snapshot that was read it succeeds exactly if the entry is the one that
      was read, or a live one on the same branch that has only grown, to a prefix of what is published. It stays on
      the branch unless it replaces just what was read by something that does not extend it. */
  lemma PublishOutcome(ws: seq<World>, es: seq<Event>, i: nat)
    requires Run(ws, es) && i < |es| && es[i].Published?
    ensures var e, s, s', p := es[i], ws[i].store, ws[i + 1].store, es[i].snapshot;
      && (e.key == "" ==> e.outcome == Refused)
      && (e.key != "" && NormalizeItems(e.items).None? ==> e.outcome == Invalid)
      && (e.key != "" && NormalizeItems(e.items).Some? && !p.loaded ==> e.outcome == Done)
      && (e.key != "" && NormalizeItems(e.items).Some? && p.loaded ==>
            (e.outcome == if MayPublish(s, e.key, p, NormalizeItems(e.items).value) then Done else Refused))
      && (e.outcome != Done ==> s' == s)
      && (e.outcome == Done && p.loaded ==>
            && e.key in s.entries && e.key in s'.entries
            && (if s.entries[e.key].revision == p.revision && !(p.items <= NormalizeItems(e.items).value)
                then s'.entries[e.key].branch == Some(s.minted) else s'.entries[e.key].branch == p.branch))
  {
    hide NormalizeItems, Settles;
    InvAlways(ws, es, i);
    var w, e := ws[i], es[i];
    assert Next(w, ws[i + 1], e);
    NormalAgain(e.items);
    if e.snapshot.loaded && NormalizeItems(e.items).Some? {
      DecidedOutright(w, e.key, e.snapshot, NormalizeItems(e.items).value);
      if e.key != "" && e.outcome == Done { Unsettled(w, ws[i + 1], e); }
    }
  }

  predicate MayPublish(s: Store, key: string, p: LocalSnapshot, chain: Chain)
  {
    key in s.entries &&
    (s.entries[key].revision == p.revision || (!s.entries[key].deleted && s.entries[key].branch == p.branch && s.entries[key].items <= chain))
  }

  lemma NormalAgain(items: Chain)
    ensures NormalizeItems(items).Some? ==> NormalizeItems(NormalizeItems(items).value).Some?
  {
    if NormalizeItems(items).Some? { NormalizeTwice(items); }
  }

  lemma DecidedOutright(w: World, key: string, p: LocalSnapshot, chain: Chain)
    requires Inv(w) && p in w.snapshots && p.loaded
    ensures Decide(Lookup(w.store, key), w.store.epoch, p, chain) ==
      if !MayPublish(w.store, key, p, chain) then Refuse
      else if w.store.entries[key].revision == p.revision && !(p.items <= chain) then Fresh
      else Keep(p.branch.value)
  {
    assert SnapshotOk(w.store, p);
    assert key in w.store.entries ==> Knows(p, w.store.entries[key]);
  }

  /** A publish finds its key, so that nothing has to make room for it. */
  lemma Unsettled(w: World, w': World, e: Event)
    requires Inv(w) && Next(w, w', e) && e.Published? && e.outcome == Done && e.snapshot.loaded
    ensures e.key in w.store.entries && e.key in w'.store.entries
    ensures var chain := NormalizeItems(e.items).value;
      w'.store.entries[e.key].branch ==
      if Decide(Lookup(w.store, e.key), w.store.epoch, e.snapshot, chain).Fresh? then Some(w.store.minted) else e.snapshot.branch
  {
    hide NormalizeItems;
    var chain := NormalizeItems(e.items).value;
    NoLostUpdate(w, e.key, e.snapshot, chain);
    var s := w.store;
    var mid := if Decide(Lookup(s, e.key), s.epoch, e.snapshot, chain).Fresh?
               then RevisedFresh(s, e.key, chain, e.now, false) else Revised(s, e.key, chain, e.now, e.snapshot.branch.value, false);
    assert mid.entries.Keys == s.entries.Keys;
    assert Settles(mid, w'.store);
  }

  /** And a conditional delete: it succeeds exactly if the entry is the one that was read. */
  lemma DeleteOutcome(ws: seq<World>, es: seq<Event>, i: nat)
    requires Run(ws, es) && i < |es| && es[i].DeletedIf?
    ensures var e, s, s', p := es[i], ws[i].store, ws[i + 1].store, es[i].snapshot;
      && e.outcome == (if e.key != "" && (!p.loaded || (e.key in s.entries && s.entries[e.key].revision == p.revision)) then Done else Refused)
      && (e.outcome != Done ==> s' == s)
  {
    InvAlways(ws, es, i);
    assert Next(ws[i], ws[i + 1], es[i]);
    assert SnapshotOk(ws[i].store, es[i].snapshot);
  }

  /** What was read can be published to, and deleted, as long as nothing happens to the key. */
  lemma UnchangedIsWritten(ws: seq<World>, es: seq<Event>, i: nat, j: nat, key: string)
    requires Run(ws, es) && i < j < |es| && es[i].Got? && es[i].key == key != ""
    requires forall k :: i < k < j ==> Quiet(ws[k + 1], es[k], key)
    ensures es[j].Published? && es[j].key == key && es[j].snapshot == es[i].snapshot && NormalizeItems(es[j].items).Some?
      ==> es[j].outcome == Done
    ensures es[j].DeletedIf? && es[j].key == key && es[j].snapshot == es[i].snapshot ==> es[j].outcome == Done
  {
    hide Inv, Next, Quiet, NormalizeItems;
    ReadIsTold(ws, es, i);
    QuietlyKept(ws, es, i + 1, j, key);
    if es[j].Published? { PublishOutcome(ws, es, j); }
    if es[j].DeletedIf? { DeleteOutcome(ws, es, j); }
  }

  // ---------------------------------------------------------------- what is lost

  /** A write evicts no other entry while there is room, and, as a read does, none that has 128 strictly older ones. */
  lemma WritesSpare(ws: seq<World>, es: seq<Event>, i: nat, key: string)
    requires Run(ws, es) && i < |es| && key in ws[i].store.entries && !es[i].AllCleared? && !es[i].PurgedAt? && !es[i].Got?
    requires Wrote(es[i], key).None?
    ensures |ws[i].store.entries| < 10240 ==> key in ws[i + 1].store.entries
    ensures |Older(ws[i].store, key)| >= 128 ==> key in ws[i + 1].store.entries
  {
    hide NormalizeItems, Inv;
    InvAlways(ws, es, i);
    NeverOverfull(ws, es, i);
    var w, w', e := ws[i], ws[i + 1], es[i];
    assert Next(w, w', e);
    var s := w.store;
    match e
    case Published(_, _, _, _, _) => PublishSpares(w, w', e, key);
    case Cached(k, items, now, ok) =>
      if ok { WriteSpares(s, RevisedFresh(s, k, NormalizeItems(items).value, now, false), w'.store, k, key); }
    case Deleted(k, now) =>
      if k != "" { WriteSpares(s, RevisedFresh(s, k, [], now, true), w'.store, k, key); }
    case DeletedIf(k, _, now, outcome) =>
      if outcome == Done { WriteSpares(s, RevisedFresh(s, k, [], now, true), w'.store, k, key); }
  }

  lemma PublishSpares(w: World, w': World, e: Event, key: string)
    requires Inv(w) && Next(w, w', e) && e.Published? && key in w.store.entries && Wrote(e, key).None? && |w.store.entries| <= MAX_ENTRIES
    ensures |w.store.entries| < 10240 ==> key in w'.store.entries
    ensures |Older(w.store, key)| >= 128 ==> key in w'.store.entries
  {
    hide NormalizeItems, Settles, Inv;
    var s := w.store;
    if e.outcome == Done {
      var chain := NormalizeItems(e.items).value;
      if !e.snapshot.loaded {
        WriteSpares(s, RevisedFresh(s, e.key, NormalizeItems(chain).value, e.now, false), w'.store, e.key, key);
      } else {
        match Decide(Lookup(s, e.key), s.epoch, e.snapshot, chain)
        case Refuse => assert false;
        case Fresh => WriteSpares(s, RevisedFresh(s, e.key, chain, e.now, false), w'.store, e.key, key);
        case Keep(b) => WriteSpares(s, Revised(s, e.key, chain, e.now, b, false), w'.store, e.key, key);
      }
    }
  }

  lemma WriteSpares(s: Store, mid: Store, s': Store, written: string, key: string)
    requires Settles(mid, s') && written in mid.entries && mid.entries == s.entries[written := mid.entries[written]]
    requires written != key && key in s.entries && |s.entries| <= MAX_ENTRIES
    ensures |s.entries| < 10240 ==> key in s'.entries
    ensures |Older(s, key)| >= 128 ==> key in s'.entries
  {
    assert mid.entries.Keys == s.entries.Keys + {written};
    assert written in s.entries ==> s.entries.Keys + {written} == s.entries.Keys;
    if |mid.entries| > MAX_ENTRIES && |Older(s, key)| >= 128 {
      assert written !in s.entries;
      Subset(Older(s, key), Older(mid, key));
      OldestGoFirst(mid, s', EVICT_BATCH, key);
    }
  }

  /** The only key a step can add is its own. */
  lemma OnlyItsOwn(w: World, w': World, e: Event, k: string)
    requires Inv(w) && Next(w, w', e) && k in w'.store.entries && k !in w.store.entries
    ensures !e.AllCleared? && !e.PurgedAt? && e.key == k && Creates(w, e)
  {
    hide NormalizeItems, Consistent;
    if Wrote(e, k).None? && !(e.Got? && e.key == k) {
      QuietKeeps(w, w', e, k);
    }
  }

  lemma FewerThan(a: set<string>, b: set<string>, gone: string, own: set<string>)
    requires gone in b && gone !in a && a <= b + own && |own| <= 1
    ensures |a| <= |b| - 1 + |own|
  {
    Subset(a, (b - {gone}) + own);
  }

  /** The epoch tells of every loss: it grows with each clear, and whenever an entry is gone. */
  lemma LossRaisesEpoch(ws: seq<World>, es: seq<Event>, i: nat, key: string)
    requires Run(ws, es) && i < |es|
    ensures es[i].AllCleared? || (key in ws[i].store.entries && key !in ws[i + 1].store.entries) ==> ws[i].store.epoch < ws[i + 1].store.epoch
  {
    var w, w', e := ws[i], ws[i + 1], es[i];
    assert Next(w, w', e);
    if !e.AllCleared? && key in w.store.entries && key !in w'.store.entries {
      hide Inv, Next;
      InvAlways(ws, es, i);
      AccountedAt(ws, es, i);
      forall k | k in w'.store.entries && k !in w.store.entries ensures Creates(w, e) && e.key == k {
        OnlyItsOwn(w, w', e, k);
      }
      FewerThan(w'.store.entries.Keys, w.store.entries.Keys, key, if Creates(w, e) then {e.key} else {});
    }
  }
}
