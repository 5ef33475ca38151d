/** Facts about every run of the local register: any number of requests interleaving reads,
    conditional publishes and deletes with overwrites, deletes, evictions, purges and clears.
    A request may use any snapshot handed out so far, as often as it likes and for any key. */
module ReplayRuns {
  import opened Wrappers
  import opened ReplayItems
  import opened ReplayLineage
  import opened ReplayRegister

  datatype World = World(store: Store, snapshots: set<LocalSnapshot>)

  datatype Event =
    | Got(key: string, now: int, snapshot: LocalSnapshot)
    | Cached(key: string, items: Chain, now: int, ok: bool)
    | Published(key: string, snapshot: LocalSnapshot, items: Chain, now: int, outcome: Outcome)
    | Deleted(key: string, now: int)
    | DeletedIf(key: string, snapshot: LocalSnapshot, now: int, outcome: Outcome)
    | AllCleared
    | PurgedAt(now: int)

  ghost predicate Next(w: World, w': World, e: Event)
  {
    match e
    case Got(key, now, snapshot) =>
      Reads(w.store, w'.store, key, now, snapshot) && w'.snapshots == w.snapshots + {snapshot}
    case Cached(key, items, now, ok) =>
      Overwrites(w.store, w'.store, key, items, now, ok) && w'.snapshots == w.snapshots
    case Published(key, snapshot, items, now, outcome) =>
      snapshot in w.snapshots && Publishes(w.store, w'.store, key, snapshot, items, now, outcome) && w'.snapshots == w.snapshots
    case Deleted(key, now) =>
      Deletes(w.store, w'.store, key, now) && w'.snapshots == w.snapshots
    case DeletedIf(key, snapshot, now, outcome) =>
      snapshot in w.snapshots && DeletesIfUnchanged(w.store, w'.store, key, snapshot, now, outcome) && w'.snapshots == w.snapshots
    case AllCleared =>
      w'.store == Cleared(w.store) && w'.snapshots == w.snapshots
    case PurgedAt(now) =>
      w'.store == Purged(w.store, now) && w'.snapshots == w.snapshots
  }

  ghost predicate Run(ws: seq<World>, es: seq<Event>)
  {
    && |ws| == |es| + 1
    && ws[0] == World(Store(map[], 0, 0, 0), {})
    && (forall i :: 0 <= i < |es| ==> Next(ws[i], ws[i + 1], es[i]))
  }

  // ---------------------------------------------------------------- the invariant

  predicate EntryOk(s: Store, e: LocalEntry)
  {
    && e.branch.Some? && e.branch.value < s.minted && 0 < e.revision <= s.nextRevision
    && (e.deleted <==> e.items == [])
  }

  predicate Apart(a: LocalEntry, b: LocalEntry)
  {
    a.revision != b.revision && a.branch != b.branch
  }

  predicate SnapshotOk(s: Store, p: LocalSnapshot)
  {
    p.loaded ==> p.found && p.branch.Some? && p.branch.value < s.minted && p.revision <= s.nextRevision
  }

  /** A revision identifies what was read; a branch identifies a line of chains that only grow. */
  predicate Knows(p: LocalSnapshot, e: LocalEntry)
  {
    && (p.revision == e.revision ==> p.branch == e.branch && p.items == e.items)
    && (p.branch == e.branch ==> p.items <= e.items)
  }

  ghost predicate Consistent(s: Store, snapshots: set<LocalSnapshot>)
  {
    && (forall k :: k in s.entries ==> EntryOk(s, s.entries[k]))
    && (forall k, k' :: k in s.entries && k' in s.entries && k != k' ==> Apart(s.entries[k], s.entries[k']))
    && (forall p :: p in snapshots ==> SnapshotOk(s, p))
    && (forall p, k :: p in snapshots && p.loaded && k in s.entries ==> Knows(p, s.entries[k]))
  }

  ghost predicate Inv(w: World)
  {
    Consistent(w.store, w.snapshots) && |w.store.entries| <= MAX_ENTRIES
  }

  lemma ShrinkKeeps(m: Store, s: Store, snapshots: set<LocalSnapshot>)
    requires Consistent(m, snapshots)
    requires s.entries.Keys <= m.entries.Keys && (forall k :: k in s.entries ==> s.entries[k] == m.entries[k])
    requires s.nextRevision == m.nextRevision && s.minted == m.minted
    ensures Consistent(s, snapshots)
  {
    forall k | k in s.entries ensures EntryOk(s, s.entries[k]) {
      assert EntryOk(m, m.entries[k]);
    }
    forall p | p in snapshots ensures SnapshotOk(s, p) {
      assert SnapshotOk(m, p);
    }
  }

  lemma FreshKeeps(s: Store, snapshots: set<LocalSnapshot>, key: string, items: Chain, now: int, deleted: bool)
    requires Consistent(s, snapshots) && (deleted <==> items == [])
    ensures Consistent(RevisedFresh(s, key, items, now, deleted), snapshots)
  {
    var t := RevisedFresh(s, key, items, now, deleted);
    forall k | k in t.entries ensures EntryOk(t, t.entries[k]) {
      if k != key { assert EntryOk(s, s.entries[k]); }
    }
    forall k, k' | k in t.entries && k' in t.entries && k != k' ensures Apart(t.entries[k], t.entries[k']) {
      if k != key { assert EntryOk(s, s.entries[k]); }
      if k' != key { assert EntryOk(s, s.entries[k']); }
    }
    forall p | p in snapshots ensures SnapshotOk(t, p) {
      assert SnapshotOk(s, p);
    }
    forall p, k | p in snapshots && p.loaded && k in t.entries ensures Knows(p, t.entries[k]) {
      assert SnapshotOk(s, p);
      if k != key { assert Knows(p, s.entries[k]); }
    }
  }

  lemma GrowthKeeps(s: Store, snapshots: set<LocalSnapshot>, key: string, chain: Chain, now: int, branch: Nonce)
    requires Consistent(s, snapshots) && chain != []
    requires key in s.entries && s.entries[key].branch == Some(branch) && s.entries[key].items <= chain
    ensures Consistent(Revised(s, key, chain, now, branch, false), snapshots)
  {
    var t := Revised(s, key, chain, now, branch, false);
    forall k | k in t.entries ensures EntryOk(t, t.entries[k]) {
      assert EntryOk(s, s.entries[k]);
    }
    forall k, k' | k in t.entries && k' in t.entries && k != k' ensures Apart(t.entries[k], t.entries[k']) {
      assert Apart(s.entries[k], s.entries[k']);
      assert EntryOk(s, s.entries[k]) && EntryOk(s, s.entries[k']);
    }
    forall p | p in snapshots ensures SnapshotOk(t, p) {
      assert SnapshotOk(s, p);
    }
    forall p, k | p in snapshots && p.loaded && k in t.entries ensures Knows(p, t.entries[k]) {
      assert SnapshotOk(s, p) && Knows(p, s.entries[k]);
    }
  }

  lemma TouchKeeps(s: Store, snapshots: set<LocalSnapshot>, key: string, now: int)
    requires Consistent(s, snapshots) && key in s.entries
    ensures Consistent(s.(entries := s.entries[key := s.entries[key].(timestamp := now)]), snapshots)
  {
    var t := s.(entries := s.entries[key := s.entries[key].(timestamp := now)]);
    forall k | k in t.entries ensures EntryOk(t, t.entries[k]) {
      assert EntryOk(s, s.entries[k]);
    }
    forall p | p in snapshots ensures SnapshotOk(t, p) {
      assert SnapshotOk(s, p);
    }
    forall k, k' | k in t.entries && k' in t.entries && k != k' ensures Apart(t.entries[k], t.entries[k']) {
      assert Apart(s.entries[k], s.entries[k']);
    }
    forall p, k | p in snapshots && p.loaded && k in t.entries ensures Knows(p, t.entries[k]) {
      assert Knows(p, s.entries[k]);
    }
  }

  lemma SnapshotKeeps(s: Store, snapshots: set<LocalSnapshot>, key: string)
    requires Consistent(s, snapshots) && key in s.entries
    ensures Consistent(s, snapshots + {SnapshotOf(s.entries[key], s.epoch)})
  {
    var p := SnapshotOf(s.entries[key], s.epoch);
    assert EntryOk(s, s.entries[key]);
    forall k | k in s.entries ensures Knows(p, s.entries[k]) {
      if k != key { assert Apart(s.entries[key], s.entries[k]); }
    }
  }

  // ---------------------------------------------------------------- one step

  /** A key after a step, against the store before: the same write (its timestamp apart), or a
      later write, on a fresh branch or extending the chain this key had on the same branch. */
  predicate Follows(s: Store, s': Store, k: string)
    requires k in s'.entries
  {
    var e' := s'.entries[k];
    if e'.revision <= s.nextRevision then k in s.entries && e' == s.entries[k].(timestamp := e'.timestamp)
    else e'.branch.Some? && (s.minted <= e'.branch.value ||
                             (k in s.entries && e'.branch == s.entries[k].branch && s.entries[k].items <= e'.items))
  }

  ghost predicate Advances(s: Store, s': Store)
  {
    s.nextRevision <= s'.nextRevision && s.minted <= s'.minted && forall k :: k in s'.entries ==> Follows(s, s', k)
  }

  /** Why a conditional publish is safe: whenever it is not refused, either the stored chain is
      the one that was read, or the stored chain is a prefix of the chain being written. */
  lemma NoLostUpdate(w: World, key: string, snapshot: LocalSnapshot, chain: Chain)
    requires Inv(w) && snapshot in w.snapshots && snapshot.loaded
    requires Decide(Lookup(w.store, key), w.store.epoch, snapshot, chain) != Refuse
    ensures key in w.store.entries && w.store.entries[key].branch == snapshot.branch
    ensures w.store.entries[key].items == snapshot.items || w.store.entries[key].items <= chain
    ensures Decide(Lookup(w.store, key), w.store.epoch, snapshot, chain).Keep? ==> w.store.entries[key].items <= chain
    ensures Decide(Lookup(w.store, key), w.store.epoch, snapshot, chain).Fresh? ==> w.store.entries[key].items == snapshot.items
  {
    assert SnapshotOk(w.store, snapshot);
    assert key in w.store.entries ==> Knows(snapshot, w.store.entries[key]);
  }

  /** Whether a step puts an entry where there was none. */
  predicate Creates(w: World, e: Event)
  {
    match e
    case Got(key, now, _) => key != "" && (key !in w.store.entries || Expired(w.store.entries[key], now))
    case Cached(key, _, _, ok) => ok && key !in w.store.entries
    case Published(key, _, _, _, outcome) => outcome == Done && key !in w.store.entries
    case Deleted(key, _) => key != "" && key !in w.store.entries
    case DeletedIf(key, _, _, outcome) => outcome == Done && key !in w.store.entries
    case _ => false
  }

  /** What went missing in a step is what the epoch grew by. */
  predicate Accounted(w: World, w': World, e: Event)
  {
    w'.store.epoch + |w'.store.entries| == w.store.epoch + |w.store.entries| + if Creates(w, e) then 1 else 0
  }

  lemma RoomStep(s: Store, room: Store, snapshots: set<LocalSnapshot>)
    requires Consistent(s, snapshots) && |s.entries| <= MAX_ENTRIES && MakesRoom(s, room)
    ensures Consistent(room, snapshots) && |room.entries| < MAX_ENTRIES
    ensures room.epoch + |room.entries| == s.epoch + |s.entries|
    ensures room.nextRevision == s.nextRevision && room.minted == s.minted
    ensures forall k :: k in room.entries ==> k in s.entries && room.entries[k] == s.entries[k]
  {
    ShrinkKeeps(s, room, snapshots);
  }

  lemma ReserveStep(s: Store, s': Store, snapshots: set<LocalSnapshot>, key: string, now: int, snapshot: LocalSnapshot)
    requires Consistent(s, snapshots) && |s.entries| <= MAX_ENTRIES && key !in s.entries && Reserves(s, s', key, now, snapshot)
    ensures Consistent(s', snapshots + {snapshot}) && |s'.entries| <= MAX_ENTRIES && Advances(s, s')
    ensures s'.epoch + |s'.entries| == s.epoch + |s.entries| + 1
  {
    var room :| MakesRoom(s, room) && s' == RevisedFresh(room, key, [], now, true) &&
                snapshot == SnapshotOf(s'.entries[key], s'.epoch);
    RoomStep(s, room, snapshots);
    FreshKeeps(room, snapshots, key, [], now, true);
    SnapshotKeeps(s', snapshots, key);
    ReserveAdvances(s, room, s', snapshots, key, now);
  }

  lemma ReserveAdvances(s: Store, room: Store, s': Store, snapshots: set<LocalSnapshot>, key: string, now: int)
    requires Consistent(s, snapshots) && key !in room.entries && s' == RevisedFresh(room, key, [], now, true)
    requires room.nextRevision == s.nextRevision && room.minted == s.minted
    requires forall k :: k in room.entries ==> k in s.entries && room.entries[k] == s.entries[k]
    ensures Advances(s, s') && |s'.entries| == |room.entries| + 1
  {
    assert s'.entries.Keys == room.entries.Keys + {key};
    forall k | k in s'.entries ensures Follows(s, s', k) {
      if k != key { assert EntryOk(s, s.entries[k]); }
    }
  }

  lemma HitStep(w: World, w': World, e: Event)
    requires Inv(w) && e.Got? && Next(w, w', e)
    requires e.key != "" && e.key in w.store.entries && !Expired(w.store.entries[e.key], e.now)
    ensures Inv(w') && Advances(w.store, w'.store) && Accounted(w, w', e)
  {
    var s, s' := w.store, w'.store;
    TouchKeeps(s, w.snapshots, e.key, e.now);
    SnapshotKeeps(s', w.snapshots, e.key);
    assert s'.entries.Keys == s.entries.Keys;
    forall k | k in s'.entries ensures Follows(s, s', k) {
      assert EntryOk(s, s.entries[k]);
    }
  }

  lemma ExpiredStep(w: World, w': World, e: Event)
    requires Inv(w) && e.Got? && Next(w, w', e)
    requires e.key != "" && e.key in w.store.entries && Expired(w.store.entries[e.key], e.now)
    ensures Inv(w') && Advances(w.store, w'.store) && Accounted(w, w', e)
  {
    var s, s' := w.store, w'.store;
    var f := Forgotten(s, e.key);
    ShrinkKeeps(s, f, w.snapshots);
    assert s.entries.Keys == f.entries.Keys + {e.key};
    ReserveStep(f, s', w.snapshots, e.key, e.now, e.snapshot);
    forall k | k in s'.entries ensures Follows(s, s', k) {
      assert Follows(f, s', k);
    }
  }

  lemma ReadStep(w: World, w': World, e: Event)
    requires Inv(w) && e.Got? && Next(w, w', e)
    ensures Inv(w') && Advances(w.store, w'.store) && Accounted(w, w', e)
  {
    if e.key == "" {
      IdleStep(w.store, w.snapshots);
    } else if e.key !in w.store.entries {
      ReserveStep(w.store, w'.store, w.snapshots, e.key, e.now, e.snapshot);
    } else if Expired(w.store.entries[e.key], e.now) {
      ExpiredStep(w, w', e);
    } else {
      HitStep(w, w', e);
    }
  }

  lemma Shrinks(m: Store, s: Store)
    requires s.entries.Keys <= m.entries.Keys
    ensures |s.entries| <= |m.entries|
  {
    Subset(s.entries.Keys, m.entries.Keys);
  }

  /** Every write, as one step: a new revision of `key`, then perhaps an eviction. */
  lemma WriteStep(s: Store, m: Store, s': Store, snapshots: set<LocalSnapshot>, key: string)
    requires Consistent(s, snapshots) && |s.entries| <= MAX_ENTRIES
    requires Consistent(m, snapshots) && Settles(m, s')
    requires key in m.entries && m.entries == s.entries[key := m.entries[key]]
    requires m.nextRevision == s.nextRevision + 1 == m.entries[key].revision && s.minted <= m.minted && m.epoch == s.epoch
    requires Follows(s, m, key)
    ensures Consistent(s', snapshots) && |s'.entries| <= MAX_ENTRIES && Advances(s, s')
    ensures s'.epoch + |s'.entries| == s.epoch + |s.entries| + if key in s.entries then 0 else 1
  {
    ShrinkKeeps(m, s', snapshots);
    assert m.entries.Keys == s.entries.Keys + {key};
    forall k | k in s'.entries ensures Follows(s, s', k) {
      if k != key { assert EntryOk(s, s.entries[k]); }
    }
  }

  lemma FreshStep(s: Store, s': Store, snapshots: set<LocalSnapshot>, key: string, items: Chain, now: int, deleted: bool)
    requires Consistent(s, snapshots) && |s.entries| <= MAX_ENTRIES && (deleted <==> items == [])
    requires Settles(RevisedFresh(s, key, items, now, deleted), s')
    ensures Consistent(s', snapshots) && |s'.entries| <= MAX_ENTRIES && Advances(s, s')
    ensures s'.epoch + |s'.entries| == s.epoch + |s.entries| + if key in s.entries then 0 else 1
  {
    FreshKeeps(s, snapshots, key, items, now, deleted);
    WriteStep(s, RevisedFresh(s, key, items, now, deleted), s', snapshots, key);
  }

  lemma IdleStep(s: Store, snapshots: set<LocalSnapshot>)
    requires Consistent(s, snapshots)
    ensures Advances(s, s)
  {
    forall k | k in s.entries ensures Follows(s, s, k) {
      assert EntryOk(s, s.entries[k]);
    }
  }

  lemma ChainsAreNotEmpty(items: Chain)
    ensures NormalizeItems(items).Some? ==> NormalizeItems(items).value != []
  {
  }

  lemma PublishStep(w: World, w': World, e: Event)
    requires Inv(w) && e.Published? && Next(w, w', e)
    ensures Inv(w') && Advances(w.store, w'.store) && Accounted(w, w', e)
  {
    var s, s' := w.store, w'.store;
    IdleStep(s, w.snapshots);
    ChainsAreNotEmpty(e.items);
    if e.key != "" && NormalizeItems(e.items).Some? {
      var chain := NormalizeItems(e.items).value;
      if !e.snapshot.loaded {
        ChainsAreNotEmpty(chain);
        if NormalizeItems(chain).Some? {
          FreshStep(s, s', w.snapshots, e.key, NormalizeItems(chain).value, e.now, false);
        }
      } else {
        match Decide(Lookup(s, e.key), s.epoch, e.snapshot, chain)
        case Refuse =>
        case Fresh =>
          FreshStep(s, s', w.snapshots, e.key, chain, e.now, false);
        case Keep(b) =>
          NoLostUpdate(w, e.key, e.snapshot, chain);
          GrowthKeeps(s, w.snapshots, e.key, chain, e.now, b);
          WriteStep(s, Revised(s, e.key, chain, e.now, b, false), s', w.snapshots, e.key);
      }
    }
  }

  lemma Step(w: World, w': World, e: Event)
    requires Inv(w) && Next(w, w', e)
    ensures Inv(w') && Advances(w.store, w'.store) && (!e.AllCleared? ==> Accounted(w, w', e))
  {
    var s, s' := w.store, w'.store;
    IdleStep(s, w.snapshots);
    match e
    case Got(_, _, _) => ReadStep(w, w', e);
    case Published(_, _, _, _, _) => PublishStep(w, w', e);
    case Cached(key, items, now, ok) =>
      ChainsAreNotEmpty(items);
      if ok { FreshStep(s, s', w.snapshots, key, NormalizeItems(items).value, now, false); }
    case Deleted(key, now) =>
      if key != "" { FreshStep(s, s', w.snapshots, key, [], now, true); }
    case DeletedIf(key, _, now, outcome) =>
      if outcome == Done { FreshStep(s, s', w.snapshots, key, [], now, true); }
    case AllCleared =>
    case PurgedAt(now) =>
      ShrinkKeeps(s, s', w.snapshots);
      Shrinks(s, s');
      forall k | k in s'.entries ensures Follows(s, s', k) {
        assert EntryOk(s, s.entries[k]);
      }
  }

  // ---------------------------------------------------------------- whole runs

  lemma {:induction false} InvAlways(ws: seq<World>, es: seq<Event>, i: nat)
    requires Run(ws, es) && i < |ws|
    ensures Inv(ws[i])
  {
    if i > 0 {
      InvAlways(ws, es, i - 1);
      assert Next(ws[i - 1], ws[i], es[i - 1]);
      Step(ws[i - 1], ws[i], es[i - 1]);
    }
  }

  lemma StepAt(ws: seq<World>, es: seq<Event>, i: nat)
    requires Run(ws, es) && i < |es|
    ensures Inv(ws[i]) && Inv(ws[i + 1]) && Advances(ws[i].store, ws[i + 1].store) && ws[i].snapshots <= ws[i + 1].snapshots
  {
    InvAlways(ws, es, i);
    assert Next(ws[i], ws[i + 1], es[i]);
    Step(ws[i], ws[i + 1], es[i]);
  }

  /** The register as lineage sees it. */
  function FrameOf(s: Store): Frame
  {
    Frame(map k | k in s.entries && s.entries[k].branch.Some? :: Live(s.entries[k].branch.value, s.entries[k].items),
          DrawnBefore(s.minted))
  }

  function Frames(ws: seq<World>): seq<Frame>
  {
    seq(|ws|, i requires 0 <= i < |ws| => FrameOf(ws[i].store))
  }

  lemma InvIsSound(w: World)
    requires Inv(w)
    ensures Sound(FrameOf(w.store)) && FrameOf(w.store).view.Keys == w.store.entries.Keys
  {
    assert forall k :: k in w.store.entries ==> EntryOk(w.store, w.store.entries[k]);
    assert forall k, k' :: k in w.store.entries && k' in w.store.entries && k != k'
             ==> Apart(w.store.entries[k], w.store.entries[k']);
  }

  lemma AdvancesEvolves(w: World, w': World)
    requires Inv(w) && Inv(w') && Advances(w.store, w'.store)
    ensures Evolves(FrameOf(w.store), FrameOf(w'.store))
  {
    InvIsSound(w);
    InvIsSound(w');
    var f, f' := FrameOf(w.store), FrameOf(w'.store);
    forall k | k in f'.view ensures Carried(f, f', k) {
      assert Follows(w.store, w'.store, k);
    }
  }

  lemma RunIsHistory(ws: seq<World>, es: seq<Event>)
    requires Run(ws, es)
    ensures History(Frames(ws))
  {
    var fs := Frames(ws);
    forall i | 0 <= i < |fs| ensures Sound(fs[i]) {
      InvAlways(ws, es, i);
      InvIsSound(ws[i]);
    }
    forall i | 0 < i < |fs| ensures Evolves(fs[i - 1], fs[i]) {
      StepAt(ws, es, i - 1);
      AdvancesEvolves(ws[i - 1], ws[i]);
    }
  }

  /** Branch lineage: the same branch at two times of a run is the same key, and the earlier
      chain is a prefix of the later one. */
  lemma BranchLineage(ws: seq<World>, es: seq<Event>, i: nat, j: nat, k: string, k': string)
    requires Run(ws, es) && i <= j < |ws|
    requires k in ws[i].store.entries && k' in ws[j].store.entries
    requires ws[i].store.entries[k].branch == ws[j].store.entries[k'].branch
    ensures k == k' && ws[i].store.entries[k].items <= ws[j].store.entries[k'].items
  {
    RunIsHistory(ws, es);
    InvAlways(ws, es, i);
    InvIsSound(ws[i]);
    InvAlways(ws, es, j);
    InvIsSound(ws[j]);
    LineageOfHistory(Frames(ws), i, j, k, k');
  }

  ghost predicate Steady(ss: seq<Store>)
  {
    forall i :: 0 < i < |ss| ==> Advances(ss[i - 1], ss[i])
  }

  lemma {:induction false} RevisionCarried(ss: seq<Store>, i: nat, j: nat, k: string)
    requires Steady(ss) && i <= j < |ss|
    ensures ss[i].nextRevision <= ss[j].nextRevision
    ensures k in ss[j].entries && ss[j].entries[k].revision <= ss[i].nextRevision
      ==> k in ss[i].entries && ss[j].entries[k] == ss[i].entries[k].(timestamp := ss[j].entries[k].timestamp)
    decreases j
  {
    if i < j {
      RevisionCarried(ss, i, j - 1, k);
      assert Advances(ss[j - 1], ss[j]);
      assert k in ss[j].entries ==> Follows(ss[j - 1], ss[j], k);
    }
  }

  function Stores(ws: seq<World>): seq<Store>
  {
    seq(|ws|, i requires 0 <= i < |ws| => ws[i].store)
  }

  lemma RunIsSteady(ws: seq<World>, es: seq<Event>)
    requires Run(ws, es)
    ensures Steady(Stores(ws))
  {
    var ss := Stores(ws);
    forall i | 0 < i < |ss| ensures Advances(ss[i - 1], ss[i]) {
      StepAt(ws, es, i - 1);
    }
  }

  /** A revision number names one write for the whole run: same key, chain, branch and kind. */
  lemma RevisionIdentifiesWrite(ws: seq<World>, es: seq<Event>, i: nat, j: nat, k: string, k': string)
    requires Run(ws, es) && i <= j < |ws|
    requires k in ws[i].store.entries && k' in ws[j].store.entries
    requires ws[i].store.entries[k].revision == ws[j].store.entries[k'].revision
    ensures k == k'
    ensures ws[j].store.entries[k'] == ws[i].store.entries[k].(timestamp := ws[j].store.entries[k'].timestamp)
  {
    InvAlways(ws, es, i);
    assert EntryOk(ws[i].store, ws[i].store.entries[k]);
    RunIsSteady(ws, es);
    RevisionCarried(Stores(ws), i, j, k');
    assert k != k' ==> Apart(ws[i].store.entries[k], ws[i].store.entries[k']);
  }

  /** The key no longer carries the branch the snapshot was taken on. */
  predicate Dead(w: World, key: string, snapshot: LocalSnapshot)
  {
    key !in w.store.entries || w.store.entries[key].branch != snapshot.branch
  }

  /** What ends a snapshot: any unconditional overwrite or delete of its key, a successful
      conditional delete, and whatever removes the entry (a clear, a purge, an eviction). */
  predicate Kills(w: World, w': World, e: Event, key: string)
  {
    || key !in w'.store.entries
    || (e.Cached? && e.key == key && e.ok)
    || (e.Deleted? && e.key == key && key != "")
    || (e.DeletedIf? && e.key == key && e.outcome == Done)
    || (e.PurgedAt? && key in w.store.entries && Expired(w.store.entries[key], e.now))
    || (e.Got? && e.key == key != "" && key in w.store.entries && Expired(w.store.entries[key], e.now))
    || e.AllCleared?
  }

  lemma Redrawn(s: Store, s': Store, key: string, items: Chain, now: int, deleted: bool)
    requires Settles(RevisedFresh(s, key, items, now, deleted), s') && key in s'.entries
    ensures s'.entries[key].branch == Some(s.minted)
  {
  }

  lemma ReservedIsFresh(s: Store, s': Store, key: string, now: int, snapshot: LocalSnapshot)
    requires Reserves(s, s', key, now, snapshot)
    ensures key in s'.entries && s'.entries[key].branch == Some(s.minted)
  {
  }

  lemma ReadIsKnown(w: World, snapshot: LocalSnapshot)
    requires Inv(w) && snapshot in w.snapshots
    ensures SnapshotOk(w.store, snapshot)
  {
  }

  lemma SnapshotDies(w: World, w': World, e: Event, key: string, snapshot: LocalSnapshot)
    requires Inv(w) && Next(w, w', e) && snapshot in w.snapshots && snapshot.loaded && Kills(w, w', e, key)
    ensures Dead(w', key, snapshot)
  {
    hide Inv, NormalizeItems, Settles, Reserves;
    ReadIsKnown(w, snapshot);
    if key in w'.store.entries {
      match e
      case Cached(_, items, now, _) =>
        Redrawn(w.store, w'.store, key, NormalizeItems(items).value, now, false);
      case Deleted(_, now) =>
        Redrawn(w.store, w'.store, key, [], now, true);
      case DeletedIf(_, _, now, _) =>
        Redrawn(w.store, w'.store, key, [], now, true);
      case Got(_, now, _) =>
        ReservedIsFresh(Forgotten(w.store, key), w'.store, key, now, e.snapshot);
      case PurgedAt(_) =>
        assert false;
    }
  }

  /** Dead snapshots stay dead, even when the key comes back. */
  lemma DeadSnapshotsStayDead(ws: seq<World>, es: seq<Event>, i: nat, j: nat, key: string, snapshot: LocalSnapshot)
    requires Run(ws, es) && i <= j < |ws|
    requires snapshot in ws[i].snapshots && snapshot.loaded && Dead(ws[i], key, snapshot)
    ensures Dead(ws[j], key, snapshot)
  {
    hide Inv, Next, History, Sound;
    RunIsHistory(ws, es);
    InvAlways(ws, es, i);
    InvIsSound(ws[i]);
    InvAlways(ws, es, j);
    InvIsSound(ws[j]);
    ReadIsKnown(ws[i], snapshot);
    BranchNeverReturns(Frames(ws), i, j, key, snapshot.branch.value);
  }

  /** No conditional publish or delete with a dead snapshot ever succeeds again. */
  lemma DeadSnapshotsAreRefused(ws: seq<World>, es: seq<Event>, i: nat, j: nat, key: string, snapshot: LocalSnapshot)
    requires Run(ws, es) && i <= j < |es|
    requires snapshot in ws[i].snapshots && snapshot.loaded && Dead(ws[i], key, snapshot)
    ensures es[j].Published? && es[j].key == key && es[j].snapshot == snapshot ==> es[j].outcome != Done
    ensures es[j].DeletedIf? && es[j].key == key && es[j].snapshot == snapshot ==> es[j].outcome != Done
  {
    DeadSnapshotsStayDead(ws, es, i, j, key, snapshot);
    InvAlways(ws, es, j);
    SnapshotsGrow(ws, es, i, j);
    assert SnapshotOk(ws[j].store, snapshot);
    assert key in ws[j].store.entries ==> Knows(snapshot, ws[j].store.entries[key]);
    assert Next(ws[j], ws[j + 1], es[j]);
  }

  lemma {:induction false} SnapshotsGrow(ws: seq<World>, es: seq<Event>, i: nat, j: nat)
    requires Run(ws, es) && i <= j < |ws|
    ensures ws[i].snapshots <= ws[j].snapshots
    decreases j
  {
    if i < j {
      SnapshotsGrow(ws, es, i, j - 1);
      assert Next(ws[j - 1], ws[j], es[j - 1]);
    }
  }

  lemma SnapshotsStay(w: World, w': World, e: Event)
    requires Next(w, w', e)
    ensures w.snapshots <= w'.snapshots
  {
  }

  lemma DeadIsRefused(w: World, key: string, snapshot: LocalSnapshot, chain: Chain)
    requires Inv(w) && snapshot in w.snapshots && snapshot.loaded && Dead(w, key, snapshot)
    ensures Decide(Lookup(w.store, key), w.store.epoch, snapshot, chain) == Refuse
  {
    if Decide(Lookup(w.store, key), w.store.epoch, snapshot, chain) != Refuse {
      NoLostUpdate(w, key, snapshot, chain);
    }
  }

  lemma ReserveLeaves(s: Store, s': Store, key: string, now: int, snapshot: LocalSnapshot, k: string)
    requires Reserves(s, s', key, now, snapshot) && k in s'.entries && k != key
    ensures k in s.entries && s'.entries[k] == s.entries[k]
  {
  }

  /** A read leaves every entry that outlives it as it was, its own timestamp apart. */
  lemma ReadLeaves(w: World, w': World, e: Event, k: string)
    requires e.Got? && Next(w, w', e) && k in w.store.entries && k in w'.store.entries
    requires !(e.key == k != "" && Expired(w.store.entries[k], e.now))
    ensures w'.store.entries[k] == w.store.entries[k].(timestamp := w'.store.entries[k].timestamp)
  {
    var s, s' := w.store, w'.store;
    if e.key != "" && e.key != k {
      if e.key !in s.entries {
        ReserveLeaves(s, s', e.key, e.now, e.snapshot, k);
      } else if Expired(s.entries[e.key], e.now) {
        ReserveLeaves(Forgotten(s, e.key), s', e.key, e.now, e.snapshot, k);
      }
    }
  }

  /** The read is a miss that must make room first. */
  predicate Crowded(s: Store, e: Event)
    requires e.Got?
  {
    e.key != "" && e.key !in s.entries && |s.entries| >= 10240
  }

  /** The read finds this very entry expired. */
  predicate Expires(s: Store, e: Event, key: string)
    requires e.Got? && key in s.entries
  {
    e.key == key != "" && Expired(s.entries[key], e.now)
  }

  function Older(s: Store, key: string): set<string>
    requires key in s.entries
  {
    set k | k in s.entries && s.entries[k].timestamp < s.entries[key].timestamp
  }

  function NotYounger(s: Store, key: string): set<string>
    requires key in s.entries
  {
    set k | k in s.entries && s.entries[k].timestamp <= s.entries[key].timestamp
  }

  /** An eviction cannot take an entry that has `count` strictly older ones. */
  lemma OldestGoFirst(m: Store, s: Store, count: nat, key: string)
    requires EvictsOldest(m, s, count) && key in m.entries && |Older(m, key)| >= count
    ensures key in s.entries
  {
    GoneCount(m, s, count);
    if key !in s.entries {
      assert |Older(m, key) + {key}| == |Older(m, key)| + 1;
      Subset(Older(m, key) + {key}, m.entries.Keys - s.entries.Keys);
    }
  }

  /** It surely takes one that is among the `count` entries no younger than itself. */
  lemma OldestGo(m: Store, s: Store, count: nat, key: string)
    requires EvictsOldest(m, s, count) && key in m.entries && |NotYounger(m, key)| <= count
    ensures key !in s.entries
  {
    GoneCount(m, s, count);
    if key in s.entries {
      Subset(m.entries.Keys - s.entries.Keys, NotYounger(m, key) - {key});
    }
  }

  lemma GoneCount(m: Store, s: Store, count: nat)
    requires EvictsOldest(m, s, count)
    ensures var gone := m.entries.Keys - s.entries.Keys; |gone| <= count && (|gone| == count || s.entries.Keys == {})
  {
    var gone := m.entries.Keys - s.entries.Keys;
    assert m.entries.Keys == gone + s.entries.Keys;
  }

  /** Whether an entry outlives a read can be told before it. Among equally old entries an eviction may
      choose, so that between the last two cases either can happen. */
  lemma ReadsSpare(w: World, w': World, e: Event, key: string)
    requires Inv(w) && e.Got? && Next(w, w', e) && key in w.store.entries
    ensures !Crowded(w.store, e) ==> key in w'.store.entries
    ensures Crowded(w.store, e) && |Older(w.store, key)| >= 128 ==> key in w'.store.entries
    ensures Crowded(w.store, e) && |NotYounger(w.store, key)| <= 128 ==> key !in w'.store.entries
  {
    var s, s' := w.store, w'.store;
    if e.key != "" && e.key !in s.entries {
      var room :| MakesRoom(s, room) && s' == RevisedFresh(room, e.key, [], e.now, true);
      if Crowded(s, e) {
        if |Older(s, key)| >= EVICT_BATCH { OldestGoFirst(s, room, EVICT_BATCH, key); }
        if |NotYounger(s, key)| <= EVICT_BATCH { OldestGo(s, room, EVICT_BATCH, key); }
      }
    } else if e.key != "" && Expired(s.entries[e.key], e.now) {
      assert s.entries.Keys == Forgotten(s, e.key).entries.Keys + {e.key};
    }
  }

  /** Reads invalidate nothing but what they throw out: a publish that a snapshot allowed before
      a read is decided the same way after it, exactly when the key's entry outlived the read. */
  lemma ReadsKeepSnapshots(w: World, w': World, e: Event, key: string, snapshot: LocalSnapshot, chain: Chain)
    requires Inv(w) && e.Got? && Next(w, w', e) && snapshot in w.snapshots && snapshot.loaded
    requires Decide(Lookup(w.store, key), w.store.epoch, snapshot, chain) != Refuse
    ensures key in w.store.entries
    ensures Decide(Lookup(w'.store, key), w'.store.epoch, snapshot, chain)
         == Decide(Lookup(w.store, key), w.store.epoch, snapshot, chain)
        <==> key in w'.store.entries && !Expires(w.store, e, key)
  {
    hide Inv, Next;
    NoLostUpdate(w, key, snapshot, chain);
    Step(w, w', e);
    if key in w'.store.entries && !Expires(w.store, e, key) {
      ReadLeaves(w, w', e, key);
    } else {
      SnapshotDies(w, w', e, key, snapshot);
      SnapshotsStay(w, w', e);
      DeadIsRefused(w', key, snapshot, chain);
    }
  }

  /** The same for a conditional delete. */
  lemma ReadsKeepDeletes(w: World, w': World, e: Event, key: string, snapshot: LocalSnapshot)
    requires Inv(w) && e.Got? && Next(w, w', e) && snapshot in w.snapshots && snapshot.loaded
    requires MatchesSnapshot(Lookup(w.store, key), w.store.epoch, snapshot)
    ensures key in w.store.entries
    ensures MatchesSnapshot(Lookup(w'.store, key), w'.store.epoch, snapshot) <==> key in w'.store.entries && !Expires(w.store, e, key)
  {
    hide Inv, Next;
    NoLostUpdate(w, key, snapshot, snapshot.items);
    Step(w, w', e);
    if key in w'.store.entries && !Expires(w.store, e, key) {
      ReadLeaves(w, w', e, key);
    } else {
      SnapshotDies(w, w', e, key, snapshot);
      SnapshotsStay(w, w', e);
      DeadIsRefused(w', key, snapshot, snapshot.items);
    }
  }

  /** Entries created in the first `n` steps. */
  function Created(ws: seq<World>, es: seq<Event>, n: nat): nat
    requires n <= |es| < |ws|
  {
    if n == 0 then 0 else Created(ws, es, n - 1) + if Creates(ws[n - 1], es[n - 1]) then 1 else 0
  }

  lemma AccountedAt(ws: seq<World>, es: seq<Event>, i: nat)
    requires Run(ws, es) && i < |es| && !es[i].AllCleared?
    ensures Accounted(ws[i], ws[i + 1], es[i])
  {
    hide Inv, Creates;
    InvAlways(ws, es, i);
    assert Next(ws[i], ws[i + 1], es[i]);
    Step(ws[i], ws[i + 1], es[i]);
  }

  lemma NeverOverfull(ws: seq<World>, es: seq<Event>, i: nat)
    requires Run(ws, es) && i < |ws|
    ensures |ws[i].store.entries| <= MAX_ENTRIES
  {
    hide Next;
    InvAlways(ws, es, i);
  }

  /** Conservation: in every run without a clear, each entry ever created is either still there
      or was counted by the eviction epoch, and there are never more than MAX_ENTRIES. */
  lemma {:induction false} EntriesAreConserved(ws: seq<World>, es: seq<Event>, n: nat)
    requires Run(ws, es) && n <= |es|
    requires forall i :: 0 <= i < n ==> !es[i].AllCleared?
    ensures |ws[n].store.entries| + ws[n].store.epoch == Created(ws, es, n)
    ensures |ws[n].store.entries| <= MAX_ENTRIES
  {
    hide Inv, Next, Creates;
    NeverOverfull(ws, es, n);
    if n > 0 {
      EntriesAreConserved(ws, es, n - 1);
      AccountedAt(ws, es, n - 1);
    }
  }

  /** A publish that succeeded is what is stored, and it costs no other entry its place: a
      snapshot only matches a key that is there, so the register cannot overflow. */
  lemma PublishedIsStored(w: World, w': World, e: Event)
    requires Inv(w) && Next(w, w', e) && e.Published? && e.outcome == Done && e.snapshot.loaded
    ensures NormalizeItems(e.items).Some? && e.key in w'.store.entries
    ensures w'.store.entries[e.key].items == NormalizeItems(e.items).value && !w'.store.entries[e.key].deleted
    ensures w'.store.entries[e.key].revision == w.store.nextRevision + 1 == w'.store.nextRevision
    ensures w'.store.entries - {e.key} == w.store.entries - {e.key} && w'.store.epoch == w.store.epoch
  {
    var chain := NormalizeItems(e.items).value;
    NoLostUpdate(w, e.key, e.snapshot, chain);
    var m := if Decide(Lookup(w.store, e.key), w.store.epoch, e.snapshot, chain).Fresh?
             then RevisedFresh(w.store, e.key, chain, e.now, false)
             else Revised(w.store, e.key, chain, e.now, e.snapshot.branch.value, false);
    assert Settles(m, w'.store);
    assert m.entries.Keys == w.store.entries.Keys;
  }
}
