/** The replay register kept in Home: a key-value store with an atomic compare-and-swap that
    any number of processes use at once. Every Home operation is one step of the machine, so
    anything may happen between a publisher's swap, its re-read and its next swap. */
module HomeReplay {
  import opened Wrappers
  import opened ReplayItems
  import opened ReplayLineage

  const MAX_ATTEMPTS: nat := 4

  /** A stored value: a generation marker before the items, an array without a marker (written by
      older releases), or bytes that do not decode. */
  datatype Raw =
    | Marked(generation: Nonce, branch: Option<Nonce>, deleted: bool, items: Chain)
    | Unmarked(items: Chain)
    | Garbage(id: nat, length: nat)

  /** A nil slice: no bytes at all. */
  const NO_BYTES := Garbage(0, 0)

  function Length(raw: Raw): nat
  {
    match raw
    case Marked(_, _, deleted, items) => SerializedLength(deleted, items)
    case Unmarked(items) => 2 + ElementsLength(items)
    case Garbage(_, n) => n
  }

  function BranchOf(raw: Raw): Option<Nonce>
  {
    if raw.Marked? then raw.branch else None
  }

  /** The chain a reader accepts from a value: decoded, not a tombstone, and left alone by normalization. */
  function Accepted(raw: Raw): Option<Chain>
  {
    if raw.Garbage? || (raw.Marked? && raw.deleted) || raw.items == [] then None
    else match NormalizeItems(raw.items)
      case None => None
      case Some(n) => if |n| == |raw.items| then Some(n) else None
  }

  type HomeSnapshot = Snapshot<Raw>

  function Observed(raw: Raw): HomeSnapshot
  {
    if Length(raw) > MAX_SERIALIZED_BYTES then Snapshot([], true, true, NO_BYTES, None, 0)
    else Snapshot(if Accepted(raw).Some? then Accepted(raw).value else [], true, true, raw, BranchOf(raw), 0)
  }

  /** What a reader is left with when Home failed or the miss could not be fenced. */
  const UNREAD: HomeSnapshot := Snapshot([], true, false, NO_BYTES, None, 0)

  function Tombstone(minted: nat): Raw
  {
    Marked(minted, Some(minted + 1), true, [])
  }

  datatype Phase = Swapping | Reading | Finished(outcome: Outcome)
  datatype Outcome = Done | Refused | Failed

  /** A publisher between two Home operations. */
  datatype Publisher = Publisher(
    key: string, snapshot: HomeSnapshot, chain: Chain, branch: Nonce,
    expected: Raw, expectedFound: bool, attempt: nat, phase: Phase)
  {
    predicate Active() { !phase.Finished? }
    /** Whether the branch was drawn for this publish. */
    predicate OnFreshBranch() { snapshot.branch != Some(branch) }
  }

  predicate NeedsFreshBranch(snapshot: HomeSnapshot, chain: Chain)
  {
    snapshot.branch.None? || !(snapshot.items <= chain)
  }

  function Started(key: string, snapshot: HomeSnapshot, chain: Chain, drawn: Nonce): Publisher
  {
    Publisher(key, snapshot, chain, if NeedsFreshBranch(snapshot, chain) then drawn else snapshot.branch.value,
              snapshot.revision, snapshot.found, 0, Swapping)
  }

  /** A live value of the snapshot's own branch whose chain is a prefix of the one to be written. */
  predicate Resumable(snapshot: HomeSnapshot, chain: Chain, current: Option<Raw>)
  {
    && current.Some? && Length(current.value) <= MAX_SERIALIZED_BYTES
    && snapshot.branch.Some? && BranchOf(current.value) == snapshot.branch
    && Accepted(current.value).Some? && Accepted(current.value).value <= chain
  }

  /** The re-read after a lost swap: go round again only when what is there can be resumed. */
  function AfterRead(p: Publisher, current: Option<Raw>): Publisher
  {
    if !Resumable(p.snapshot, p.chain, current) || p.attempt + 1 >= MAX_ATTEMPTS
    then p.(phase := Finished(Refused))
    else p.(expected := current.value, expectedFound := true, attempt := p.attempt + 1, phase := Swapping)
  }

  /** The compare-and-swap script. */
  predicate Swaps(kv: map<string, Raw>, key: string, expectedFound: bool, expected: Raw)
  {
    if expectedFound then key in kv && kv[key] == expected else key !in kv
  }

  datatype World = World(kv: map<string, Raw>, minted: nat, snapshots: set<HomeSnapshot>, publishers: map<nat, Publisher>)

  /** `reply` is what the client learns: an operation may fail before or after taking effect. */
  datatype Event =
    | Observe(key: string)
    | Reserve(key: string, reply: bool)
    | ReadFails
    | Start(id: nat, key: string, snapshot: HomeSnapshot, items: Chain)
    | Swap(id: nat, reply: bool)
    | SwapFails(id: nat)
    | Reread(id: nat)
    | RereadFails(id: nat)
    | Overwrite(key: string, items: Chain)
    | Erase(key: string)
    | EraseIf(key: string, snapshot: HomeSnapshot)
    | Expire(key: string)

  function Found(w: World, key: string): Option<Raw>
  {
    if key in w.kv then Some(w.kv[key]) else None
  }

  predicate Enabled(w: World, e: Event)
  {
    match e
    case Observe(key) => key in w.kv
    case Reserve(key, _) => key !in w.kv
    case ReadFails => true
    case Start(id, _, snapshot, items) => id !in w.publishers && snapshot in w.snapshots && NormalizeItems(items).Some?
    case Swap(id, _) => id in w.publishers && w.publishers[id].phase == Swapping
    case SwapFails(id) => id in w.publishers && w.publishers[id].phase == Swapping
    case Reread(id) => id in w.publishers && w.publishers[id].phase == Reading
    case RereadFails(id) => id in w.publishers && w.publishers[id].phase == Reading
    case Overwrite(_, items) => NormalizeItems(items).Some?
    case Erase(_) => true
    case EraseIf(_, snapshot) => snapshot in w.snapshots
    case Expire(key) => key in w.kv
  }

  predicate SwapTakes(w: World, id: nat)
    requires id in w.publishers
  {
    var p := w.publishers[id];
    Swaps(w.kv, p.key, p.expectedFound, p.expected)
  }

  function Next(w: World, e: Event): World
    requires Enabled(w, e)
  {
    match e
    case Observe(key) => w.(snapshots := w.snapshots + {Observed(w.kv[key])})
    case Reserve(key, reply) =>
      var t := Tombstone(w.minted);
      w.(kv := w.kv[key := t], minted := w.minted + 2, snapshots := w.snapshots + {if reply then Observed(t) else UNREAD})
    case ReadFails => w.(snapshots := w.snapshots + {UNREAD})
    case Start(id, key, snapshot, items) =>
      w.(publishers := w.publishers[id := Started(key, snapshot, NormalizeItems(items).value, w.minted)], minted := w.minted + 1)
    case Swap(id, reply) =>
      var p := w.publishers[id];
      if SwapTakes(w, id) then
        w.(kv := w.kv[p.key := Marked(w.minted, Some(p.branch), false, p.chain)], minted := w.minted + 1,
           publishers := w.publishers[id := p.(phase := Finished(if reply then Done else Failed))])
      else w.(minted := w.minted + 1, publishers := w.publishers[id := p.(phase := if reply then Reading else Finished(Failed))])
    case SwapFails(id) => w.(publishers := w.publishers[id := w.publishers[id].(phase := Finished(Failed))])
    case Reread(id) =>
      var p := w.publishers[id];
      w.(publishers := w.publishers[id := AfterRead(p, Found(w, p.key))])
    case RereadFails(id) => w.(publishers := w.publishers[id := w.publishers[id].(phase := Finished(Failed))])
    case Overwrite(key, items) =>
      w.(kv := w.kv[key := Marked(w.minted, Some(w.minted + 1), false, NormalizeItems(items).value)], minted := w.minted + 2)
    case Erase(key) => w.(kv := w.kv[key := Tombstone(w.minted)], minted := w.minted + 2)
    case EraseIf(key, snapshot) =>
      if Swaps(w.kv, key, snapshot.found, snapshot.revision)
      then w.(kv := w.kv[key := Tombstone(w.minted)], minted := w.minted + 2)
      else w
    case Expire(key) => w.(kv := w.kv - {key})
  }

  /** Home may start out holding anything that older releases or strangers left there. */
  predicate Initial(w: World)
  {
    && w.snapshots == {} && w.publishers == map[]
    && (forall k :: k in w.kv ==> BranchOf(w.kv[k]) == None)
  }

  ghost predicate Run(ws: seq<World>, es: seq<Event>)
  {
    && |ws| == |es| + 1 && Initial(ws[0])
    && (forall i :: 0 <= i < |es| ==> Enabled(ws[i], es[i]) && ws[i + 1] == Next(ws[i], es[i]))
  }

  // ---------------------------------------------------------------- the invariant

  /** Values on a branch were written here: tombstones, or chains in normal form. */
  predicate Own(raw: Raw)
  {
    BranchOf(raw).Some? ==> if raw.deleted then raw.items == [] else NormalizeItems(raw.items) == Some(raw.items)
  }

  /** A value written here is read back in full: it is within the size limit and normalization leaves it alone. */
  lemma OwnValuesAreAccepted(raw: Raw)
    requires Own(raw) && BranchOf(raw).Some?
    ensures Length(raw) <= MAX_SERIALIZED_BYTES
    ensures Observed(raw) == Snapshot(raw.items, true, true, raw, raw.branch, 0)
    ensures !raw.deleted ==> Accepted(raw) == Some(raw.items)
  {
    if raw.deleted {
      assert ElementsLength([]) == 0;
    } else {
      OwnValueFits(raw.items);
    }
  }

  /** Branches drawn by publishers that may still write them. */
  ghost predicate Held(w: World, n: Nonce)
  {
    exists id :: id in w.publishers && w.publishers[id].Active() && w.publishers[id].OnFreshBranch() && w.publishers[id].branch == n
  }

  ghost function Known(w: World): set<Nonce>
  {
    set n: nat | n < w.minted && !Held(w, n)
  }

  ghost predicate ValueOk(w: World, raw: Raw)
  {
    Own(raw) && (BranchOf(raw).Some? ==> raw.branch.value in Known(w))
  }

  ghost predicate SnapshotOk(w: World, p: HomeSnapshot)
  {
    p.loaded && p.epoch == 0 && (p.branch.Some? ==> p == Observed(p.revision) && BranchOf(p.revision) == p.branch && ValueOk(w, p.revision))
  }

  /** A branch in the store never holds less than what was read from that branch. */
  predicate Extends(p: HomeSnapshot, raw: Raw)
  {
    p.branch.Some? && BranchOf(raw) == p.branch ==> p.items <= raw.items
  }

  ghost predicate PublisherOk(w: World, p: Publisher)
  {
    && p.snapshot in w.snapshots && NormalizeItems(p.chain) == Some(p.chain) && p.branch < w.minted
    && (p.OnFreshBranch() <==> NeedsFreshBranch(p.snapshot, p.chain))
    && (p.attempt == 0 ==> p.expected == p.snapshot.revision && p.expectedFound == p.snapshot.found)
    && (p.attempt > 0 ==>
          p.expectedFound && !p.OnFreshBranch() && BranchOf(p.expected) == Some(p.branch) && !p.expected.deleted && p.expected.items <= p.chain)
  }

  /** A publisher that is still going and drew its own branch. */
  predicate Holds(p: Publisher)
  {
    p.Active() && p.OnFreshBranch()
  }

  ghost predicate ValuesOk(w: World)
  {
    && (forall k :: k in w.kv ==> ValueOk(w, w.kv[k]))
    && (forall k, k' :: k in w.kv && k' in w.kv && k != k' && BranchOf(w.kv[k]).Some? ==> BranchOf(w.kv[k]) != BranchOf(w.kv[k']))
  }

  ghost predicate SnapshotsOk(w: World)
  {
    && (forall p :: p in w.snapshots ==> SnapshotOk(w, p))
    && (forall p, k :: p in w.snapshots && k in w.kv ==> Extends(p, w.kv[k]))
  }

  ghost predicate PublishersOk(w: World)
  {
    && (forall id :: id in w.publishers && w.publishers[id].Active() ==> PublisherOk(w, w.publishers[id]))
    && (forall id, id' :: id in w.publishers && id' in w.publishers && id != id' && Holds(w.publishers[id]) && Holds(w.publishers[id'])
          ==> w.publishers[id].branch != w.publishers[id'].branch)
  }

  ghost predicate Inv(w: World)
  {
    ValuesOk(w) && SnapshotsOk(w) && PublishersOk(w)
  }

  lemma KnownGrows(w: World, w': World)
    requires w.minted <= w'.minted
    requires forall id :: id in w'.publishers && Holds(w'.publishers[id]) ==>
      w.minted <= w'.publishers[id].branch ||
      (id in w.publishers && Holds(w.publishers[id]) && w.publishers[id].branch == w'.publishers[id].branch)
    ensures Known(w) <= Known(w')
  {
    forall n | n in Known(w) ensures n in Known(w') {
      forall id | id in w'.publishers && Holds(w'.publishers[id]) ensures w'.publishers[id].branch != n {
        assert id in w.publishers && Holds(w.publishers[id]) ==> Held(w, w.publishers[id].branch);
      }
    }
  }

  /** Publishers and nonces aside, nothing moved, and no branch became unknown. */
  lemma KnownKeeps(w: World, w': World)
    requires ValuesOk(w) && SnapshotsOk(w) && Known(w) <= Known(w') && w'.kv == w.kv && w'.snapshots == w.snapshots
    ensures ValuesOk(w') && SnapshotsOk(w')
  {
    forall k | k in w'.kv ensures ValueOk(w', w'.kv[k]) {
      assert ValueOk(w, w.kv[k]);
    }
    forall p | p in w'.snapshots ensures SnapshotOk(w', p) {
      assert SnapshotOk(w, p);
    }
  }

  lemma DrawKeeps(w: World, n: nat)
    requires Inv(w)
    ensures Inv(w.(minted := w.minted + n)) && Known(w) <= Known(w.(minted := w.minted + n))
  {
    var w' := w.(minted := w.minted + n);
    KnownGrows(w, w');
    KnownKeeps(w, w');
    forall id | id in w'.publishers && w'.publishers[id].Active() ensures PublisherOk(w', w'.publishers[id]) {
      assert PublisherOk(w, w.publishers[id]);
    }
  }

  /** A nonce drawn but given to no publisher is known at once. */
  lemma DrawnIsKnown(w: World, w': World, n: nat)
    requires PublishersOk(w) && w.minted <= n < w'.minted && w'.publishers == w.publishers
    ensures n in Known(w')
  {
    forall id | id in w'.publishers && Holds(w'.publishers[id]) ensures w'.publishers[id].branch != n {
      assert PublisherOk(w, w.publishers[id]);
    }
  }

  /** Storing a value on a branch that no value and no snapshot has seen. */
  lemma PutNewKeeps(w: World, key: string, raw: Raw)
    requires Inv(w) && ValueOk(w, raw) && BranchOf(raw).Some?
    requires forall k :: k in w.kv ==> BranchOf(w.kv[k]) != BranchOf(raw)
    requires forall p :: p in w.snapshots ==> p.branch != BranchOf(raw)
    ensures Inv(w.(kv := w.kv[key := raw]))
    ensures Known(w) <= Known(w.(kv := w.kv[key := raw]))
  {
    PutKeeps(w, key, raw);
  }

  /** Storing a longer chain on the branch that is there. */
  lemma PutGrownKeeps(w: World, key: string, raw: Raw)
    requires Inv(w) && ValueOk(w, raw) && BranchOf(raw).Some?
    requires key in w.kv && BranchOf(w.kv[key]) == BranchOf(raw) && w.kv[key].items <= raw.items
    ensures Inv(w.(kv := w.kv[key := raw]))
    ensures Known(w) <= Known(w.(kv := w.kv[key := raw]))
  {
    forall p | p in w.snapshots ensures Extends(p, raw) {
      assert Extends(p, w.kv[key]);
    }
    PutKeeps(w, key, raw);
  }

  lemma PutKeeps(w: World, key: string, raw: Raw)
    requires Inv(w) && ValueOk(w, raw)
    requires forall k :: k in w.kv && k != key && BranchOf(raw).Some? ==> BranchOf(w.kv[k]) != BranchOf(raw)
    requires forall p :: p in w.snapshots ==> Extends(p, raw)
    ensures Inv(w.(kv := w.kv[key := raw]))
    ensures Known(w) <= Known(w.(kv := w.kv[key := raw]))
  {
    var w' := w.(kv := w.kv[key := raw]);
    KnownGrows(w, w');
    KnownGrows(w', w);
    forall k | k in w'.kv ensures ValueOk(w', w'.kv[k]) {
      if k != key { assert ValueOk(w, w.kv[k]); }
    }
    forall p | p in w'.snapshots ensures SnapshotOk(w', p) {
      assert SnapshotOk(w, p);
    }
    forall p, k | p in w'.snapshots && k in w'.kv ensures Extends(p, w'.kv[k]) {
      if k != key { assert Extends(p, w.kv[k]); }
    }
    forall id | id in w'.publishers && w'.publishers[id].Active() ensures PublisherOk(w', w'.publishers[id]) {
      assert PublisherOk(w, w.publishers[id]);
    }
  }

  lemma RemoveKeeps(w: World, key: string)
    requires Inv(w)
    ensures Inv(w.(kv := w.kv - {key}))
  {
    var w' := w.(kv := w.kv - {key});
    KnownGrows(w, w');
    forall k | k in w'.kv ensures ValueOk(w', w'.kv[k]) {
      assert ValueOk(w, w.kv[k]);
    }
    forall p | p in w'.snapshots ensures SnapshotOk(w', p) {
      assert SnapshotOk(w, p);
    }
    forall p, k | p in w'.snapshots && k in w'.kv ensures Extends(p, w'.kv[k]) {
      assert Extends(p, w.kv[k]);
    }
    forall id | id in w'.publishers && w'.publishers[id].Active() ensures PublisherOk(w', w'.publishers[id]) {
      assert PublisherOk(w, w.publishers[id]);
    }
  }

  /** A snapshot of what is there, or of nothing. */
  lemma ObserveKeeps(w: World, p: HomeSnapshot)
    requires Inv(w) && (p == UNREAD || exists key :: key in w.kv && p == Observed(w.kv[key]))
    ensures Inv(w.(snapshots := w.snapshots + {p}))
  {
    var w' := w.(snapshots := w.snapshots + {p});
    KnownGrows(w, w');
    if p != UNREAD {
      var key :| key in w.kv && p == Observed(w.kv[key]);
      assert ValueOk(w, w.kv[key]);
      if p.branch.Some? {
        OwnValuesAreAccepted(w.kv[key]);
      }
    }
    forall k | k in w'.kv ensures ValueOk(w', w'.kv[k]) {
      assert ValueOk(w, w.kv[k]);
    }
    forall q | q in w'.snapshots ensures SnapshotOk(w', q) {
      if q != p { assert SnapshotOk(w, q); }
    }
    forall q, k | q in w'.snapshots && k in w'.kv ensures Extends(q, w'.kv[k]) {
      if q != p { assert Extends(q, w.kv[k]); }
    }
    forall id | id in w'.publishers && w'.publishers[id].Active() ensures PublisherOk(w', w'.publishers[id]) {
      assert PublisherOk(w, w.publishers[id]);
    }
  }

  /** A publisher that stops, or goes on under the same branch. */
  lemma PublisherKeeps(w: World, id: nat, p: Publisher)
    requires Inv(w) && id in w.publishers && w.publishers[id].Active()
    requires p.Active() ==> PublisherOk(w, p) && p.branch == w.publishers[id].branch && p.OnFreshBranch() == w.publishers[id].OnFreshBranch()
    ensures Inv(w.(publishers := w.publishers[id := p]))
    ensures Known(w) <= Known(w.(publishers := w.publishers[id := p]))
  {
    var w' := w.(publishers := w.publishers[id := p]);
    KnownGrows(w, w');
    KnownKeeps(w, w');
    forall i | i in w'.publishers && w'.publishers[i].Active() ensures PublisherOk(w', w'.publishers[i]) {
      if i != id { assert PublisherOk(w, w.publishers[i]); }
    }
  }

  lemma StartKeeps(w: World, e: Event)
    requires Inv(w) && e.Start? && Enabled(w, e)
    ensures Inv(Next(w, e)) && Known(w) <= Known(Next(w, e))
  {
    var w' := Next(w, e);
    NormalizeTwice(e.items);
    assert SnapshotOk(w, e.snapshot);
    forall i | i in w'.publishers && w'.publishers[i].Active() ensures PublisherOk(w', w'.publishers[i]) {
      if i != e.id { assert PublisherOk(w, w.publishers[i]); }
    }
    KnownGrows(w, w');
    KnownKeeps(w, w');
    forall i | i in w.publishers && Holds(w.publishers[i]) ensures w.publishers[i].branch < w.minted {
      assert PublisherOk(w, w.publishers[i]);
    }
  }

  /** The heart of the retry loop: a publisher that drew a fresh branch never gets past its
      re-read. What it read was no prefix of its chain, the branch only grew since, so what it
      finds there now cannot be a prefix of its chain either. */
  lemma FreshBranchNeverRetries(w: World, id: nat)
    requires Inv(w) && id in w.publishers && w.publishers[id].phase == Reading && w.publishers[id].OnFreshBranch()
    ensures AfterRead(w.publishers[id], Found(w, w.publishers[id].key)).phase == Finished(Refused)
  {
    var p := w.publishers[id];
    assert PublisherOk(w, p);
    if p.key in w.kv && p.snapshot.branch.Some? && BranchOf(w.kv[p.key]) == p.snapshot.branch {
      assert ValueOk(w, w.kv[p.key]) && Extends(p.snapshot, w.kv[p.key]);
      if !w.kv[p.key].deleted {
        OwnValuesAreAccepted(w.kv[p.key]);
      }
    }
  }

  /** A publisher that goes round again is on its snapshot's branch and knows a prefix of its chain. */
  lemma ResumedIsOk(w: World, id: nat)
    requires Inv(w) && id in w.publishers && w.publishers[id].phase == Reading
    requires AfterRead(w.publishers[id], Found(w, w.publishers[id].key)).Active()
    ensures PublisherOk(w, AfterRead(w.publishers[id], Found(w, w.publishers[id].key)))
  {
    hide NormalizeItems, Known;
    var p := w.publishers[id];
    assert PublisherOk(w, p);
    if p.OnFreshBranch() {
      FreshBranchNeverRetries(w, id);
    }
    assert ValueOk(w, w.kv[p.key]);
    OwnValuesAreAccepted(w.kv[p.key]);
  }

  lemma RereadKeeps(w: World, id: nat)
    requires Inv(w) && id in w.publishers && w.publishers[id].phase == Reading
    ensures Inv(Next(w, Reread(id))) && Known(w) <= Known(Next(w, Reread(id)))
  {
    hide ValuesOk, SnapshotsOk, PublishersOk, Known, PublisherOk, Resumable;
    var p' := AfterRead(w.publishers[id], Found(w, w.publishers[id].key));
    if p'.Active() {
      ResumedIsOk(w, id);
    }
    PublisherKeeps(w, id, p');
  }

  /** What is under the key when a swap takes effect. */
  lemma SwapTarget(w: World, id: nat)
    requires Inv(w) && id in w.publishers && w.publishers[id].phase == Swapping && SwapTakes(w, id)
    ensures var p := w.publishers[id];
      !p.OnFreshBranch() ==> p.key in w.kv && BranchOf(w.kv[p.key]) == Some(p.branch) && w.kv[p.key].items <= p.chain
  {
    var p := w.publishers[id];
    assert PublisherOk(w, p) && SnapshotOk(w, p.snapshot);
    if !p.OnFreshBranch() && p.attempt == 0 {
      OwnValuesAreAccepted(p.snapshot.revision);
    }
  }

  lemma HeldIsUnseen(w: World, id: nat)
    requires Inv(w) && id in w.publishers && Holds(w.publishers[id])
    ensures forall k :: k in w.kv ==> BranchOf(w.kv[k]) != Some(w.publishers[id].branch)
    ensures forall q :: q in w.snapshots ==> q.branch != Some(w.publishers[id].branch)
  {
    assert Held(w, w.publishers[id].branch);
    forall k | k in w.kv ensures BranchOf(w.kv[k]) != Some(w.publishers[id].branch) {
      assert ValueOk(w, w.kv[k]);
    }
    forall q | q in w.snapshots ensures q.branch != Some(w.publishers[id].branch) {
      assert SnapshotOk(w, q);
    }
  }

  /** The publisher has stopped and its nonces are drawn; the value is not stored yet. */
  function BeforeStore(w: World, id: nat, reply: bool): World
    requires id in w.publishers
  {
    w.(publishers := w.publishers[id := w.publishers[id].(phase := Finished(if reply then Done else Failed))],
       minted := w.minted + 1)
  }

  lemma BeforeStoreKeeps(w: World, id: nat, reply: bool)
    requires Inv(w) && id in w.publishers && w.publishers[id].Active()
    ensures Inv(BeforeStore(w, id, reply)) && Known(w) <= Known(BeforeStore(w, id, reply))
    ensures w.publishers[id].branch in Known(BeforeStore(w, id, reply))
  {
    hide ValuesOk, SnapshotsOk, PublishersOk, Known;
    var p := w.publishers[id].(phase := Finished(if reply then Done else Failed));
    PublisherKeeps(w, id, p);
    DrawKeeps(w.(publishers := w.publishers[id := p]), 1);
    BranchBecomesKnown(w, BeforeStore(w, id, reply), id);
  }

  function Stored(w: World, p: Publisher, generation: Nonce): World
  {
    w.(kv := w.kv[p.key := Marked(generation, Some(p.branch), false, p.chain)])
  }

  lemma StoreKeeps(w: World, id: nat, w2: World)
    requires Inv(w) && id in w.publishers && w.publishers[id].phase == Swapping && SwapTakes(w, id)
    requires Inv(w2) && w2.kv == w.kv && w2.snapshots == w.snapshots && w.publishers[id].branch in Known(w2)
    ensures Inv(Stored(w2, w.publishers[id], w.minted)) && Known(w2) <= Known(Stored(w2, w.publishers[id], w.minted))
  {
    var p := w.publishers[id];
    var raw := Marked(w.minted, Some(p.branch), false, p.chain);
    assert PublisherOk(w, p);
    assert ValueOk(w2, raw);
    if p.OnFreshBranch() {
      HeldIsUnseen(w, id);
      PutNewKeeps(w2, p.key, raw);
    } else {
      SwapTarget(w, id);
      PutGrownKeeps(w2, p.key, raw);
    }
  }

  lemma SwapKeeps(w: World, id: nat, reply: bool)
    requires Inv(w) && id in w.publishers && w.publishers[id].phase == Swapping && SwapTakes(w, id)
    ensures Inv(Next(w, Swap(id, reply))) && Known(w) <= Known(Next(w, Swap(id, reply)))
  {
    BeforeStoreKeeps(w, id, reply);
    StoreKeeps(w, id, BeforeStore(w, id, reply));
    assert Next(w, Swap(id, reply)) == Stored(BeforeStore(w, id, reply), w.publishers[id], w.minted);
  }

  lemma BranchBecomesKnown(w: World, w2: World, id: nat)
    requires Inv(w) && id in w.publishers && w.publishers[id].Active()
    requires w2.publishers.Keys == w.publishers.Keys && !w2.publishers[id].Active() && w2.minted >= w.minted
    requires forall i :: i in w.publishers && i != id ==> w2.publishers[i] == w.publishers[i]
    ensures w.publishers[id].branch in Known(w2)
  {
    var p := w.publishers[id];
    assert PublisherOk(w, p);
    if !p.OnFreshBranch() {
      assert SnapshotOk(w, p.snapshot) && ValueOk(w, p.snapshot.revision);
    }
    forall i | i in w2.publishers && Holds(w2.publishers[i]) ensures w2.publishers[i].branch != p.branch {
      assert Held(w, w.publishers[i].branch);
    }
  }

  /** A branch still to be drawn is in no value and in no snapshot. */
  lemma UndrawnIsUnseen(w: World, n: nat)
    requires Inv(w) && w.minted <= n
    ensures forall k :: k in w.kv ==> BranchOf(w.kv[k]) != Some(n)
    ensures forall p :: p in w.snapshots ==> p.branch != Some(n)
  {
    forall k | k in w.kv ensures BranchOf(w.kv[k]) != Some(n) {
      assert ValueOk(w, w.kv[k]);
    }
    forall p | p in w.snapshots ensures p.branch != Some(n) {
      assert SnapshotOk(w, p);
    }
  }

  lemma FreshValueKeeps(w: World, key: string, raw: Raw)
    requires Inv(w) && Own(raw) && BranchOf(raw) == Some(w.minted + 1)
    ensures Inv(w.(kv := w.kv[key := raw], minted := w.minted + 2))
    ensures Known(w) <= Known(w.(kv := w.kv[key := raw], minted := w.minted + 2))
  {
    hide ValuesOk, SnapshotsOk, Known, Own;
    var w1 := w.(minted := w.minted + 2);
    DrawKeeps(w, 2);
    DrawnIsKnown(w, w1, w.minted + 1);
    UndrawnIsUnseen(w, w.minted + 1);
    PutNewKeeps(w1, key, raw);
    assert w1.(kv := w1.kv[key := raw]) == w.(kv := w.kv[key := raw], minted := w.minted + 2);
  }

  lemma ReadStep(w: World, e: Event)
    requires Inv(w) && Enabled(w, e) && (e.Observe? || e.Reserve? || e.ReadFails?)
    ensures Inv(Next(w, e)) && Known(w) <= Known(Next(w, e))
  {
    var w' := Next(w, e);
    match e
    case Observe(key) =>
      ObserveKeeps(w, Observed(w.kv[key]));
      KnownGrows(w, w');
    case Reserve(key, reply) =>
      var t := Tombstone(w.minted);
      FreshValueKeeps(w, key, t);
      var w1 := w.(kv := w.kv[key := t], minted := w.minted + 2);
      assert w1.kv[key] == t;
      ObserveKeeps(w1, if reply then Observed(t) else UNREAD);
      KnownGrows(w1, w');
    case ReadFails =>
      ObserveKeeps(w, UNREAD);
      KnownGrows(w, w');
  }

  lemma WriteStep(w: World, e: Event)
    requires Inv(w) && Enabled(w, e) && (e.Overwrite? || e.Erase? || e.EraseIf? || e.Expire?)
    ensures Inv(Next(w, e)) && Known(w) <= Known(Next(w, e))
  {
    match e
    case Overwrite(key, items) =>
      NormalizeTwice(items);
      FreshValueKeeps(w, key, Next(w, e).kv[key]);
    case Erase(key) =>
      FreshValueKeeps(w, key, Tombstone(w.minted));
    case EraseIf(key, _) =>
      FreshValueKeeps(w, key, Tombstone(w.minted));
    case Expire(key) =>
      RemoveKeeps(w, key);
      KnownGrows(w, Next(w, e));
  }

  lemma StopStep(w: World, id: nat, p: Publisher)
    requires Inv(w) && id in w.publishers && w.publishers[id].Active() && p == w.publishers[id].(phase := p.phase)
    ensures Inv(w.(publishers := w.publishers[id := p]))
    ensures Known(w) <= Known(w.(publishers := w.publishers[id := p]))
  {
    assert PublisherOk(w, w.publishers[id]);
    PublisherKeeps(w, id, p);
  }

  lemma Step(w: World, e: Event)
    requires Inv(w) && Enabled(w, e)
    ensures Inv(Next(w, e)) && Known(w) <= Known(Next(w, e))
  {
    hide ValuesOk, SnapshotsOk, PublishersOk, Known, NormalizeItems;
    match e
    case Start(_, _, _, _) => StartKeeps(w, e);
    case Swap(id, reply) =>
      if SwapTakes(w, id) {
        SwapKeeps(w, id, reply);
      } else {
        var p := w.publishers[id].(phase := if reply then Reading else Finished(Failed));
        StopStep(w, id, p);
        DrawKeeps(w.(publishers := w.publishers[id := p]), 1);
      }
    case SwapFails(id) => StopStep(w, id, w.publishers[id].(phase := Finished(Failed)));
    case Reread(id) => RereadKeeps(w, id);
    case RereadFails(id) => StopStep(w, id, w.publishers[id].(phase := Finished(Failed)));
    case _ =>
      if e.Observe? || e.Reserve? || e.ReadFails? { ReadStep(w, e); } else { WriteStep(w, e); }
  }

  // ---------------------------------------------------------------- whole runs

  lemma {:induction false} InvAlways(ws: seq<World>, es: seq<Event>, i: nat)
    requires Run(ws, es) && i < |ws|
    ensures Inv(ws[i])
  {
    if i > 0 {
      InvAlways(ws, es, i - 1);
      Step(ws[i - 1], es[i - 1]);
    } else {
      assert forall k :: k in ws[0].kv ==> Own(ws[0].kv[k]);
    }
  }

  ghost function FrameOf(w: World): Frame
  {
    Frame(map k | k in w.kv && BranchOf(w.kv[k]).Some? :: Live(w.kv[k].branch.value, w.kv[k].items), Known(w))
  }

  lemma InvIsSound(w: World)
    requires Inv(w)
    ensures Sound(FrameOf(w))
  {
    assert forall k :: k in w.kv ==> ValueOk(w, w.kv[k]);
  }

  /** Any step: a branch under a key is one that was in no value before, or the key's own with a prefix of the chain. */
  lemma StepEvolves(w: World, e: Event)
    requires Inv(w) && Enabled(w, e)
    ensures Evolves(FrameOf(w), FrameOf(Next(w, e)))
  {
    Step(w, e);
    var w' := Next(w, e);
    var f, f' := FrameOf(w), FrameOf(w');
    if e.Swap? && SwapTakes(w, e.id) {
      SwapTarget(w, e.id);
      if w.publishers[e.id].OnFreshBranch() { assert Held(w, w.publishers[e.id].branch); }
    }
    forall k | k in f'.view ensures Carried(f, f', k) {
    }
  }

  ghost function Frames(ws: seq<World>): seq<Frame>
  {
    seq(|ws|, i requires 0 <= i < |ws| => FrameOf(ws[i]))
  }

  lemma RunIsHistory(ws: seq<World>, es: seq<Event>)
    requires Run(ws, es)
    ensures History(Frames(ws))
  {
    var fs := Frames(ws);
    forall i | 0 <= i < |fs| ensures Sound(fs[i]) {
      InvAlways(ws, es, i);
      InvIsSound(ws[i]);
    }
    forall i | 0 < i < |fs| ensures Evolves(fs[i - 1], fs[i]) {
      InvAlways(ws, es, i - 1);
      StepEvolves(ws[i - 1], es[i - 1]);
    }
  }

  /** Branch lineage in Home, however the operations of all its clients interleave. */
  lemma HomeBranchLineage(ws: seq<World>, es: seq<Event>, i: nat, j: nat, k: string, k': string)
    requires Run(ws, es) && i <= j < |ws| && k in ws[i].kv && k' in ws[j].kv
    requires BranchOf(ws[i].kv[k]).Some? && BranchOf(ws[i].kv[k]) == BranchOf(ws[j].kv[k'])
    ensures k == k' && ws[i].kv[k].items <= ws[j].kv[k'].items
  {
    RunIsHistory(ws, es);
    LineageOfHistory(Frames(ws), i, j, k, k');
  }

  // ---------------------------------------------------------------- refinement

  /** Home's value as the local register's entry, its bytes standing for the revision. */
  function EntryOf(w: World, key: string): Option<Entry<Raw>>
  {
    match Found(w, key)
    case None => None
    case Some(raw) =>
      Some(Entry(if raw.Garbage? then [] else raw.items, 0, raw, BranchOf(raw), raw.Marked? && raw.deleted))
  }

  /** Every swap that takes effect is a publish the local rule allows for the same snapshot, and it
      leaves the branch that rule would leave: the kept one, or one never used before. */
  lemma HomePublishRefinesLocal(w: World, id: nat)
    requires Inv(w) && id in w.publishers && w.publishers[id].phase == Swapping && SwapTakes(w, id)
    ensures var p := w.publishers[id];
      match Decide(EntryOf(w, p.key), 0, p.snapshot, p.chain)
      case Refuse => false
      case Keep(b) => p.branch == b
      case Fresh => p.branch !in Known(w)
  {
    var p := w.publishers[id];
    assert PublisherOk(w, p) && SnapshotOk(w, p.snapshot);
    SwapTarget(w, id);
    if p.OnFreshBranch() {
      assert Held(w, p.branch);
    }
  }

  /** A publish that succeeds on a retry keeps the branch of its snapshot. */
  lemma RetryKeepsBranch(w: World, id: nat)
    requires Inv(w) && id in w.publishers && w.publishers[id].phase == Swapping && w.publishers[id].attempt > 0
    ensures w.publishers[id].snapshot.branch == Some(w.publishers[id].branch)
  {
    assert PublisherOk(w, w.publishers[id]);
  }

  /** A swap only takes effect on the branch its snapshot was read from. */
  lemma SwapNeedsBranch(w: World, id: nat)
    requires Inv(w) && id in w.publishers && w.publishers[id].phase == Swapping && SwapTakes(w, id)
    requires w.publishers[id].snapshot.branch.Some?
    ensures w.publishers[id].key in w.kv && BranchOf(w.kv[w.publishers[id].key]) == w.publishers[id].snapshot.branch
  {
    var p := w.publishers[id];
    assert PublisherOk(w, p) && SnapshotOk(w, p.snapshot);
  }

  /** Once a key has left the branch of a snapshot, no publish or delete that relies on the
      snapshot ever takes effect on it, whenever it started and however often it retries. */
  lemma HomeDeadSnapshotsStayDead(ws: seq<World>, es: seq<Event>, i: nat, j: nat, key: string, snapshot: HomeSnapshot)
    requires Run(ws, es) && i <= j < |es|
    requires snapshot in ws[i].snapshots && snapshot.branch.Some?
    requires key in ws[i].kv ==> BranchOf(ws[i].kv[key]) != snapshot.branch
    ensures es[j].Swap? && ws[j].publishers[es[j].id].key == key && ws[j].publishers[es[j].id].snapshot == snapshot
      ==> !SwapTakes(ws[j], es[j].id)
    ensures es[j].EraseIf? && es[j].key == key && es[j].snapshot == snapshot ==> ws[j + 1] == ws[j]
  {
    RunIsHistory(ws, es);
    InvAlways(ws, es, i);
    InvAlways(ws, es, j);
    assert SnapshotOk(ws[i], snapshot);
    BranchNeverReturns(Frames(ws), i, j, key, snapshot.branch.value);
    assert Enabled(ws[j], es[j]);
    if es[j].Swap? && ws[j].publishers[es[j].id].snapshot == snapshot && SwapTakes(ws[j], es[j].id) {
      SwapNeedsBranch(ws[j], es[j].id);
    }
  }

  // ---------------------------------------------------------------- the retry loop

  datatype SwapReply = Took | Lost | Broke
  datatype ReadReply = Value(current: Option<Raw>) | Unreadable

  /** What Home answers in one round of the loop: to the swap and, when it was lost, to the re-read. */
  datatype Answer = Answer(swap: SwapReply, reread: ReadReply)

  function Round(p: Publisher, a: Answer): (q: Publisher)
    ensures q.Active() ==> q.phase == Swapping && q.attempt == p.attempt + 1 < MAX_ATTEMPTS
    ensures (q.key, q.snapshot, q.chain, q.branch) == (p.key, p.snapshot, p.chain, p.branch)
  {
    match a.swap
    case Took => p.(phase := Finished(Done))
    case Broke => p.(phase := Finished(Failed))
    case Lost => if a.reread.Unreadable? then p.(phase := Finished(Failed)) else AfterRead(p, a.reread.current)
  }

  /** The loop after as many rounds as Home gave answers for. */
  function Driven(start: Publisher, answers: seq<Answer>): Publisher
  {
    if answers == [] then start
    else
      var q := Driven(start, answers[..|answers| - 1]);
      if q.phase == Swapping then Round(q, answers[|answers| - 1]) else q
  }

  lemma OneMoreRound(start: Publisher, answers: seq<Answer>, a: Answer)
    requires Driven(start, answers).phase == Swapping
    ensures Driven(start, answers + [a]) == Round(Driven(start, answers), a)
  {
    assert (answers + [a])[..|answers|] == answers;
  }

  /** Attempts are counted, and a loop that has answers for all of them is over. */
  lemma {:induction false} AttemptsAreCounted(start: Publisher, answers: seq<Answer>)
    requires start.attempt == 0 && start.phase == Swapping
    ensures var q := Driven(start, answers);
      (q.phase == Swapping ==> q.attempt == |answers| < MAX_ATTEMPTS) && (q.phase.Finished? || q.phase == Swapping)
  {
    if answers != [] {
      AttemptsAreCounted(start, answers[..|answers| - 1]);
    }
  }

  /** Once it is over, more answers change nothing. */
  lemma {:induction false} FinishedStays(start: Publisher, answers: seq<Answer>, n: nat)
    requires n <= |answers| && Driven(start, answers[..n]).phase.Finished?
    ensures Driven(start, answers) == Driven(start, answers[..n])
    decreases |answers|
  {
    if n == |answers| {
      assert answers[..n] == answers;
    } else {
      assert answers[..|answers| - 1][..n] == answers[..n];
      FinishedStays(start, answers[..|answers| - 1], n);
    }
  }

  // ---------------------------------------------------------------- the loop as the machine runs it

  /** The answer that an event gives publisher `id`, if it ends a round: a swap that takes and is answered, a
      swap whose answer is lost or that never happens, or the re-read after a lost swap. */
  function AnswerIn(w: World, e: Event, id: nat): seq<Answer>
    requires Enabled(w, e)
  {
    match e
    case Swap(i, reply) =>
      if i != id then []
      else if !reply then [Answer(Broke, Unreadable)]
      else if SwapTakes(w, id) then [Answer(Took, Unreadable)]
      else []
    case SwapFails(i) => if i == id then [Answer(Broke, Unreadable)] else []
    case Reread(i) => if i == id then [Answer(Lost, Value(Found(w, w.publishers[id].key)))] else []
    case RereadFails(i) => if i == id then [Answer(Lost, Unreadable)] else []
    case _ => []
  }

  /** All answers to it from event `i` on, before event `j`. */
  function Answers(ws: seq<World>, es: seq<Event>, i: nat, j: nat, id: nat): seq<Answer>
    requires |ws| == |es| + 1 && i <= j <= |es| && forall k :: 0 <= k < |es| ==> Enabled(ws[k], es[k])
    decreases j
  {
    if i == j then [] else Answers(ws, es, i, j - 1, id) + AnswerIn(ws[j - 1], es[j - 1], id)
  }

  /** Where a publisher is: where the loop is after its answers, or waiting for the re-read after a lost swap. */
  predicate At(start: Publisher, p: Publisher, answers: seq<Answer>)
  {
    var q := Driven(start, answers);
    p == q || (q.phase == Swapping && p == q.(phase := Reading))
  }

  lemma LoopStep(w: World, e: Event, start: Publisher, id: nat, answers: seq<Answer>)
    requires Enabled(w, e) && id in w.publishers && At(start, w.publishers[id], answers)
    requires start.phase == Swapping && start.attempt == 0
    ensures id in Next(w, e).publishers && At(start, Next(w, e).publishers[id], answers + AnswerIn(w, e, id))
  {
    AttemptsAreCounted(start, answers);
    var given := AnswerIn(w, e, id);
    if given == [] {
      assert answers + given == answers;
    } else {
      RoundIsStep(w, e, id);
      OneMoreRound(start, answers, given[0]);
    }
  }

  /** An answer is a round, for the publisher that it is for: whatever the machine did between a lost swap
      and its re-read, together they are one round of the loop. */
  lemma RoundIsStep(w: World, e: Event, id: nat)
    requires Enabled(w, e) && AnswerIn(w, e, id) != []
    ensures id in w.publishers && w.publishers[id].Active() && |AnswerIn(w, e, id)| == 1
    ensures Next(w, e).publishers[id] == Round(w.publishers[id].(phase := Swapping), AnswerIn(w, e, id)[0])
  {
  }

  lemma AtFirst(p: Publisher)
    ensures At(p, p, [])
  {
  }

  lemma {:induction false} StaysInLoop(ws: seq<World>, es: seq<Event>, i: nat, j: nat, id: nat)
    requires Run(ws, es) && i <= j < |ws| && id in ws[i].publishers
    requires ws[i].publishers[id].phase == Swapping && ws[i].publishers[id].attempt == 0
    ensures id in ws[j].publishers && At(ws[i].publishers[id], ws[j].publishers[id], Answers(ws, es, i, j, id))
    decreases j
  {
    hide At, Driven, AnswerIn, Next;
    if i == j {
      AtFirst(ws[i].publishers[id]);
    } else {
      StaysInLoop(ws, es, i, j - 1, id);
      LoopStep(ws[j - 1], es[j - 1], ws[i].publishers[id], id, Answers(ws, es, i, j - 1, id));
    }
  }

  /** In every run, and at any time, a publisher is where the loop is after the answers it got so far; it never
      got more than there are attempts; and when it is over, it is where the loop ends on those answers,
      whatever might have followed. */
  lemma PublisherRunsTheLoop(ws: seq<World>, es: seq<Event>, i: nat, j: nat, more: seq<Answer>)
    requires Run(ws, es) && i < j < |ws| && es[i].Start?
    ensures var start := Started(es[i].key, es[i].snapshot, NormalizeItems(es[i].items).value, ws[i].minted);
      var id, answers := es[i].id, Answers(ws, es, i + 1, j, es[i].id);
      && id in ws[j].publishers && At(start, ws[j].publishers[id], answers)
      && (ws[j].publishers[id].Active() ==> |answers| < MAX_ATTEMPTS)
      && (ws[j].publishers[id].phase.Finished? ==> ws[j].publishers[id] == Driven(start, answers + more))
  {
    var id, answers := es[i].id, Answers(ws, es, i + 1, j, es[i].id);
    assert ws[i + 1] == Next(ws[i], es[i]);
    StaysInLoop(ws, es, i + 1, j, id);
    var start := ws[i + 1].publishers[id];
    AttemptsAreCounted(start, answers);
    if ws[j].publishers[id].phase.Finished? {
      assert (answers + more)[..|answers|] == answers;
      FinishedStays(start, answers + more, |answers|);
    }
  }

  method MayResume(snapshot: HomeSnapshot, chain: Chain, current: Option<Raw>) returns (r: bool)
    ensures r <==> Resumable(snapshot, chain, current)
  {
    if current.None? || Length(current.value) > MAX_SERIALIZED_BYTES {
      return false;
    }
    var raw := current.value;
    if raw.Garbage? || (raw.Marked? && raw.deleted) || snapshot.branch.None? || BranchOf(raw) != snapshot.branch {
      return false;
    }
    var normalized := Normalize(raw.items);
    if normalized.None? || |normalized.value| != |raw.items| {
      return false;
    }
    r := IsItemsPrefix(normalized.value, chain);
  }

  function ValueOf(p: Publisher, drawn: Nonce): Option<Raw>
  {
    if p.phase == Finished(Done) then Some(Marked(drawn + 1 + p.attempt, Some(p.branch), false, p.chain)) else None
  }

  /** With a snapshot that was read, the loop; without one, a plain set. `drawn` numbers the nonces of this
      call, `wrote` is the answer to the set. */
  method ReplaceIfUnchanged(key: string, snapshot: HomeSnapshot, items: Chain, drawn: Nonce,
                            answers: seq<Answer>, wrote: bool) returns (r: Outcome, written: Option<Raw>)
    requires |answers| == MAX_ATTEMPTS
    ensures key == "" ==> r == Refused && written == None
    ensures key != "" && NormalizeItems(items).None? ==> r == Failed && written == None
    ensures key != "" && NormalizeItems(items).Some? && !snapshot.loaded ==>
      if wrote then r == Done && written == Some(Marked(drawn + 1, Some(drawn), false, NormalizeItems(items).value))
      else r == Refused && written == None
    ensures key != "" && NormalizeItems(items).Some? && snapshot.loaded ==>
      var end := Driven(Started(key, snapshot, NormalizeItems(items).value, drawn), answers);
      end.phase == Finished(r) && written == ValueOf(end, drawn)
  {
    hide NormalizeItems;
    if key == "" {
      return Refused, None;
    }
    var normalized := Normalize(items);
    if normalized.None? {
      return Failed, None;
    }
    var chain := normalized.value;
    if !snapshot.loaded {
      NormalizeTwice(items);
      r, written := CacheBestEffort(key, chain, drawn, wrote);
      return;
    }
    var branch := drawn;
    if snapshot.branch.Some? {
      var grows := IsItemsPrefix(snapshot.items, chain);
      branch := if grows then snapshot.branch.value else drawn;
    }
    var attempt; r, attempt := SwapLoop(Started(key, snapshot, chain, drawn), answers);
    DrivenKeeps(Started(key, snapshot, chain, drawn), answers);
    written := if r == Done then Some(Marked(drawn + 1 + attempt, Some(branch), false, chain)) else None;
  }

  /** The unconditional set; it reports a failure as nothing written. */
  method CacheBestEffort(key: string, items: Chain, drawn: Nonce, wrote: bool) returns (r: Outcome, written: Option<Raw>)
    ensures if key != "" && wrote && NormalizeItems(items).Some?
            then r == Done && written == Some(Marked(drawn + 1, Some(drawn), false, NormalizeItems(items).value))
            else r == Refused && written == None
  {
    hide NormalizeItems;
    if key == "" {
      return Refused, None;
    }
    var normalized := Normalize(items);
    if normalized.None? || !wrote {
      return Refused, None;
    }
    return Done, Some(Marked(drawn + 1, Some(drawn), false, normalized.value));
  }

  lemma {:induction false} DrivenKeeps(start: Publisher, answers: seq<Answer>)
    ensures var q := Driven(start, answers); (q.key, q.snapshot, q.chain, q.branch) == (start.key, start.snapshot, start.chain, start.branch)
  {
    if answers != [] {
      DrivenKeeps(start, answers[..|answers| - 1]);
    }
  }

  method SwapRound(ghost p: Publisher, snapshot: HomeSnapshot, chain: Chain, attempt: nat, a: Answer)
    returns (end: Option<Outcome>)
    requires p.snapshot == snapshot && p.chain == chain && p.attempt == attempt < MAX_ATTEMPTS && p.phase == Swapping
    ensures end.None? ==> Round(p, a).phase == if attempt + 1 < MAX_ATTEMPTS then Swapping else Finished(Refused)
    ensures end.None? ==> a.reread.Value? && a.reread.current.Some?
    ensures end.None? && attempt + 1 < MAX_ATTEMPTS ==>
      Round(p, a) == p.(expected := a.reread.current.value, expectedFound := true, attempt := attempt + 1)
    ensures end.Some? ==> Round(p, a) == p.(phase := Finished(end.value)) && (end.value == Done <==> a.swap.Took?)
  {
    if a.swap.Took? {
      return Some(Done);
    }
    if a.swap.Broke? || a.reread.Unreadable? {
      return Some(Failed);
    }
    var goOn := MayResume(snapshot, chain, a.reread.current);
    return if goOn then None else Some(Refused);
  }

  method SwapLoop(start: Publisher, answers: seq<Answer>) returns (r: Outcome, attempt: nat)
    requires |answers| == MAX_ATTEMPTS && start.attempt == 0 && start.phase == Swapping
    ensures Driven(start, answers).phase == Finished(r)
    ensures r == Done ==> Driven(start, answers).attempt == attempt
  {
    hide Round;
    var expected, expectedFound := start.expected, start.expectedFound;
    attempt := 0;
    ghost var p := start;
    while attempt < MAX_ATTEMPTS
      invariant attempt <= MAX_ATTEMPTS
      invariant p == Driven(start, answers[..attempt])
      invariant attempt < MAX_ATTEMPTS ==> p.snapshot == start.snapshot && p.chain == start.chain
      invariant attempt < MAX_ATTEMPTS ==> p.attempt == attempt && p.phase == Swapping
      invariant attempt < MAX_ATTEMPTS ==> p.expected == expected && p.expectedFound == expectedFound
      invariant attempt == MAX_ATTEMPTS ==> p.phase == Finished(Refused)
    {
      var out := SwapRound(p, start.snapshot, start.chain, attempt, answers[attempt]);
      OneMoreRound(start, answers[..attempt], answers[attempt]);
      PrefixGrows(answers, attempt);
      p := Round(p, answers[attempt]);
      if out.Some? {
        FinishedStays(start, answers, attempt + 1);
        return out.value, attempt;
      }
      expected, expectedFound, attempt := answers[attempt].reread.current.value, true, attempt + 1;
    }
    FinishedStays(start, answers, MAX_ATTEMPTS);
    r := Refused;
  }

  lemma PrefixGrows<T>(s: seq<T>, n: nat)
    requires n < |s|
    ensures s[..n + 1] == s[..n] + [s[n]]
  {
  }
}
