/** A register that is full: a plain read of one session ends the snapshot that another session still holds. */
module ReplayFull {
  import opened Wrappers
  import opened ReplayItems
  import opened ReplayLineage
  import opened ReplayRegister
  import opened ReplayRuns

  /** Different keys, by their length. */
  function KeyOf(i: nat): (k: string)
    ensures |k| == i + 1
  {
    seq(i + 1, _ => 'k')
  }

  /** What reading key `i` at time `i` leaves. */
  function EntryOf(i: nat): LocalEntry
  {
    Entry([], i, i + 1, Some(i), true)
  }

  function EntriesTo(n: nat): (m: map<string, LocalEntry>)
    ensures |m| == n
    ensures forall k :: k in m <==> 1 <= |k| <= n && k == KeyOf(|k| - 1)
    ensures forall k :: k in m ==> m[k] == EntryOf(|k| - 1)
  {
    if n == 0 then map[] else EntriesTo(n - 1)[KeyOf(n - 1) := EntryOf(n - 1)]
  }

  /** The register after the keys below `n` were read, each once, and nothing else happened. */
  function Filled(n: nat): Store
  {
    Store(EntriesTo(n), n, 0, n)
  }

  function SnapshotsTo(n: nat): set<LocalSnapshot>
  {
    if n == 0 then {} else SnapshotsTo(n - 1) + {SnapshotOf(EntryOf(n - 1), 0)}
  }

  lemma ReadWithRoom(s: Store, key: string, now: int)
    requires |s.entries| < MAX_ENTRIES && key != "" && key !in s.entries
    ensures var s' := RevisedFresh(s, key, [], now, true); Reads(s, s', key, now, SnapshotOf(s'.entries[key], s'.epoch))
  {
    assert MakesRoom(s, s);
  }

  lemma OneMore(n: nat)
    ensures KeyOf(n) !in Filled(n).entries && |Filled(n).entries| == n
    ensures Filled(n + 1) == RevisedFresh(Filled(n), KeyOf(n), [], n, true) && Filled(n + 1).entries[KeyOf(n)] == EntryOf(n)
  {
  }

  lemma OneMoreRead(n: nat)
    requires n < MAX_ENTRIES
    ensures Reads(Filled(n), Filled(n + 1), KeyOf(n), n, SnapshotOf(EntryOf(n), 0))
  {
    hide Reads, EntriesTo, RevisedFresh;
    OneMore(n);
    ReadWithRoom(Filled(n), KeyOf(n), n);
  }

  /** The entries below `n` without the first `count`. */
  function Rest(n: nat, count: nat): map<string, LocalEntry>
  {
    EntriesTo(n) - EntriesTo(count).Keys
  }

  /** With every key older than the next, the first `count` are the ones to go. */
  lemma FirstGo(n: nat, count: nat)
    requires count <= n
    ensures EvictsOldest(Filled(n), Store(Rest(n, count), n, count, n), count)
  {
    assert EntriesTo(count).Keys <= EntriesTo(n).Keys;
    RemovedCount(EntriesTo(n), EntriesTo(count).Keys);
  }

  /** The register that held `n` keys, after one more is read and the first `count` made room for it. */
  function Overfilled(n: nat, count: nat): Store
  {
    RevisedFresh(Store(Rest(n, count), n, count, n), KeyOf(n), [], n, true)
  }

  lemma ReadOfFull(s: Store, room: Store, key: string, now: int)
    requires |s.entries| >= MAX_ENTRIES && EvictsOldest(s, room, EVICT_BATCH) && key != "" && key !in s.entries
    ensures var s' := RevisedFresh(room, key, [], now, true); Reads(s, s', key, now, SnapshotOf(s'.entries[key], s'.epoch))
  {
    hide EvictsOldest;
    assert MakesRoom(s, room);
  }

  /** With every key read later than the one before it, the first ones make room for the last. */
  lemma LastRead(n: nat, count: nat)
    requires n == MAX_ENTRIES && count == EVICT_BATCH
    ensures Reads(Filled(n), Overfilled(n, count), KeyOf(n), n, SnapshotOf(EntryOf(n), count))
  {
    hide EvictsOldest, Reads, Rest, Filled, EntriesTo, RevisedFresh;
    FirstGo(n, count);
    LastIsNew(n, count);
    ReadOfFull(Filled(n), Store(Rest(n, count), n, count, n), KeyOf(n), n);
  }

  lemma LastIsNew(n: nat, count: nat)
    ensures |Filled(n).entries| == n && KeyOf(n) !in Filled(n).entries
    ensures var s := Overfilled(n, count); KeyOf(n) in s.entries && s.entries[KeyOf(n)] == EntryOf(n) && s.epoch == count
  {
    hide Rest;
  }

  lemma FirstIsGone(n: nat, count: nat)
    requires 0 < count <= n
    ensures KeyOf(0) in Filled(n).entries && Filled(n).entries[KeyOf(0)] == EntryOf(0)
    ensures KeyOf(0) !in Overfilled(n, count).entries
  {
    assert KeyOf(0) in EntriesTo(count);
    assert |KeyOf(0)| != |KeyOf(n)|;
  }

  function Worlds(n: nat, count: nat): (ws: seq<World>)
    ensures |ws| == n + 2
  {
    seq(n + 1, i requires 0 <= i < n + 1 => World(Filled(i), SnapshotsTo(i)))
    + [World(Overfilled(n, count), SnapshotsTo(n) + {SnapshotOf(EntryOf(n), count)})]
  }

  function OnlyReads(n: nat, count: nat): (es: seq<Event>)
    ensures |es| == n + 1
  {
    seq(n, i requires 0 <= i < n => Got(KeyOf(i), i, SnapshotOf(EntryOf(i), 0))) + [Got(KeyOf(n), n, SnapshotOf(EntryOf(n), count))]
  }

  lemma NextRead(i: nat)
    requires i < MAX_ENTRIES
    ensures Next(World(Filled(i), SnapshotsTo(i)), World(Filled(i + 1), SnapshotsTo(i + 1)), Got(KeyOf(i), i, SnapshotOf(EntryOf(i), 0)))
  {
    hide Reads, Filled;
    OneMoreRead(i);
  }

  lemma EmptyAtFirst()
    ensures World(Filled(0), SnapshotsTo(0)) == World(Store(map[], 0, 0, 0), {})
  {
  }

  lemma IsRun(n: nat, count: nat)
    requires n == MAX_ENTRIES && count == EVICT_BATCH
    ensures Run(Worlds(n, count), OnlyReads(n, count))
  {
    hide Reads, Filled, Overfilled, SnapshotsTo, EntryOf, SnapshotOf;
    var ws, es := Worlds(n, count), OnlyReads(n, count);
    EmptyAtFirst();
    forall i | 0 <= i < |es| ensures Next(ws[i], ws[i + 1], es[i]) {
      if i < n { NextRead(i); } else { LastRead(n, count); }
    }
  }

  lemma {:induction false} FirstSnapshot(n: nat)
    requires n > 0
    ensures SnapshotOf(EntryOf(0), 0) in SnapshotsTo(n)
  {
    if n > 1 { FirstSnapshot(n - 1); }
  }

  /** A run of nothing but reads, the last one of another key, in which the last read turns a publish that
      the snapshot allows into one that is refused. */
  ghost predicate EndedByRead(ws: seq<World>, es: seq<Event>, key: string, p: LocalSnapshot, chain: Chain)
  {
    && Run(ws, es) && es != [] && (forall i :: 0 <= i < |es| ==> es[i].Got?) && es[|es| - 1].key != key
    && p in ws[|es| - 1].snapshots && p.loaded
    && Decide(Lookup(ws[|es| - 1].store, key), ws[|es| - 1].store.epoch, p, chain) != Refuse
    && Decide(Lookup(ws[|es|].store, key), ws[|es|].store.epoch, p, chain) == Refuse
  }

  /** Reading enough other sessions is enough to end a snapshot: as many as fit, and one more. */
  lemma ReadCanEndSnapshot(chain: Chain)
    ensures exists ws, es, key, p :: EndedByRead(ws, es, key, p, chain)
  {
    var n: nat, count: nat :| n == MAX_ENTRIES && count == EVICT_BATCH;
    FirstIsEnded(chain, n, count);
  }

  lemma FirstIsEnded(chain: Chain, n: nat, count: nat)
    requires n == MAX_ENTRIES && count == EVICT_BATCH
    ensures EndedByRead(Worlds(n, count), OnlyReads(n, count), KeyOf(0), SnapshotOf(EntryOf(0), 0), chain)
  {
    hide Run, EntriesTo, SnapshotsTo, Filled, Overfilled;
    IsRun(n, count);
    FirstIsGone(n, count);
    FirstSnapshot(n);
    assert |KeyOf(0)| != |KeyOf(n)|;
  }
}
