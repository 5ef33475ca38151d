/** The in-process replay register: a bounded map of chains guarded by one mutex. Each
    method is one critical section. */
module ReplayRegister {
  import opened Wrappers
  import opened ReplayItems
  import opened ReplayLineage

  /** One hour, in nanoseconds. */
  const TTL: int := 3_600_000_000_000
  const MAX_ENTRIES: nat := 10240
  const EVICT_BATCH: nat := 128

  type LocalEntry = Entry<nat>
  type LocalSnapshot = Snapshot<nat>

  /** The register as a value. */
  datatype Store = Store(entries: map<string, LocalEntry>, nextRevision: nat, epoch: nat, minted: nat)

  function Lookup(s: Store, key: string): Option<LocalEntry>
  {
    if key in s.entries then Some(s.entries[key]) else None
  }

  predicate Expired(e: LocalEntry, now: int)
  {
    now - e.timestamp > TTL
  }

  function Min(a: nat, b: nat): nat
  {
    if a < b then a else b
  }

  /** `s` is `m` without `min(count, size)` entries, none of them younger than a survivor;
      the epoch counts them. Which of several equally old entries go is left open. */
  ghost predicate EvictsOldest(m: Store, s: Store, count: nat)
  {
    && s.entries.Keys <= m.entries.Keys
    && (forall k :: k in s.entries ==> s.entries[k] == m.entries[k])
    && |s.entries| == |m.entries| - Min(count, |m.entries|)
    && (forall gone, kept :: gone in m.entries && gone !in s.entries && kept in s.entries
          ==> m.entries[gone].timestamp <= m.entries[kept].timestamp)
    && s.epoch == m.epoch + |m.entries| - |s.entries|
    && s.nextRevision == m.nextRevision && s.minted == m.minted
  }

  /** After a write: back under capacity. */
  ghost predicate Settles(m: Store, s: Store)
  {
    if |m.entries| > MAX_ENTRIES then EvictsOldest(m, s, EVICT_BATCH) else s == m
  }

  /** Before a reservation: room for one more. */
  ghost predicate MakesRoom(m: Store, s: Store)
  {
    if |m.entries| >= MAX_ENTRIES then EvictsOldest(m, s, EVICT_BATCH) else s == m
  }

  /** `s` with a new revision of `key` on `branch`. */
  function Revised(s: Store, key: string, items: Chain, now: int, branch: Nonce, deleted: bool): Store
  {
    s.(entries := s.entries[key := Entry(items, now, s.nextRevision + 1, Some(branch), deleted)],
       nextRevision := s.nextRevision + 1)
  }

  /** The same on a branch that is drawn for this write. */
  function RevisedFresh(s: Store, key: string, items: Chain, now: int, deleted: bool): Store
  {
    Revised(s, key, items, now, s.minted, deleted).(minted := s.minted + 1)
  }

  function SnapshotOf(e: LocalEntry, epoch: nat): LocalSnapshot
  {
    Snapshot(if e.deleted then [] else e.items, true, true, e.revision, e.branch, epoch)
  }

  const UNLOADED: LocalSnapshot := Snapshot([], false, false, 0, None, 0)

  /** A miss leaves a tombstone on a fresh branch, so that even "nothing here" can be recognized later. */
  ghost predicate Reserves(s: Store, s': Store, key: string, now: int, snapshot: LocalSnapshot)
  {
    exists room :: MakesRoom(s, room) && s' == RevisedFresh(room, key, [], now, true) &&
                   snapshot == SnapshotOf(s'.entries[key], s'.epoch)
  }

  function Forgotten(s: Store, key: string): Store
    requires key in s.entries
  {
    s.(entries := s.entries - {key}, epoch := s.epoch + 1)
  }

  ghost predicate Reads(s: Store, s': Store, key: string, now: int, snapshot: LocalSnapshot)
  {
    if key == "" then s' == s && snapshot == UNLOADED
    else match Lookup(s, key)
    case None => Reserves(s, s', key, now, snapshot)
    case Some(e) =>
      if Expired(e, now) then Reserves(Forgotten(s, key), s', key, now, snapshot)
      else s' == s.(entries := s.entries[key := e.(timestamp := now)]) && snapshot == SnapshotOf(e, s.epoch)
  }

  datatype Outcome = Invalid | Refused | Done

  ghost predicate Overwrites(s: Store, s': Store, key: string, items: Chain, now: int, ok: bool)
  {
    if key == "" || NormalizeItems(items).None? then !ok && s' == s
    else ok && Settles(RevisedFresh(s, key, NormalizeItems(items).value, now, false), s')
  }

  ghost predicate Publishes(s: Store, s': Store, key: string, snapshot: LocalSnapshot, items: Chain, now: int, r: Outcome)
  {
    if key == "" then r == Refused && s' == s
    else match NormalizeItems(items)
    case None => r == Invalid && s' == s
    case Some(chain) =>
      if !snapshot.loaded then r != Invalid && Overwrites(s, s', key, chain, now, r == Done)
      else match Decide(Lookup(s, key), s.epoch, snapshot, chain)
      case Refuse => r == Refused && s' == s
      case Keep(b) => r == Done && Settles(Revised(s, key, chain, now, b, false), s')
      case Fresh => r == Done && Settles(RevisedFresh(s, key, chain, now, false), s')
  }

  ghost predicate Deletes(s: Store, s': Store, key: string, now: int)
  {
    if key == "" then s' == s else Settles(RevisedFresh(s, key, [], now, true), s')
  }

  ghost predicate DeletesIfUnchanged(s: Store, s': Store, key: string, snapshot: LocalSnapshot, now: int, r: Outcome)
  {
    if key == "" then r == Refused && s' == s
    else if snapshot.loaded && !MatchesSnapshot(Lookup(s, key), s.epoch, snapshot) then r == Refused && s' == s
    else r == Done && Deletes(s, s', key, now)
  }

  function Cleared(s: Store): Store
  {
    s.(entries := map[], epoch := s.epoch + 1)
  }

  function Unexpired(entries: map<string, LocalEntry>, now: int): map<string, LocalEntry>
  {
    map k | k in entries && !Expired(entries[k], now) :: entries[k]
  }

  function Purged(s: Store, now: int): Store
  {
    var left := Unexpired(s.entries, now);
    assert left.Keys <= s.entries.Keys;
    assert |left.Keys| <= |s.entries.Keys| by { Subset(left.Keys, s.entries.Keys); }
    s.(entries := left, epoch := s.epoch + |s.entries| - |left|)
  }

  lemma {:induction false} Subset<T>(a: set<T>, b: set<T>)
    requires a <= b
    ensures |a| <= |b| && (|a| == |b| ==> a == b)
  {
    assert b == a + (b - a);
    assert |b| == |a| + |b - a|;
  }

  datatype Candidate = Candidate(key: string, timestamp: int)

  class Register {
    var entries: map<string, LocalEntry>
    var nextRevision: nat
    var epoch: nat
    /** Nonces drawn so far; stands for the random source. */
    var minted: nat

    ghost function Value(): Store
      reads this
    {
      Store(entries, nextRevision, epoch, minted)
    }

    constructor ()
      ensures Value() == Store(map[], 0, 0, 0)
    {
      entries, nextRevision, epoch, minted := map[], 0, 0, 0;
    }

    method NewGeneration() returns (n: Nonce)
      modifies this`minted
      ensures n == old(minted) && minted == old(minted) + 1
    {
      n := minted;
      minted := minted + 1;
    }

    method Get(key: string, now: int) returns (items: Chain, snapshot: LocalSnapshot, found: bool)
      modifies this
      ensures Reads(old(Value()), Value(), key, now, snapshot)
      ensures items == snapshot.items && (found <==> items != [])
    {
      if key == "" {
        return [], UNLOADED, false;
      }
      if key !in entries {
        snapshot := ReserveAbsent(key, now);
        return [], snapshot, false;
      }
      var entry := entries[key];
      if now - entry.timestamp > TTL {
        epoch := epoch + 1;
        entries := entries - {key};
        snapshot := ReserveAbsent(key, now);
        return [], snapshot, false;
      }
      entry := entry.(timestamp := now);
      entries := entries[key := entry];
      snapshot := Snapshot([], true, true, entry.revision, entry.branch, epoch);
      if entry.deleted || |entry.items| == 0 {
        return [], snapshot, false;
      }
      snapshot := snapshot.(items := entry.items);
      return entry.items, snapshot, true;
    }

    method ReserveAbsent(key: string, now: int) returns (snapshot: LocalSnapshot)
      modifies this
      ensures Reserves(old(Value()), Value(), key, now, snapshot)
      ensures snapshot.items == []
    {
      if |entries| >= MAX_ENTRIES {
        EvictOldest(EVICT_BATCH);
      }
      ghost var room := Value();
      nextRevision := nextRevision + 1;
      var branch := NewGeneration();
      var entry := Entry([], now, nextRevision, Some(branch), true);
      entries := entries[key := entry];
      assert MakesRoom(old(Value()), room) && Value() == RevisedFresh(room, key, [], now, true);
      return Snapshot([], true, true, entry.revision, entry.branch, epoch);
    }

    /** The tail every writer shares: store the entry under the next revision, then evict if over capacity. */
    method Install(key: string, items: Chain, now: int, branch: Nonce, deleted: bool)
      modifies this`entries, this`epoch, this`nextRevision
      ensures Settles(Revised(old(Value()), key, items, now, branch, deleted), Value())
    {
      nextRevision := nextRevision + 1;
      entries := entries[key := Entry(items, now, nextRevision, Some(branch), deleted)];
      if |entries| > MAX_ENTRIES {
        EvictOldest(EVICT_BATCH);
      }
    }

    method Cache(key: string, items: Chain, now: int) returns (ok: bool)
      modifies this
      ensures Overwrites(old(Value()), Value(), key, items, now, ok)
    {
      hide NormalizeItems, Settles;
      if key == "" {
        return false;
      }
      var normalized := Normalize(items);
      if normalized.None? {
        return false;
      }
      var branch := NewGeneration();
      Install(key, normalized.value, now, branch, false);
      return true;
    }

    method ReplaceIfUnchanged(key: string, snapshot: LocalSnapshot, items: Chain, now: int) returns (r: Outcome)
      modifies this
      ensures Publishes(old(Value()), Value(), key, snapshot, items, now, r)
    {
      hide NormalizeItems, Settles;
      if key == "" {
        return Refused;
      }
      var normalized := Normalize(items);
      if normalized.None? {
        return Invalid;
      }
      var chain := normalized.value;
      if !snapshot.loaded {
        var ok := Cache(key, chain, now);
        return if ok then Done else Refused;
      }
      var decision := Judge(key, snapshot, chain);
      match decision {
        case Refuse =>
          return Refused;
        case Keep(branch) =>
          Install(key, chain, now, branch, false);
        case Fresh =>
          var branch := NewGeneration();
          Install(key, chain, now, branch, false);
      }
      return Done;
    }

    method Judge(key: string, snapshot: LocalSnapshot, chain: Chain) returns (d: Decision)
      ensures d == Decide(Lookup(Value(), key), epoch, snapshot, chain)
    {
      var found := key in entries;
      var matches := found == snapshot.found &&
                     ((found && entries[key].revision == snapshot.revision) || (!found && snapshot.epoch == epoch));
      var descendant := false;
      if found && !entries[key].deleted && snapshot.branch.Some? && entries[key].branch == snapshot.branch {
        descendant := IsItemsPrefix(entries[key].items, chain);
      }
      if !matches && !descendant {
        return Refuse;
      }
      var grows := IsItemsPrefix(snapshot.items, chain);
      return if snapshot.branch.None? || (matches && !grows) then Fresh else Keep(snapshot.branch.value);
    }

    method DeleteIfUnchanged(key: string, snapshot: LocalSnapshot, now: int) returns (r: Outcome)
      modifies this
      ensures DeletesIfUnchanged(old(Value()), Value(), key, snapshot, now, r)
    {
      hide Settles;
      if key == "" {
        return Refused;
      }
      if !snapshot.loaded {
        Delete(key, now);
        return Done;
      }
      var found := key in entries;
      if found != snapshot.found || (found && entries[key].revision != snapshot.revision) || (!found && snapshot.epoch != epoch) {
        return Refused;
      }
      var branch := NewGeneration();
      Install(key, [], now, branch, true);
      return Done;
    }

    method Delete(key: string, now: int)
      modifies this
      ensures Deletes(old(Value()), Value(), key, now)
    {
      hide Settles;
      if key == "" {
        return;
      }
      var branch := NewGeneration();
      Install(key, [], now, branch, true);
    }

    method Clear()
      modifies this`entries, this`epoch
      ensures Value() == Cleared(old(Value()))
    {
      entries := map[];
      epoch := epoch + 1;
    }

    method PurgeExpired(now: int)
      modifies this`entries, this`epoch
      ensures Value() == Purged(old(Value()), now)
    {
      var left := entries.Keys;
      while left != {}
        invariant left <= entries.Keys <= old(entries).Keys
        invariant forall k :: k in entries ==> entries[k] == old(entries)[k]
        invariant forall k :: k in old(entries) && k !in left ==> (k in entries <==> !Expired(old(entries)[k], now))
        invariant epoch + |entries| == old(epoch) + |old(entries)|
        decreases |left|
      {
        var k :| k in left;
        left := left - {k};
        if now - entries[k].timestamp > TTL {
          epoch := epoch + 1;
          ghost var before := entries;
          entries := entries - {k};
          assert entries.Keys == before.Keys - {k};
        }
      }
      assert entries == Unexpired(old(entries), now);
    }

    method Candidates() returns (cs: seq<Candidate>)
      ensures Lists(cs, entries)
    {
      cs := [];
      var left := entries.Keys;
      while left != {}
        invariant left <= entries.Keys
        invariant UniqueKeys(cs)
        invariant forall i :: 0 <= i < |cs| ==> cs[i].key in entries.Keys - left && cs[i].timestamp == entries[cs[i].key].timestamp
        invariant |cs| + |left| == |entries|
        decreases |left|
      {
        var k :| k in left;
        cs := cs + [Candidate(k, entries[k].timestamp)];
        left := left - {k};
      }
    }

    method EvictOldest(count: nat)
      modifies this`entries, this`epoch
      ensures EvictsOldest(old(Value()), Value(), count)
    {
      if count == 0 || |entries| == 0 {
        return;
      }
      var listed := Candidates();
      var cs := SortOldestFirst(listed);
      SortedLists(listed, cs, entries);
      var n := if count > |cs| then |cs| else count;
      for i := 0 to n
        invariant entries == Without(old(entries), cs[..i])
        invariant epoch == old(epoch) + i
      {
        epoch := epoch + 1;
        entries := entries - {cs[i].key};
        WithoutNext(old(entries), cs, i);
      }
      EvictionIsOldest(old(entries), cs, n);
    }
  }

  predicate UniqueKeys(cs: seq<Candidate>)
  {
    forall i, j :: 0 <= i < j < |cs| ==> cs[i].key != cs[j].key
  }

  /** `cs` names every entry once, with its timestamp. */
  predicate Lists(cs: seq<Candidate>, entries: map<string, LocalEntry>)
  {
    && UniqueKeys(cs) && |cs| == |entries|
    && (forall i :: 0 <= i < |cs| ==> cs[i].key in entries && cs[i].timestamp == entries[cs[i].key].timestamp)
  }

  predicate OldestFirst(cs: seq<Candidate>)
  {
    forall i, j :: 0 <= i < j < |cs| ==> cs[i].timestamp <= cs[j].timestamp
  }

  function KeysOf(cs: seq<Candidate>): set<string>
  {
    set i | 0 <= i < |cs| :: cs[i].key
  }

  function Without(entries: map<string, LocalEntry>, gone: seq<Candidate>): map<string, LocalEntry>
  {
    entries - KeysOf(gone)
  }

  lemma WithoutNext(entries: map<string, LocalEntry>, cs: seq<Candidate>, i: nat)
    requires i < |cs|
    ensures Without(entries, cs[..i]) - {cs[i].key} == Without(entries, cs[..i + 1])
  {
    assert cs[..i + 1] == cs[..i] + [cs[i]];
    var a, b := cs[..i], cs[..i + 1];
    assert forall j :: 0 <= j < |a| ==> b[j] == a[j];
    assert b[i] == cs[i];
    assert KeysOf(b) == KeysOf(a) + {cs[i].key};
  }

  lemma {:induction false} KeysCount(cs: seq<Candidate>)
    requires UniqueKeys(cs)
    ensures |KeysOf(cs)| == |cs|
  {
    if cs != [] {
      var rest := cs[..|cs| - 1];
      var last := cs[|cs| - 1];
      KeysCount(rest);
      assert forall j :: 0 <= j < |rest| ==> rest[j] == cs[j];
      assert KeysOf(cs) == KeysOf(rest) + {last.key};
      assert last.key !in KeysOf(rest);
    }
  }

  lemma SortedLists(listed: seq<Candidate>, cs: seq<Candidate>, entries: map<string, LocalEntry>)
    requires Lists(listed, entries) && UniqueKeys(cs) && |cs| == |listed|
    requires forall i :: 0 <= i < |cs| ==> cs[i] in listed
    ensures Lists(cs, entries)
  {
  }

  lemma Listed(entries: map<string, LocalEntry>, cs: seq<Candidate>)
    requires Lists(cs, entries)
    ensures KeysOf(cs) == entries.Keys
  {
    KeysCount(cs);
    Subset(KeysOf(cs), entries.Keys);
  }

  lemma RemovedCount(entries: map<string, LocalEntry>, gone: set<string>)
    requires gone <= entries.Keys
    ensures |entries - gone| == |entries| - |gone|
  {
    var left := (entries - gone).Keys;
    assert left == entries.Keys - gone;
    assert entries.Keys == left + gone;
  }

  lemma LeftCount(entries: map<string, LocalEntry>, cs: seq<Candidate>, n: nat)
    requires Lists(cs, entries) && n <= |cs|
    ensures |Without(entries, cs[..n])| == |entries| - n
  {
    KeysCount(cs[..n]);
    forall k | k in KeysOf(cs[..n]) ensures k in entries.Keys {
      var i :| 0 <= i < n && cs[..n][i].key == k;
      assert cs[i].key == k;
    }
    RemovedCount(entries, KeysOf(cs[..n]));
  }

  lemma GoneIsOlder(entries: map<string, LocalEntry>, cs: seq<Candidate>, n: nat, gone: string, kept: string)
    requires Lists(cs, entries) && OldestFirst(cs) && n <= |cs|
    requires gone in entries && gone in KeysOf(cs[..n]) && kept in entries && kept !in KeysOf(cs[..n])
    ensures entries[gone].timestamp <= entries[kept].timestamp
  {
    Listed(entries, cs);
    var i :| 0 <= i < n && cs[..n][i].key == gone;
    assert kept in KeysOf(cs);
    var j :| 0 <= j < |cs| && cs[j].key == kept;
    forall a | 0 <= a < n ensures cs[a].key != kept {
      assert cs[..n][a].key in KeysOf(cs[..n]);
    }
    assert cs[i].key == gone && i < j;
  }

  lemma EvictionIsOldest(entries: map<string, LocalEntry>, cs: seq<Candidate>, n: nat)
    requires Lists(cs, entries) && OldestFirst(cs) && n <= |cs|
    ensures |Without(entries, cs[..n])| == |entries| - n
    ensures forall gone, kept :: gone in entries && gone !in Without(entries, cs[..n]) && kept in Without(entries, cs[..n])
              ==> entries[gone].timestamp <= entries[kept].timestamp
  {
    LeftCount(entries, cs, n);
    forall gone, kept | gone in entries && gone !in Without(entries, cs[..n]) && kept in Without(entries, cs[..n])
      ensures entries[gone].timestamp <= entries[kept].timestamp
    {
      GoneIsOlder(entries, cs, n, gone, kept);
    }
  }

  function InsertAt(cs: seq<Candidate>, at: nat, x: Candidate): seq<Candidate>
    requires at <= |cs|
  {
    cs[..at] + [x] + cs[at..]
  }

  lemma Inserted(cs: seq<Candidate>, at: nat, x: Candidate)
    requires OldestFirst(cs) && UniqueKeys(cs) && at <= |cs|
    requires forall i :: 0 <= i < at ==> cs[i].timestamp <= x.timestamp
    requires forall i :: at <= i < |cs| ==> x.timestamp <= cs[i].timestamp
    requires forall i :: 0 <= i < |cs| ==> cs[i].key != x.key
    ensures OldestFirst(InsertAt(cs, at, x)) && UniqueKeys(InsertAt(cs, at, x))
    ensures forall i :: 0 <= i < |cs| + 1 ==> InsertAt(cs, at, x)[i] == x || InsertAt(cs, at, x)[i] in cs
  {
    var r := InsertAt(cs, at, x);
    forall i | 0 <= i < |cs| + 1
      ensures r[i] == if i < at then cs[i] else if i == at then x else cs[i - 1]
    {
    }
  }

  /** Stands for `sort.Slice`, which promises no more: the same elements, oldest first. */
  method SortOldestFirst(cs: seq<Candidate>) returns (sorted: seq<Candidate>)
    requires UniqueKeys(cs)
    ensures OldestFirst(sorted) && UniqueKeys(sorted) && |sorted| == |cs|
    ensures forall i :: 0 <= i < |sorted| ==> sorted[i] in cs
  {
    sorted := [];
    for i := 0 to |cs|
      invariant OldestFirst(sorted) && UniqueKeys(sorted) && |sorted| == i
      invariant forall a :: 0 <= a < i ==> sorted[a] in cs[..i]
    {
      var x := cs[i];
      var at := i;
      while at > 0 && sorted[at - 1].timestamp > x.timestamp
        invariant 0 <= at <= i
        invariant forall b :: at <= b < i ==> sorted[b].timestamp > x.timestamp
      {
        at := at - 1;
      }
      forall a | 0 <= a < i ensures sorted[a].key != x.key {
        assert sorted[a] in cs[..i];
      }
      Inserted(sorted, at, x);
      ghost var before := sorted;
      sorted := InsertAt(sorted, at, x);
      forall a | 0 <= a < i + 1 ensures sorted[a] in cs[..i + 1] {
        if sorted[a] == x { assert cs[..i + 1][i] == x; }
        else {
          assert sorted[a] in before;
          assert cs[..i + 1] == cs[..i] + [x];
        }
      }
    }
    assert cs[..|cs|] == cs;
  }
}
