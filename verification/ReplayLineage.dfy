/** What the local register and the Home store have in common: stored chains, snapshots,
    the rule that decides a conditional publish, and lineage over whole runs. */
module ReplayLineage {
  import opened Wrappers
  import opened ReplayItems

  /** A generation or branch nonce. Nonces are numbered as they are drawn, so no two are equal. */
  type Nonce = nat

  /** A stored chain. `R` is whatever identifies one write: a revision number locally, the
      serialized bytes in Home. A branch is `None` for a Home value without a marker. */
  datatype Entry<R> = Entry(items: Chain, timestamp: int, revision: R, branch: Option<Nonce>, deleted: bool)

  datatype Snapshot<R> =
    Snapshot(items: Chain, loaded: bool, found: bool, revision: R, branch: Option<Nonce>, epoch: nat)

  /** The guard loop over bytes, one item at a time. */
  method IsItemsPrefix(prefix: Chain, items: Chain) returns (r: bool)
    ensures r <==> prefix <= items
  {
    if |prefix| > |items| {
      return false;
    }
    for i := 0 to |prefix|
      invariant prefix[..i] == items[..i]
    {
      if prefix[i] != items[i] {
        assert prefix[i] != items[..|prefix|][i];
        return false;
      }
    }
    assert prefix == prefix[..|prefix|];
    return true;
  }

  predicate MatchesSnapshot<R(==)>(current: Option<Entry<R>>, epoch: nat, snapshot: Snapshot<R>)
  {
    match current
    case Some(e) => snapshot.found && e.revision == snapshot.revision
    case None => !snapshot.found && snapshot.epoch == epoch
  }

  predicate IsDescendant<R>(current: Option<Entry<R>>, snapshot: Snapshot<R>, chain: Chain)
  {
    current.Some? && !current.value.deleted && snapshot.branch.Some? && current.value.branch == snapshot.branch &&
    current.value.items <= chain
  }

  datatype Decision = Refuse | Keep(branch: Nonce) | Fresh

  /** The publish rule: unchanged since the snapshot, or grown on the snapshot's branch to a
      prefix of the new chain. The branch is kept when the new chain extends what was read. */
  function Decide<R(==)>(current: Option<Entry<R>>, epoch: nat, snapshot: Snapshot<R>, chain: Chain): Decision
  {
    var matches := MatchesSnapshot(current, epoch, snapshot);
    if !matches && !IsDescendant(current, snapshot, chain) then Refuse
    else if snapshot.branch.None? || (matches && !(snapshot.items <= chain)) then Fresh
    else Keep(snapshot.branch.value)
  }

  /** One key's branch and chain; a tombstone is a branch with the empty chain. */
  datatype Live = Live(branch: Nonce, chain: Chain)

  /** What lineage looks at: the branch under each key, and the branches used up so far. */
  datatype Frame = Frame(view: map<string, Live>, known: set<Nonce>)

  predicate Drawn(n: Nonce, minted: nat)
  {
    n < minted
  }

  function DrawnBefore(minted: nat): set<Nonce>
  {
    set n: nat | n < minted && Drawn(n, minted)
  }

  ghost predicate Sound(f: Frame)
  {
    && (forall k :: k in f.view ==> f.view[k].branch in f.known)
    && (forall k, k' :: k in f.view && k' in f.view && k != k' ==> f.view[k].branch != f.view[k'].branch)
  }

  predicate Carried(a: Frame, b: Frame, k: string)
    requires k in b.view
  {
    || b.view[k].branch !in a.known
    || (k in a.view && a.view[k].branch == b.view[k].branch && a.view[k].chain <= b.view[k].chain)
  }

  /** One step: a branch is either new, or was under the same key with a prefix of the chain. */
  ghost predicate Evolves(a: Frame, b: Frame)
  {
    a.known <= b.known && forall k :: k in b.view ==> Carried(a, b, k)
  }

  ghost predicate History(run: seq<Frame>)
  {
    && (forall i :: 0 <= i < |run| ==> Sound(run[i]))
    && (forall i :: 0 < i < |run| ==> Evolves(run[i - 1], run[i]))
  }

  /** `Evolves` reaches across any number of steps. */
  lemma {:induction false} EvolvesFar(run: seq<Frame>, i: nat, j: nat)
    requires History(run) && i <= j < |run|
    ensures Evolves(run[i], run[j])
    decreases j
  {
    if i < j {
      EvolvesFar(run, i, j - 1);
      forall k | k in run[j].view ensures Carried(run[i], run[j], k) {
        assert Carried(run[j - 1], run[j], k);
        if run[j].view[k].branch in run[i].known {
          assert Carried(run[i], run[j - 1], k);
        }
      }
    }
  }

  /** Lineage: a branch seen at two times belongs to one key, and the earlier chain is a
      prefix of the later one. */
  lemma LineageOfHistory(run: seq<Frame>, i: nat, j: nat, k: string, k': string)
    requires History(run) && i <= j < |run|
    requires k in run[i].view && k' in run[j].view && run[i].view[k].branch == run[j].view[k'].branch
    ensures k == k' && run[i].view[k].chain <= run[j].view[k].chain
  {
    EvolvesFar(run, i, j);
    assert Carried(run[i], run[j], k');
  }

  /** A used branch that a key does not carry is never carried by it again. */
  lemma BranchNeverReturns(run: seq<Frame>, i: nat, j: nat, k: string, branch: Nonce)
    requires History(run) && i <= j < |run| && branch in run[i].known
    requires k in run[i].view ==> run[i].view[k].branch != branch
    ensures k in run[j].view ==> run[j].view[k].branch != branch
  {
    EvolvesFar(run, i, j);
    assert k in run[j].view ==> Carried(run[i], run[j], k);
  }
}
