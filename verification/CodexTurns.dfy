/** Appending a turn told from markers and sizes, and how many times a caller tries. */
module CodexTurns {
  import opened CodexReplay

  // ---------------------------------------------------------------- bounds

  /** Where turns begin behind the front. */
  function Boundaries(items: Items): set<int>
  {
    set i | 0 < i < |items| && items[i].turn
  }

  /** Texts one behind the other. */
  function Joined(items: Items): string
  {
    if items == [] then "" else items[0].text + Joined(items[1..])
  }

  lemma {:induction false} BoundariesAreCounted(items: Items)
    ensures MarkersBehind(items) == |Boundaries(items)|
  {
    if |items| > 1 {
      var before := items[..|items| - 1];
      BoundariesAreCounted(before);
      var last := |items| - 1;
      assert Boundaries(items) == if items[last].turn then Boundaries(before) + {last} else Boundaries(before);
    } else {
      assert Boundaries(items) == {};
    }
  }

  lemma {:induction false} BytesAreCounted(items: Items)
    ensures Bytes(items) == |Joined(items)|
  {
    if items != [] {
      BytesAdd(items[..1], items[1..]);
      assert items[..1] + items[1..] == items;
      BytesOfOne(items[0]);
      assert items[..1] == [items[0]];
      BytesAreCounted(items[1..]);
    }
  }

  /** No more than 256 turns and 16 MiB of text. */
  predicate Bounded(items: Items)
  {
    |Boundaries(items)| < 256 && |Joined(items)| <= 16_777_216
  }

  lemma FitsIsBounded(items: Items)
    ensures Fits(items) <==> Bounded(items)
  {
    BoundariesAreCounted(items);
    BytesAreCounted(items);
  }

  /** `r` is `all` without its first `k` items, which end where a turn ends; with any fewer whole turns
      taken away, a bound is exceeded. */
  ghost predicate LatestFrom(r: Items, all: Items, k: nat)
  {
    && k <= |all| && r == all[k..] && (k == 0 || k == |all| || all[k].turn) && (r == [] || Bounded(r))
    && (forall j: nat :: j < k && (j == 0 || all[j].turn) ==> !Bounded(all[j..]))
  }

  lemma TrimIsLatest(all: Items) returns (k: nat)
    ensures LatestFrom(Trim(all), all, k)
  {
    hide Fits, Bounded;
    k := FirstFit(all, 0);
    FitsIsBounded(all[k..]);
    forall j: nat | j < k && (j == 0 || all[j].turn) ensures !Bounded(all[j..]) {
      assert IsStart(all, j);
      FitsIsBounded(all[j..]);
    }
  }

  lemma LatestIsUnique(r: Items, q: Items, all: Items, k: nat, l: nat)
    requires LatestFrom(r, all, k) && LatestFrom(q, all, l)
    ensures k == l && r == q
  {
    hide Bounded;
    if k < l { assert false; }
    if l < k { assert false; }
  }

  // ---------------------------------------------------------------- appending

  /** A marker that carries this id. */
  predicate Marks(item: Item, id: string)
  {
    item.turn && item.id == id
  }

  /** Whether the register already holds the turn: both begin with a marker, and among the stored markers is
      one with the turn's id, which must not be blank. */
  ghost predicate AlreadyThere(existing: Items, turn: Items)
  {
    && existing != [] && existing[0].turn && turn != [] && turn[0].turn && turn[0].id != ""
    && exists i :: 0 <= i < |existing| && Marks(existing[i], turn[0].id)
  }

  /** What an append leaves: the latest turns of what was stored followed by the turn. A turn that is there already
      is not added again, and a list that does not begin with a marker is given up. */
  lemma AppendOutcome(existing: Items, turn: Items) returns (k: nat)
    ensures LatestFrom(Append(existing, turn),
      if AlreadyThere(existing, turn) then existing else if existing != [] && !existing[0].turn then turn else existing + turn, k)
  {
    hide Trim, LatestFrom;
    if AlreadyThere(existing, turn) {
      var i :| 0 <= i < |existing| && Marks(existing[i], turn[0].id);
      assert Known(existing, turn);
      k := TrimIsLatest(existing);
    } else if existing != [] && !existing[0].turn {
      k := TrimIsLatest(turn);
      assert [] + turn == turn;
    } else {
      NotKnown(existing, turn);
      k := TrimIsLatest(existing + turn);
    }
  }

  lemma NotKnown(existing: Items, turn: Items)
    requires !AlreadyThere(existing, turn) && (existing == [] || existing[0].turn)
    ensures !Known(existing, turn) && Base(existing) == existing
  {
    if existing != [] && StartsTurn(turn) && turn[0].id != "" {
      forall i | 0 <= i < |existing| ensures !(existing[i].turn && existing[i].id == turn[0].id) {
        assert !Marks(existing[i], turn[0].id);
      }
    }
  }

  // ---------------------------------------------------------------- retries

  predicate Lost(before: World, e: Event, id: nat)
    requires Enabled(before, e)
  {
    e.Swap? && e.id == id && before.cell != before.appenders[id].phase.expected
  }

  /** The swaps a caller has lost so far. */
  function LostSwaps(ws: seq<World>, es: seq<Event>, i: nat, id: nat): nat
    requires Run(ws, es) && i <= |es|
  {
    if i == 0 then 0 else LostSwaps(ws, es, i - 1, id) + if Lost(ws[i - 1], es[i - 1], id) then 1 else 0
  }

  lemma {:induction false} AttemptsAreLosses(ws: seq<World>, es: seq<Event>, i: nat, id: nat)
    requires Run(ws, es) && i <= |es|
    ensures id in ws[i].appenders ==> ws[i].appenders[id].attempt == LostSwaps(ws, es, i, id)
    ensures id !in ws[i].appenders ==> LostSwaps(ws, es, i, id) == 0
  {
    hide Append;
    if i > 0 { AttemptsAreLosses(ws, es, i - 1, id); }
  }

  /** Whose step it is. */
  predicate StepOf(e: Event, id: nat)
  {
    match e
    case Begin(i, _) => i == id
    case Read(i) => i == id
    case Swap(i, _) => i == id
    case Break(i) => i == id
    case Replace(_) => false
  }

  lemma {:induction false} Remembered(ws: seq<World>, es: seq<Event>, i: nat, j: nat, id: nat)
    requires Run(ws, es) && i < j <= |es| && es[i] == Read(id) && (ws[i].cell.Empty? || ws[i].cell.Array?)
    requires forall k :: i < k < j ==> !StepOf(es[k], id)
    ensures id in ws[j].appenders && ws[j].appenders[id].phase == Swapping(ws[i].cell)
    ensures ws[j].appenders[id].turn == ws[i].appenders[id].turn
  {
    hide Append;
    if i + 1 < j {
      Remembered(ws, es, i, j - 1, id);
      assert !StepOf(es[j - 1], id);
    }
  }

  /** How a swap ends. It takes effect exactly if the register is as it was read; an answered one that does not is
      tried again unless it is the caller's thirty-second; and the caller ends with success exactly if its swap took
      effect and was answered. */
  lemma SwapOutcome(ws: seq<World>, es: seq<Event>, i: nat, j: nat, id: nat, reply: bool)
    requires Run(ws, es) && i < j < |es| && es[i] == Read(id) && es[j] == Swap(id, reply)
    requires ws[i].cell.Empty? || ws[i].cell.Array?
    requires forall k :: i < k < j ==> !StepOf(es[k], id)
    ensures id in ws[i].appenders && id in ws[j + 1].appenders
    ensures ws[j + 1].cell == if ws[j].cell == ws[i].cell then Array(Append(if ws[i].cell.Array? then ws[i].cell.items else [], ws[i].appenders[id].turn)) else ws[j].cell
    ensures ws[j + 1].appenders[id].phase ==
      if !reply then GaveUp
      else if ws[j].cell == ws[i].cell then Succeeded
      else if LostSwaps(ws, es, j + 1, id) < 32 then Reading
      else GaveUp
  {
    hide Append;
    Remembered(ws, es, i, j, id);
    AttemptsAreLosses(ws, es, j, id);
  }

  /** A caller gives up only if it is called off, cannot make sense of what it reads, gets no answer, or has lost
      thirty-two swaps. */
  lemma GivenUp(ws: seq<World>, es: seq<Event>, i: nat, id: nat)
    requires Run(ws, es) && i < |es| && id in ws[i].appenders && ws[i].appenders[id].Running() && !ws[i + 1].appenders[id].Running()
    ensures ws[i + 1].appenders[id].phase == Succeeded ||
      es[i] == Break(id) || (es[i] == Read(id) && ws[i].cell.Undecodable?) || es[i] == Swap(id, false) || LostSwaps(ws, es, i + 1, id) == 32
    ensures ws[i + 1].appenders[id].phase == Succeeded ==> es[i] == Swap(id, true) && !Lost(ws[i], es[i], id)
  {
    hide Append;
    AttemptsAreLosses(ws, es, i, id);
    AttemptsAreLosses(ws, es, i + 1, id);
    FewLosses(ws, es, i, id);
  }

  lemma {:induction false} FewLosses(ws: seq<World>, es: seq<Event>, i: nat, id: nat)
    requires Run(ws, es) && i <= |es|
    ensures id in ws[i].appenders ==> ws[i].appenders[id].attempt <= 32
    ensures id in ws[i].appenders && ws[i].appenders[id].Running() ==> ws[i].appenders[id].attempt < 32
  {
    hide Append;
    if i > 0 { FewLosses(ws, es, i - 1, id); }
  }

  /** A second try can succeed: whatever readable list another writer puts there between the first read and the first
      swap, the turn is appended to that list. */
  lemma RetryCanSucceed(start: Items, other: Items, turn: Items, id: nat) returns (ws: seq<World>, es: seq<Event>)
    requires start != other
    ensures Run(ws, es) && ws[0].cell == Array(start) && |ws| == 7
    ensures ws[6].cell == Array(Append(other, turn)) && id in ws[6].appenders
    ensures ws[6].appenders[id].phase == Succeeded && ws[6].appenders[id].attempt == 1
  {
    hide Append;
    es := [Begin(id, turn), Read(id), Replace(Array(other)), Swap(id, true), Read(id), Swap(id, true)];
    var w0 := World(Array(start), map[], []);
    var w1 := Next(w0, es[0]);
    var w2 := Next(w1, es[1]);
    var w3 := Next(w2, es[2]);
    var w4 := Next(w3, es[3]);
    var w5 := Next(w4, es[4]);
    ws := [w0, w1, w2, w3, w4, w5, Next(w5, es[5])];
  }
}
