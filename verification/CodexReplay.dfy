/** The Codex replay register: turns appended under a compare-and-swap, the oldest turns
    trimmed away to stay within two bounds. */
module CodexReplay {
  import opened Wrappers
  import opened Text

  const MAX_TURNS: nat := 256
  const MAX_BYTES: nat := 16 * 1024 * 1024
  const MAX_ATTEMPTS: nat := 32

  /** A stored item: its JSON text, and what the code reads in it: whether it is a turn
      marker, and its trimmed id. */
  datatype Item = Item(text: string, turn: bool, id: string)

  type Items = seq<Item>

  /** Where turns begin: at the front, and at every marker behind it. */
  predicate IsStart(items: Items, i: nat)
  {
    i == 0 || (i < |items| && items[i].turn)
  }

  function MarkersBehind(items: Items): nat
  {
    if |items| <= 1 then 0 else MarkersBehind(items[..|items| - 1]) + if items[|items| - 1].turn then 1 else 0
  }

  function Turns(items: Items): nat
  {
    1 + MarkersBehind(items)
  }

  function Bytes(items: Items): nat
  {
    if items == [] then 0 else Bytes(items[..|items| - 1]) + |items[|items| - 1].text|
  }

  predicate Fits(items: Items)
  {
    Turns(items) <= MAX_TURNS && Bytes(items) <= MAX_BYTES
  }

  /** The first turn start at or after `i` whose suffix fits. */
  function FirstFit(items: Items, i: nat): (k: nat)
    requires i <= |items|
    ensures i <= k <= |items|
    ensures k < |items| ==> IsStart(items, k) && Fits(items[k..])
    ensures forall j :: i <= j < k && IsStart(items, j) ==> !Fits(items[j..])
    decreases |items| - i
  {
    if i == |items| || (IsStart(items, i) && Fits(items[i..])) then i else FirstFit(items, i + 1)
  }

  /** The longest suffix that begins at a turn and is within both bounds. */
  function Trim(items: Items): Items
  {
    items[FirstFit(items, 0)..]
  }

  // ---------------------------------------------------------------- sums over slices

  lemma {:induction false} BytesAdd(a: Items, b: Items)
    ensures Bytes(a + b) == Bytes(a) + Bytes(b)
  {
    if b == [] {
      assert a + b == a;
    } else {
      assert (a + b)[..|a + b| - 1] == a + b[..|b| - 1];
      BytesAdd(a, b[..|b| - 1]);
    }
  }

  /** Turns add up when the second part begins with a marker. */
  lemma {:induction false} TurnsAdd(a: Items, b: Items)
    requires a != [] && b != [] && b[0].turn
    ensures Turns(a + b) == Turns(a) + Turns(b)
  {
    var ab := a + b;
    assert ab[..|ab| - 1] == a + b[..|b| - 1];
    if |b| == 1 {
      assert a + b[..0] == a;
    } else {
      TurnsAdd(a, b[..|b| - 1]);
    }
  }

  /** Dropping whole turns keeps what fits. */
  lemma SuffixFits(items: Items, k: nat)
    requires Fits(items) && k <= |items| && IsStart(items, k)
    ensures Fits(items[k..])
  {
    if 0 < k {
      assert items == items[..k] + items[k..];
      BytesAdd(items[..k], items[k..]);
      TurnsAdd(items[..k], items[k..]);
    } else {
      assert items[0..] == items;
    }
  }

  // ---------------------------------------------------------------- the trimming loop

  lemma {:induction false} FirstFitShift(items: Items, k: nat, i: nat)
    requires k < |items| && items[k].turn && i <= |items| - k
    ensures FirstFit(items[k..], i) + k == FirstFit(items, k + i)
    decreases |items| - k - i
  {
    var rest := items[k..];
    if i < |rest| {
      assert rest[i..] == items[k + i..];
      assert IsStart(rest, i) <==> IsStart(items, k + i);
      FirstFitShift(items, k, i + 1);
    }
  }

  lemma {:induction false} FirstFitSkips(items: Items, i: nat, k: nat)
    requires i <= k <= |items|
    requires forall j :: i <= j < k && IsStart(items, j) ==> !Fits(items[j..])
    ensures FirstFit(items, i) == FirstFit(items, k)
    decreases k - i
  {
    if i < k {
      FirstFitSkips(items, i + 1, k);
    }
  }

  /** One scan: the byte total, the number of turns, and where the second turn starts. */
  method Scan(items: Items) returns (turns: nat, bytes: nat, second: nat)
    ensures turns == Turns(items) && bytes == Bytes(items)
    ensures turns > 1 <==> second < |items|
    ensures 0 < second <= |items| || (items == [] && second == 0)
    ensures second < |items| ==> items[second].turn
    ensures forall j :: 0 < j < second ==> !items[j].turn
  {
    turns, bytes, second := 1, 0, |items|;
    for i := 0 to |items|
      invariant turns == Turns(items[..i]) && bytes == Bytes(items[..i])
      invariant turns > 1 <==> second < |items|
      invariant second < |items| ==> 0 < second < i && items[second].turn
      invariant forall j :: 0 < j < i && j < second ==> !items[j].turn
      invariant second <= |items|
    {
      assert items[..i + 1][..i] == items[..i];
      bytes := bytes + |items[i].text|;
      if i > 0 && items[i].turn {
        turns := turns + 1;
        if second == |items| {
          second := i;
        }
      }
    }
    assert items[..|items|] == items;
  }

  method TrimLoop(items: Items) returns (trimmed: Items)
    ensures trimmed == Trim(items)
  {
    trimmed := items;
    var dropped := 0;
    while true
      invariant dropped <= |items| && trimmed == items[dropped..]
      invariant dropped == 0 || (dropped < |items| && items[dropped].turn)
      invariant FirstFit(items, 0) == FirstFit(items, dropped)
      decreases |trimmed|
    {
      var turns, bytes, second := Scan(trimmed);
      if turns <= MAX_TURNS && bytes <= MAX_BYTES {
        return;
      }
      forall j | dropped < j < dropped + second ensures !items[j].turn {
        assert !trimmed[j - dropped].turn;
      }
      FirstFitSkips(items, dropped, dropped + second);
      if turns <= 1 {
        return [];
      }
      trimmed := trimmed[second..];
      dropped := dropped + second;
    }
  }

  // ---------------------------------------------------------------- what trimming means

  /** The result is a turn-aligned suffix within both bounds, and no turn-aligned suffix within
      both bounds is longer. */
  lemma TrimIsLongest(items: Items)
    ensures Fits(Trim(items))
    ensures exists k: nat :: k <= |items| && (IsStart(items, k) || k == |items|) && Trim(items) == items[k..]
    ensures forall k: nat :: k <= |items| && IsStart(items, k) && Fits(items[k..]) ==> |items| - k <= |Trim(items)|
  {
    var f := FirstFit(items, 0);
    assert Trim(items) == items[f..];
    assert f == |items| ==> items[f..] == [];
  }

  /** Everything is lost only when the last turn alone, from its marker on, exceeds the byte bound. */
  lemma TrimmedToNothing(items: Items, last: nat)
    requires last < |items| && IsStart(items, last) && forall j :: last < j < |items| ==> !items[j].turn
    ensures Trim(items) == [] <==> Bytes(items[last..]) > MAX_BYTES
  {
    hide Bytes, MarkersBehind;
    OneTurn(items[last..]);
    TrimIsLongest(items);
    var f := FirstFit(items, 0);
    if f < |items| {
      assert f <= last;
      assert items[f..][last - f..] == items[last..];
      SuffixFits(items[f..], last - f);
    }
  }

  lemma {:induction false} OneTurn(items: Items)
    requires forall j :: 0 < j < |items| ==> !items[j].turn
    ensures Turns(items) == 1
  {
    if |items| > 1 {
      OneTurn(items[..|items| - 1]);
    }
  }

  lemma TrimKeepsWhatFits(items: Items)
    requires Fits(items)
    ensures Trim(items) == items
  {
    assert items[0..] == items;
  }

  // ---------------------------------------------------------------- appending a turn

  predicate StartsTurn(items: Items)
  {
    items != [] && items[0].turn
  }

  predicate Stored(items: Items, id: string)
  {
    exists i :: 0 <= i < |items| && items[i].turn && items[i].id == id
  }

  /** Items in the format of older releases, without a leading marker, are dropped. */
  function Base(existing: Items): Items
  {
    if StartsTurn(existing) then existing else []
  }

  /** A turn whose id is stored already adds nothing. */
  predicate Known(existing: Items, turn: Items)
  {
    StartsTurn(turn) && turn[0].id != "" && Stored(Base(existing), turn[0].id)
  }

  function Append(existing: Items, turn: Items): Items
  {
    Trim(if Known(existing, turn) then Base(existing) else Base(existing) + turn)
  }

  method AppendTurn(existing: Items, turn: Items) returns (r: Items)
    ensures r == Append(existing, turn)
  {
    var base := if |existing| > 0 && !existing[0].turn then [] else existing;
    assert base == Base(existing);
    var id := if |turn| > 0 && turn[0].turn then turn[0].id else "";
    if id != "" {
      for i := 0 to |base|
        invariant forall j :: 0 <= j < i ==> !(base[j].turn && base[j].id == id)
      {
        if base[i].turn && base[i].id == id {
          r := TrimLoop(base);
          return;
        }
      }
    }
    r := TrimLoop(base + turn);
  }

  /** The normal form of a list of items, for whatever normalizes one item. */
  function Kept(normalize: Item -> Option<Item>, items: Items): Items
  {
    if items == [] then []
    else
      var rest := Kept(normalize, items[..|items| - 1]);
      match normalize(items[|items| - 1])
      case Some(n) => rest + [n]
      case None => rest
  }

  method NormalizeItems(normalize: Item -> Option<Item>, items: Items) returns (r: Items, ok: bool)
    ensures r == Trim(Kept(normalize, items)) && (ok <==> r != []) && Fits(r)
  {
    r := [];
    for i := 0 to |items|
      invariant r == Kept(normalize, items[..i])
    {
      assert items[..i + 1][..i] == items[..i];
      var n := normalize(items[i]);
      if n.Some? {
        r := r + [n.value];
      }
    }
    assert items[..|items|] == items;
    TrimIsLongest(r);
    r := TrimLoop(r);
    ok := |r| > 0;
  }

  /** A trimmed list still begins a turn, if the list did. */
  lemma TrimStartsTurn(items: Items)
    requires StartsTurn(items)
    ensures Trim(items) == [] || StartsTurn(Trim(items))
  {
  }

  /** A new turn survives whole: whatever older turns are trimmed, the last items are the turn. */
  lemma NewTurnIsRetained(existing: Items, turn: Items)
    requires StartsTurn(turn) && Fits(turn) && !Known(existing, turn)
    ensures |turn| <= |Append(existing, turn)|
    ensures Append(existing, turn)[|Append(existing, turn)| - |turn|..] == turn
    ensures StartsTurn(Append(existing, turn)) && Stored(Append(existing, turn), turn[0].id)
  {
    var base := Base(existing);
    var all := base + turn;
    assert all[|base|..] == turn;
    var f := FirstFit(all, 0);
    assert IsStart(all, |base|);
    assert f <= |base|;
    assert all[f..][|base| - f..] == turn;
    assert all[f..][|base| - f] == turn[0];
  }

  /** Some marker with this id is so near the end that the list from it on is within the bounds. */
  ghost predicate Survives(items: Items, id: string)
  {
    exists i :: 0 <= i < |items| && items[i].turn && items[i].id == id && Fits(items[i..])
  }

  /** Trimming keeps a turn exactly if its marker is so near the end. */
  lemma StoredAfterTrim(items: Items, id: string)
    ensures Stored(Trim(items), id) <==> Survives(items, id)
  {
    hide Fits;
    if Survives(items, id) {
      var i :| 0 <= i < |items| && items[i].turn && items[i].id == id && Fits(items[i..]);
      assert IsStart(items, i);
      assert Trim(items)[i - FirstFit(items, 0)] == items[i];
    }
    if Stored(Trim(items), id) {
      StoredSurvives(items, FirstFit(items, 0), id);
    }
  }

  lemma StoredSurvives(items: Items, f: nat, id: string)
    requires f < |items| && Fits(items[f..]) && Stored(items[f..], id)
    ensures Survives(items, id)
  {
    hide Fits;
    var rest := items[f..];
    var j :| 0 <= j < |rest| && rest[j].turn && rest[j].id == id;
    SuffixFits(rest, j);
    assert rest[j..] == items[f + j..] && rest[j] == items[f + j];
  }

  /** Appending a turn again changes nothing, exactly if it was not stored yet or its marker is near enough
      to the end to outlive the trim. In a list within the bounds every marker is. */
  lemma AppendTwice(existing: Items, turn: Items)
    requires StartsTurn(turn) && turn[0].id != "" && Fits(turn)
    ensures Append(Append(existing, turn), turn) == Append(existing, turn)
      <==> (Known(existing, turn) ==> Survives(Base(existing), turn[0].id))
    ensures Fits(existing) ==> Append(Append(existing, turn), turn) == Append(existing, turn)
  {
    hide Fits, Stored, Survives, Trim, Base;
    if Known(existing, turn) {
      KnownTwice(existing, turn);
    } else {
      NewTwice(existing, turn);
    }
  }

  lemma NewTwice(existing: Items, turn: Items)
    requires StartsTurn(turn) && turn[0].id != "" && Fits(turn) && !Known(existing, turn)
    ensures Append(Append(existing, turn), turn) == Append(existing, turn)
  {
    hide Fits, Stored, Trim;
    TrimIsLongest(Base(existing) + turn);
    NewTurnIsRetained(existing, turn);
    TrimKeepsWhatFits(Append(existing, turn));
  }

  lemma KnownTwice(existing: Items, turn: Items)
    requires StartsTurn(turn) && turn[0].id != "" && Fits(turn) && Known(existing, turn)
    ensures Append(Append(existing, turn), turn) == Append(existing, turn) <==> Survives(Base(existing), turn[0].id)
    ensures Fits(existing) ==> Survives(Base(existing), turn[0].id)
  {
    hide Fits, Stored, Survives, Trim;
    var once := Append(existing, turn);
    var base := Base(existing);
    assert once == Trim(base);
    TrimIsLongest(base);
    StoredAfterTrim(base, turn[0].id);
    StoredStarts(base, turn[0].id);
    TrimStartsTurn(base);
    assert Base(once) == once;
    if Stored(once, turn[0].id) {
      TrimKeepsWhatFits(once);
    } else {
      NewTurnIsRetained(once, turn);
    }
    if Fits(existing) {
      TrimKeepsWhatFits(existing);
    }
  }

  lemma StoredStarts(existing: Items, id: string)
    requires Stored(Base(existing), id)
    ensures StartsTurn(existing)
  {
  }

  /** A turn with nothing in it but its marker, as the code renders one. */
  function Marker(id: string): Item
  {
    Item("{\"type\":\"cpa_codex_replay_turn\",\"id\":\"" + id + "\"}", true, id)
  }

  function Markers(n: nat): Items
  {
    seq(n, i requires 0 <= i < n => Marker(Digits(i)))
  }

  lemma {:induction false} TurnsOfMarkers(items: Items)
    requires items != [] && forall i :: 0 <= i < |items| ==> items[i].turn
    ensures Turns(items) == |items|
  {
    if |items| > 1 { TurnsOfMarkers(items[..|items| - 1]); }
  }

  lemma OnlyZeroIsZero(n: nat)
    ensures Digits(n) == Digits(0) ==> n == 0
  {
    if n >= 10 { assert |Digits(n / 10)| > 0; }
  }

  /** One turn more than the bound allows, and the oldest one appended again: it is recognized and trimmed
      away, so that the next time it is not recognized but appended. */
  lemma AppendTwiceCanDiffer()
    ensures var existing, turn := Markers(MAX_TURNS + 1), Markers(1);
      StartsTurn(turn) && Fits(turn) && Known(existing, turn) && Append(Append(existing, turn), turn) != Append(existing, turn)
  {
    var existing, turn, id := Markers(MAX_TURNS + 1), Markers(1), Digits(0);
    assert existing[0] == turn[0] == Marker(id) && |id| == 1;
    BytesOfOne(turn[0]);
    assert turn == [turn[0]];
    TurnsOfMarkers(turn);
    assert Stored(Base(existing), id);
    TurnsOfMarkers(existing);
    assert existing[0..] == existing;
    forall i | 0 <= i < |existing| && existing[i].id == id ensures !Fits(existing[i..]) {
      OnlyZeroIsZero(i);
    }
    assert !Survives(existing, id);
    AppendTwice(existing, turn);
  }

  lemma BytesOfOne(item: Item)
    ensures Bytes([item]) == |item.text|
  {
  }

  /** A turn start that is too far from the end stays so when more turns follow. */
  lemma TooFarStaysTooFar(a: Items, b: Items, j: nat)
    requires StartsTurn(b) && j < FirstFit(a, 0) && IsStart(a + b, j)
    ensures !Fits((a + b)[j..])
  {
    hide Fits;
    assert IsStart(a, j) && (a + b)[j..] == a[j..] + b;
    if Fits(a[j..] + b) {
      PrefixFits(a[j..], b);
    }
  }

  lemma TrimBehind(items: Items, k: nat)
    requires k < |items| && IsStart(items, k) && FirstFit(items, k) == FirstFit(items, 0)
    ensures Trim(items[k..]) == Trim(items)
  {
    hide Fits, FirstFit;
    if k == 0 {
      assert items[0..] == items;
    } else {
      FirstFitShift(items, k, 0);
      assert items[k..][FirstFit(items[k..], 0)..] == items[FirstFit(items, 0)..];
    }
  }

  /** Trimming as one goes is trimming once at the end. */
  lemma TrimFusion(a: Items, b: Items)
    requires StartsTurn(b)
    ensures Trim(Trim(a) + b) == Trim(a + b)
  {
    hide Fits, FirstFit;
    var k := FirstFit(a, 0);
    var ab := a + b;
    forall j | 0 <= j < k && IsStart(ab, j) ensures !Fits(ab[j..]) {
      TooFarStaysTooFar(a, b, j);
    }
    FirstFitSkips(ab, 0, k);
    assert a[k..] + b == ab[k..];
    assert k == |a| ==> ab[k] == b[0];
    TrimBehind(ab, k);
  }

  lemma PrefixFits(a: Items, b: Items)
    requires StartsTurn(b) && Fits(a + b)
    ensures Fits(a)
  {
    BytesAdd(a, b);
    if a != [] {
      TurnsAdd(a, b);
    }
  }

  // ---------------------------------------------------------------- concurrent appenders

  /** What Home holds under the key: nothing, a JSON array of items, or something else. */
  datatype Cell = Empty | Array(items: Items) | Undecodable(id: nat)

  datatype Phase = Reading | Swapping(expected: Cell) | Succeeded | GaveUp

  /** One call of the append loop. */
  datatype Appender = Appender(turn: Items, attempt: nat, phase: Phase)
  {
    predicate Running() { phase.Reading? || phase.Swapping? }
  }

  /** An effect on the cell, in the order the effects took place. */
  datatype Effect = Appended(id: nat, turn: Items) | Replaced(cell: Cell)

  datatype World = World(cell: Cell, appenders: map<nat, Appender>, log: seq<Effect>)

  /** `Replace` is anybody else's write: an overwrite, a delete, an expiry. */
  datatype Event =
    | Begin(id: nat, turn: Items)
    | Read(id: nat)
    | Swap(id: nat, reply: bool)
    | Break(id: nat)
    | Replace(cell: Cell)

  predicate Enabled(w: World, e: Event)
  {
    match e
    case Begin(id, _) => id !in w.appenders
    case Read(id) => id in w.appenders && w.appenders[id].phase.Reading?
    case Swap(id, _) => id in w.appenders && w.appenders[id].phase.Swapping?
    case Break(id) => id in w.appenders && w.appenders[id].Running()
    case Replace(_) => true
  }

  function ItemsOf(c: Cell): Items
  {
    if c.Array? then c.items else []
  }

  function Next(w: World, e: Event): World
    requires Enabled(w, e)
  {
    match e
    case Begin(id, turn) => w.(appenders := w.appenders[id := Appender(turn, 0, Reading)])
    case Read(id) =>
      w.(appenders := w.appenders[id := w.appenders[id].(phase := if w.cell.Undecodable? then GaveUp else Swapping(w.cell))])
    case Swap(id, reply) =>
      var a := w.appenders[id];
      if w.cell == a.phase.expected then
        w.(cell := Array(Append(ItemsOf(a.phase.expected), a.turn)), log := w.log + [Appended(id, a.turn)],
           appenders := w.appenders[id := a.(phase := if reply then Succeeded else GaveUp)])
      else
        w.(appenders := w.appenders[id := a.(attempt := a.attempt + 1,
                                             phase := if reply && a.attempt + 1 < MAX_ATTEMPTS then Reading else GaveUp)])
    case Break(id) => w.(appenders := w.appenders[id := w.appenders[id].(phase := GaveUp)])
    case Replace(cell) => w.(cell := cell, log := w.log + [Replaced(cell)])
  }

  ghost predicate Run(ws: seq<World>, es: seq<Event>)
  {
    && |ws| == |es| + 1 && ws[0].appenders == map[] && ws[0].log == []
    && (forall i :: 0 <= i < |es| ==> Enabled(ws[i], es[i]) && ws[i + 1] == Next(ws[i], es[i]))
  }

  /** The sequential register: the effects applied one after another. */
  function Replay(start: Cell, log: seq<Effect>): Cell
  {
    if log == [] then start
    else
      var before := Replay(start, log[..|log| - 1]);
      match log[|log| - 1]
      case Appended(_, turn) => Array(Append(ItemsOf(before), turn))
      case Replaced(cell) => cell
  }

  function Count(log: seq<Effect>, id: nat): nat
  {
    if log == [] then 0
    else Count(log[..|log| - 1], id) + if log[|log| - 1].Appended? && log[|log| - 1].id == id then 1 else 0
  }

  ghost predicate Inv(start: Cell, w: World)
  {
    && w.cell == Replay(start, w.log)
    && (forall id :: Count(w.log, id) <= 1)
    && (forall id :: id !in w.appenders || w.appenders[id].Running() ==> Count(w.log, id) == 0)
    && (forall id :: id in w.appenders && w.appenders[id].phase == Succeeded ==> Count(w.log, id) == 1)
    && (forall id :: id in w.appenders && w.appenders[id].phase.Swapping? ==> !w.appenders[id].phase.expected.Undecodable?)
    && (forall i :: 0 <= i < |w.log| && w.log[i].Appended? ==>
          w.log[i].id in w.appenders && w.appenders[w.log[i].id].turn == w.log[i].turn)
  }

  lemma LogGrows(start: Cell, log: seq<Effect>, e: Effect)
    ensures Replay(start, log + [e]) == if e.Appended? then Array(Append(ItemsOf(Replay(start, log)), e.turn)) else e.cell
    ensures forall id :: Count(log + [e], id) == Count(log, id) + if e.Appended? && e.id == id then 1 else 0
  {
    assert (log + [e])[..|log|] == log;
  }

  lemma Step(start: Cell, w: World, e: Event)
    requires Inv(start, w) && Enabled(w, e)
    ensures Inv(start, Next(w, e))
  {
    hide Append, Replay, Count;
    match e
    case Swap(id, _) => LogGrows(start, w.log, Appended(id, w.appenders[id].turn));
    case Replace(cell) => LogGrows(start, w.log, Replaced(cell));
    case _ =>
  }

  /** Linearizability: in every interleaving of any number of append loops and foreign writes, the
      cell is what the sequential register would hold after the effects in the order of their
      swaps. Each call takes effect at most once, between its first read and its end, and a
      call that reports success took effect. A cell that changed and changed back is harmless. */
  lemma {:induction false} AppendsAreLinearizable(ws: seq<World>, es: seq<Event>, i: nat)
    requires Run(ws, es) && i < |ws|
    ensures Inv(ws[0].cell, ws[i])
  {
    if i > 0 {
      AppendsAreLinearizable(ws, es, i - 1);
      Step(ws[0].cell, ws[i - 1], es[i - 1]);
    }
  }

  /** Within the call: an effect is logged only by a step of the call that owns it. */
  lemma EffectIsInsideItsCall(ws: seq<World>, es: seq<Event>, i: nat, id: nat)
    requires Run(ws, es) && i < |es| && Count(ws[i].log, id) != Count(ws[i + 1].log, id)
    ensures es[i].Swap? && es[i].id == id && id in ws[i].appenders && ws[i].appenders[id].Running()
    ensures !ws[i + 1].appenders[id].Running()
  {
    hide Replay, Count, Append;
    var w := ws[i];
    if es[i].Swap? {
      LogGrows(ws[0].cell, w.log, Appended(es[i].id, w.appenders[es[i].id].turn));
    } else if es[i].Replace? {
      LogGrows(ws[0].cell, w.log, Replaced(es[i].cell));
    }
  }

  /** The turns that were new when they were appended, one after another. */
  function Everything(log: seq<Effect>): Items
  {
    if log == [] then []
    else
      var before := log[..|log| - 1];
      var e := log[|log| - 1];
      if e.Appended? && !Known(ItemsOf(Replay(Empty, before)), e.turn) then Everything(before) + e.turn
      else Everything(before)
  }

  predicate OnlyTurns(log: seq<Effect>)
  {
    forall i :: 0 <= i < |log| ==> log[i].Appended? && StartsTurn(log[i].turn)
  }

  /** Appending to what a trim left is appending and then trimming. */
  lemma AppendAfterTrim(all: Items, turn: Items)
    requires StartsTurn(turn) && (all == [] || StartsTurn(all))
    ensures Append(Trim(all), turn) == Trim(if Known(Trim(all), turn) then all else all + turn)
  {
    hide Fits, Trim, Known, StartsTurn;
    var held := Trim(all);
    if all != [] { TrimStartsTurn(all); }
    TrimIsLongest(all);
    assert Base(held) == held;
    if Known(held, turn) {
      TrimKeepsWhatFits(held);
    } else {
      TrimFusion(all, turn);
    }
  }

  lemma OnlyTurnsBefore(log: seq<Effect>)
    requires OnlyTurns(log) && log != []
    ensures OnlyTurns(log[..|log| - 1]) && log[|log| - 1].Appended? && StartsTurn(log[|log| - 1].turn)
  {
  }

  /** What the register holds is the longest turn-aligned suffix, within the bounds, of all that
      was ever appended to it: trimming at every append loses nothing more than trimming once. */
  lemma {:induction false} CacheIsSuffixOfEverything(log: seq<Effect>)
    requires OnlyTurns(log)
    ensures ItemsOf(Replay(Empty, log)) == Trim(Everything(log))
    ensures Everything(log) == [] || StartsTurn(Everything(log))
  {
    hide Trim, Append, Known, OnlyTurns;
    if log == [] {
      NothingTrimmed();
    } else {
      var before := log[..|log| - 1];
      OnlyTurnsBefore(log);
      CacheIsSuffixOfEverything(before);
      AppendAfterTrim(Everything(before), log[|log| - 1].turn);
    }
  }

  lemma NothingTrimmed()
    ensures Trim([]) == []
  {
  }

  /** So in every run that starts empty and only sees turns appended, by however many callers. */
  lemma EveryRunHoldsASuffix(ws: seq<World>, es: seq<Event>, i: nat)
    requires Run(ws, es) && i < |ws| && ws[0].cell == Empty && OnlyTurns(ws[i].log)
    ensures ItemsOf(ws[i].cell) == Trim(Everything(ws[i].log))
    ensures Fits(ItemsOf(ws[i].cell))
  {
    AppendsAreLinearizable(ws, es, i);
    CacheIsSuffixOfEverything(ws[i].log);
    TrimIsLongest(Everything(ws[i].log));
  }
}
