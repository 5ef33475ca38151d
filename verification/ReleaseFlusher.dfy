/** The concurrency-release flusher: cumulative sequences per group, a ticket per mark, and
    flushes during which further marks, and further flushes, may happen. */
module ReleaseFlusher {
  import opened Wrappers

  newtype int64 = x: int | -0x8000_0000_0000_0000 <= x < 0x8000_0000_0000_0000

  datatype Group = Group(credential: string, model: string)

  /** A ticket's channel, numbered as issued. */
  type Ticket = nat

  datatype Issue = Issue(group: Group, sequence: int64)

  datatype State = State(latest: int64, acked: int64, waiters: map<int64, seq<Ticket>>)

  const NEW_STATE := State(0, 0, map[])

  /** The flusher as a value: its groups, what each ticket was issued for, and the closed channels. */
  datatype Flusher = Flusher(groups: map<Group, State>, issued: seq<Issue>, closed: set<Ticket>)

  function StateOf(f: Flusher, g: Group): State
  {
    if g in f.groups then f.groups[g] else NEW_STATE
  }

  predicate Markable(g: Group, sequence: int64)
  {
    sequence > 0 && g.credential != "" && g.model != ""
  }

  function WaitersAt(s: State, sequence: int64): seq<Ticket>
  {
    if sequence in s.waiters then s.waiters[sequence] else []
  }

  /** A mark: closed on the spot if its sequence was acknowledged already, otherwise left waiting. */
  function Marked(f: Flusher, g: Group, sequence: int64): Flusher
  {
    var s := StateOf(f, g);
    var t := |f.issued|;
    var issued := f.issued + [Issue(g, sequence)];
    if sequence <= s.acked then Flusher(f.groups, issued, f.closed + {t})
    else
      var s' := State(if sequence > s.latest then sequence else s.latest, s.acked,
                      s.waiters[sequence := WaitersAt(s, sequence) + [t]]);
      Flusher(f.groups[g := s'], issued, f.closed)
  }

  /** What a flush sets out to send. */
  function Pending(f: Flusher): map<Group, int64>
  {
    map g | g in f.groups && f.groups[g].latest > f.groups[g].acked :: f.groups[g].latest
  }

  function DueUnder(s: State, keys: set<int64>, sequence: int64): set<Ticket>
  {
    set w, t | w in keys && w in s.waiters && w <= sequence && t in s.waiters[w] :: t
  }

  function Due(s: State, sequence: int64): set<Ticket>
  {
    DueUnder(s, s.waiters.Keys, sequence)
  }

  function WaitingWithout(s: State, keys: set<int64>, sequence: int64): map<int64, seq<Ticket>>
  {
    map w | w in s.waiters && !(w in keys && w <= sequence) :: s.waiters[w]
  }

  function StillWaiting(s: State, sequence: int64): map<int64, seq<Ticket>>
  {
    WaitingWithout(s, s.waiters.Keys, sequence)
  }

  /** The critical section after a successful send. */
  function Acknowledged(f: Flusher, g: Group, sequence: int64): Flusher
  {
    var s := StateOf(f, g);
    if sequence > s.acked then
      f.(groups := f.groups[g := State(s.latest, sequence, StillWaiting(s, sequence))], closed := f.closed + Due(s, sequence))
    else f.(groups := f.groups[g := s])
  }

  /** Everything marked so far is acknowledged and nobody waits. */
  function Settled(s: State): State
  {
    State(s.latest, s.latest, map[])
  }

  predicate IsIdle(f: Flusher)
  {
    forall g :: g in f.groups ==> f.groups[g].latest <= f.groups[g].acked
  }

  // ---------------------------------------------------------------- the invariant

  function Elements(ts: seq<Ticket>): set<Ticket>
  {
    set t | t in ts
  }

  predicate Unique(ts: seq<Ticket>)
  {
    forall i, j :: 0 <= i < j < |ts| ==> ts[i] != ts[j]
  }

  /** An open ticket waits in its group under its own sequence. */
  predicate Waits(f: Flusher, t: Ticket)
    requires t < |f.issued|
  {
    var i := f.issued[t];
    i.group in f.groups && i.sequence in f.groups[i.group].waiters && t in f.groups[i.group].waiters[i.sequence]
  }

  /** The tickets under `w` in group `g` were issued for just that, are open, and are listed once. */
  predicate ListOk(f: Flusher, g: Group, w: int64)
    requires g in f.groups && w in f.groups[g].waiters
  {
    var ts := f.groups[g].waiters[w];
    && Unique(ts) && f.groups[g].acked < w <= f.groups[g].latest
    && (forall t :: t in ts ==> t < |f.issued| && f.issued[t] == Issue(g, w) && t !in f.closed)
  }

  ghost predicate Inv(f: Flusher)
  {
    && (forall g :: g in f.groups ==> 0 <= f.groups[g].acked <= f.groups[g].latest)
    && (forall g, w :: g in f.groups && w in f.groups[g].waiters ==> ListOk(f, g, w))
    && (forall t :: t in f.closed ==> t < |f.issued| && f.issued[t].sequence <= StateOf(f, f.issued[t].group).acked)
    && (forall t :: 0 <= t < |f.issued| && t !in f.closed ==> Waits(f, t))
  }

  /** A list of older tickets takes a new one. */
  lemma UniqueGrows(before: seq<Ticket>, t: Ticket)
    requires Unique(before) && forall u :: u in before ==> u < t
    ensures Unique(before + [t])
  {
    forall i | 0 <= i < |before| ensures before[i] != t {
      assert before[i] in before;
    }
  }

  lemma ListTakesMark(f: Flusher, g: Group, sequence: int64)
    requires Inv(f) && Markable(g, sequence) && sequence > StateOf(f, g).acked
    ensures ListOk(Marked(f, g, sequence), g, sequence)
  {
    var before := WaitersAt(StateOf(f, g), sequence);
    assert before != [] ==> ListOk(f, g, sequence);
    UniqueGrows(before, |f.issued|);
  }

  lemma ListsAfterMark(f: Flusher, g: Group, sequence: int64, h: Group, w: int64)
    requires Inv(f) && Markable(g, sequence) && h in Marked(f, g, sequence).groups && w in Marked(f, g, sequence).groups[h].waiters
    ensures ListOk(Marked(f, g, sequence), h, w)
  {
    if h == g && w == sequence > StateOf(f, g).acked {
      ListTakesMark(f, g, sequence);
    } else {
      assert ListOk(f, h, w);
    }
  }

  lemma MarkKeeps(f: Flusher, g: Group, sequence: int64)
    requires Inv(f) && Markable(g, sequence)
    ensures Inv(Marked(f, g, sequence))
  {
    var f' := Marked(f, g, sequence);
    forall h, w | h in f'.groups && w in f'.groups[h].waiters ensures ListOk(f', h, w) {
      ListsAfterMark(f, g, sequence, h, w);
    }
    forall u | 0 <= u < |f'.issued| && u !in f'.closed ensures Waits(f', u) {
      if u < |f.issued| { assert Waits(f, u); }
    }
  }

  lemma AckKeeps(f: Flusher, g: Group, sequence: int64)
    requires Inv(f) && g in f.groups && sequence <= f.groups[g].latest
    ensures Inv(Acknowledged(f, g, sequence))
  {
    var f' := Acknowledged(f, g, sequence);
    var s := f.groups[g];
    forall h, w | h in f'.groups && w in f'.groups[h].waiters ensures ListOk(f', h, w) {
      assert ListOk(f, h, w);
    }
    forall t | t in f'.closed ensures t < |f'.issued| && f'.issued[t].sequence <= StateOf(f', f'.issued[t].group).acked {
      if t !in f.closed {
        var w :| w in s.waiters && w <= sequence && t in s.waiters[w];
        assert ListOk(f, g, w);
      }
    }
    forall t | 0 <= t < |f'.issued| && t !in f'.closed ensures Waits(f', t) {
      assert Waits(f, t);
      assert f.issued[t].group == g && f.issued[t].sequence <= sequence ==> t in Due(s, sequence);
    }
  }

  lemma NothingDone(s: State, sequence: int64)
    ensures DueUnder(s, {}, sequence) == {} && WaitingWithout(s, {}, sequence) == s.waiters
  {
  }

  lemma OneMoreDone(s: State, keys: set<int64>, sequence: int64, w: int64, closed: set<Ticket>)
    requires w in s.waiters && w !in keys
    ensures closed + DueUnder(s, keys + {w}, sequence)
         == if w <= sequence then closed + DueUnder(s, keys, sequence) + Elements(s.waiters[w]) else closed + DueUnder(s, keys, sequence)
    ensures w in WaitingWithout(s, keys, sequence) && WaitingWithout(s, keys, sequence)[w] == s.waiters[w]
    ensures WaitingWithout(s, keys + {w}, sequence)
         == if w <= sequence then WaitingWithout(s, keys, sequence) - {w} else WaitingWithout(s, keys, sequence)
  {
  }

  /** A list that was not reached yet is open, and closed lists have no ticket in common with it. */
  lemma ListIsOpen(f: Flusher, g: Group, keys: set<int64>, sequence: int64, w: int64)
    requires Inv(f) && g in f.groups && w in f.groups[g].waiters && w !in keys
    ensures Unique(f.groups[g].waiters[w])
    ensures forall t :: t in f.groups[g].waiters[w] ==> t !in f.closed + DueUnder(f.groups[g], keys, sequence)
  {
    assert ListOk(f, g, w);
    forall v, t | v in keys && v in f.groups[g].waiters && t in f.groups[g].waiters[v] ensures t !in f.groups[g].waiters[w] {
      assert ListOk(f, g, v);
    }
  }

  lemma AckSettles(f: Flusher, g: Group)
    requires Inv(f) && g in f.groups && f.groups[g].latest > f.groups[g].acked
    ensures Acknowledged(f, g, f.groups[g].latest).groups == f.groups[g := Settled(f.groups[g])]
    ensures Acknowledged(f, g, f.groups[g].latest).issued == f.issued
  {
    forall w | w in f.groups[g].waiters ensures w <= f.groups[g].latest {
      assert ListOk(f, g, w);
    }
  }

  // ---------------------------------------------------------------- the flusher

  class ReleaseFlusher {
    var groups: map<Group, State>
    var closed: set<Ticket>
    var tickets: nat
    ghost var issued: seq<Issue>

    ghost function Value(): Flusher
      reads this
    {
      Flusher(groups, issued, closed)
    }

    ghost predicate Valid()
      reads this
    {
      Inv(Value()) && tickets == |issued|
    }

    constructor ()
      ensures Valid() && Value() == Flusher(map[], [], {})
    {
      groups, closed, tickets, issued := map[], {}, 0, [];
    }

    /** Closing a channel twice is a run-time panic. */
    method Close(t: Ticket)
      requires t !in closed
      modifies this`closed
      ensures closed == old(closed) + {t}
    {
      closed := closed + {t};
    }

    method MarkDirty(group: Group, sequence: int64) returns (ticket: Option<Ticket>)
      requires Valid()
      modifies this
      ensures Valid()
      ensures if Markable(group, sequence) then ticket == Some(|old(issued)|) && Value() == Marked(old(Value()), group, sequence)
              else ticket == None && Value() == old(Value())
    {
      if sequence <= 0 || group.credential == "" || group.model == "" {
        return None;
      }
      MarkKeeps(Value(), group, sequence);
      assert tickets !in closed;
      var done := tickets;
      tickets := tickets + 1;
      issued := issued + [Issue(group, sequence)];
      var state := if group in groups then groups[group] else NEW_STATE;
      if sequence <= state.acked {
        Close(done);
      } else {
        var before := if sequence in state.waiters then state.waiters[sequence] else [];
        state := state.(waiters := state.waiters[sequence := before + [done]]);
        if sequence > state.latest {
          state := state.(latest := sequence);
        }
        groups := groups[group := state];
      }
      return Some(done);
    }

    method Snapshot() returns (pending: map<Group, int64>)
      ensures pending == Pending(Value())
    {
      pending := map[];
      var left := groups.Keys;
      while left != {}
        invariant left <= groups.Keys
        invariant pending == map g | g in groups && g !in left && groups[g].latest > groups[g].acked :: groups[g].latest
        decreases |left|
      {
        var g :| g in left;
        left := left - {g};
        if groups[g].latest > groups[g].acked {
          pending := pending[g := groups[g].latest];
        }
      }
    }

    /** Closes every waiter of one list. */
    method CloseAll(waiters: seq<Ticket>)
      requires Unique(waiters) && forall t :: t in waiters ==> t !in closed
      modifies this`closed
      ensures closed == old(closed) + Elements(waiters)
    {
      for i := 0 to |waiters|
        invariant closed == old(closed) + Elements(waiters[..i])
      {
        assert waiters[i] in waiters;
        Close(waiters[i]);
        assert waiters[..i + 1] == waiters[..i] + [waiters[i]];
      }
      assert waiters[..|waiters|] == waiters;
    }

    /** After a successful send: raise the acknowledged sequence and close what it covers. */
    method Acknowledge(group: Group, sequence: int64)
      requires Valid() && group in groups && sequence <= groups[group].latest
      modifies this`groups, this`closed
      ensures Valid() && Value() == Acknowledged(old(Value()), group, sequence)
    {
      AckKeeps(Value(), group, sequence);
      var state := groups[group];
      if sequence > state.acked {
        var waiters := CloseDue(group, sequence);
        state := State(state.latest, sequence, waiters);
      }
      groups := groups[group := state];
    }

    /** The loop over the waiting lists: each list that is covered is closed and dropped. */
    method CloseDue(group: Group, sequence: int64) returns (waiters: map<int64, seq<Ticket>>)
      requires Valid() && group in groups
      modifies this`closed
      ensures waiters == StillWaiting(groups[group], sequence)
      ensures closed == old(closed) + Due(groups[group], sequence)
    {
      hide DueUnder, WaitingWithout, Inv, Unique, Elements;
      var s := groups[group];
      waiters := s.waiters;
      ghost var f, done := Value(), {};
      var left := s.waiters.Keys;
      NothingDone(s, sequence);
      while left != {}
        invariant left == s.waiters.Keys - done && done <= s.waiters.Keys
        invariant waiters == WaitingWithout(s, done, sequence)
        invariant closed == f.closed + DueUnder(s, done, sequence)
        decreases |left|
      {
        var w :| w in left;
        left := left - {w};
        ListIsOpen(f, group, done, sequence, w);
        OneMoreDone(s, done, sequence, w, f.closed);
        done := done + {w};
        if w <= sequence {
          CloseAll(waiters[w]);
          waiters := waiters - {w};
        }
      }
      assert done == s.waiters.Keys;
    }

    /** One flush during which nothing else happens. `sender` holds the groups whose frames Home
        accepts; a flusher that has no sender yet does nothing. */
    method Flush(sender: Option<set<Group>>) returns (failed: bool)
      requires Valid()
      modifies this`groups, this`closed
      ensures Valid() && issued == old(issued)
      ensures failed <==> sender.Some? && exists g :: g in Pending(old(Value())) && g !in sender.value
      ensures groups.Keys == old(groups).Keys
      ensures forall g :: g in groups ==>
        groups[g] == if sender.Some? && g in Pending(old(Value())) && g in sender.value then Settled(old(groups)[g]) else old(groups)[g]
      ensures sender.None? ==> closed == old(closed)
    {
      hide Inv, Acknowledged, Settled;
      var pending := Snapshot();
      if sender.None? {
        return false;
      }
      failed := false;
      var left := pending.Keys;
      while left != {}
        invariant Valid() && issued == old(issued) && left <= pending.Keys && groups.Keys == old(groups).Keys
        invariant failed <==> exists g :: g in pending.Keys - left && g !in sender.value
        invariant forall g :: g in groups ==>
          groups[g] == if g in pending.Keys - left && g in sender.value then Settled(old(groups)[g]) else old(groups)[g]
        decreases |left|
      {
        var g :| g in left;
        left := left - {g};
        if g !in sender.value {
          failed := true;
        } else {
          AckSettles(Value(), g);
          Acknowledge(g, pending[g]);
        }
      }
    }

    method Idle() returns (idle: bool)
      ensures idle <==> IsIdle(Value())
    {
      var left := groups.Keys;
      while left != {}
        invariant left <= groups.Keys
        invariant forall g :: g in groups && g !in left ==> groups[g].latest <= groups[g].acked
        decreases |left|
      {
        var g :| g in left;
        left := left - {g};
        if groups[g].latest > groups[g].acked {
          return false;
        }
      }
      return true;
    }
  }

  // ---------------------------------------------------------------- any interleaving

  /** A flush under way: what it has still to send, and what Home accepted but it has not yet recorded. */
  datatype Flight = Flight(pending: map<Group, int64>, accepted: map<Group, int64>)

  /** `home` is the highest sequence Home has accepted for each group, `answered` the highest of those whose
      acceptance reached the sender. */
  datatype World = World(flusher: Flusher, flights: map<nat, Flight>, home: map<Group, int64>, answered: map<Group, int64>)

  /** How a send ends: accepted and answered, accepted with the answer lost, or not accepted. */
  datatype Reply = Accepted | AnswerLost | NotAccepted

  /** Marks, and the separate steps of any number of flushes: the snapshot, each send, each recording of an acceptance. */
  datatype Event =
    | Mark(group: Group, sequence: int64)
    | Begin(id: nat)
    | Send(id: nat, group: Group, reply: Reply)
    | Record(id: nat, group: Group)

  predicate Enabled(w: World, e: Event)
  {
    match e
    case Mark(g, sequence) => Markable(g, sequence)
    case Begin(id) => id !in w.flights
    case Send(id, g, _) => id in w.flights && g in w.flights[id].pending
    case Record(id, g) => id in w.flights && g in w.flights[id].accepted
  }

  function HomeOf(w: World, g: Group): int64
  {
    if g in w.home then w.home[g] else 0
  }

  function AnsweredOf(w: World, g: Group): int64
  {
    if g in w.answered then w.answered[g] else 0
  }

  function Max(a: int64, b: int64): int64
  {
    if a > b then a else b
  }

  function Next(w: World, e: Event): World
    requires Enabled(w, e)
  {
    match e
    case Mark(g, sequence) => w.(flusher := Marked(w.flusher, g, sequence))
    case Begin(id) => w.(flights := w.flights[id := Flight(Pending(w.flusher), map[])])
    case Send(id, g, reply) =>
      var fl := w.flights[id];
      var s := fl.pending[g];
      var heard := if reply.Accepted? then fl.accepted[g := s] else fl.accepted;
      World(w.flusher, w.flights[id := Flight(fl.pending - {g}, heard)],
            if reply.NotAccepted? then w.home else w.home[g := Max(s, HomeOf(w, g))],
            if reply.Accepted? then w.answered[g := Max(s, AnsweredOf(w, g))] else w.answered)
    case Record(id, g) =>
      var fl := w.flights[id];
      w.(flusher := Acknowledged(w.flusher, g, fl.accepted[g]), flights := w.flights[id := Flight(fl.pending, fl.accepted - {g})])
  }

  /** A sequence on its way through a flush was a latest sequence of its group. */
  predicate Bounded(w: World, g: Group, sequence: int64)
  {
    g in w.flusher.groups && 0 < sequence <= w.flusher.groups[g].latest
  }

  predicate FlightOk(w: World, id: nat)
    requires id in w.flights
  {
    && (forall g :: g in w.flights[id].pending ==> g !in w.flights[id].accepted && Bounded(w, g, w.flights[id].pending[g]))
    && (forall g :: g in w.flights[id].accepted ==> Bounded(w, g, w.flights[id].accepted[g]) && w.flights[id].accepted[g] <= AnsweredOf(w, g))
  }

  /** Some flush still has to record the last answer for `g`. */
  ghost predicate InFlight(w: World, g: Group)
  {
    exists id :: id in w.flights && g in w.flights[id].accepted && w.flights[id].accepted[g] == AnsweredOf(w, g)
  }

  ghost predicate GroupOk(w: World, g: Group)
  {
    && StateOf(w.flusher, g).acked <= AnsweredOf(w, g) <= HomeOf(w, g) <= StateOf(w.flusher, g).latest
    && (StateOf(w.flusher, g).acked < AnsweredOf(w, g) ==> InFlight(w, g))
  }

  ghost predicate WorldInv(w: World)
  {
    && Inv(w.flusher)
    && (forall id :: id in w.flights ==> FlightOk(w, id))
    && (forall g :: GroupOk(w, g))
  }

  lemma MarkGroup(w: World, g: Group, sequence: int64, h: Group)
    requires Inv(w.flusher) && Markable(g, sequence) && GroupOk(w, h)
    ensures GroupOk(Next(w, Mark(g, sequence)), h)
  {
    var w' := Next(w, Mark(g, sequence));
    assert w'.flights == w.flights && w'.answered == w.answered && w'.home == w.home;
    assert InFlight(w, h) ==> InFlight(w', h);
  }

  lemma MarkSpares(w: World, g: Group, sequence: int64, id: nat)
    requires Markable(g, sequence) && id in w.flights && FlightOk(w, id)
    ensures FlightOk(Next(w, Mark(g, sequence)), id)
  {
  }

  lemma MarkStep(w: World, g: Group, sequence: int64)
    requires WorldInv(w) && Markable(g, sequence)
    ensures WorldInv(Next(w, Mark(g, sequence)))
  {
    hide Inv, GroupOk, FlightOk;
    var w' := Next(w, Mark(g, sequence));
    MarkKeeps(w.flusher, g, sequence);
    forall id | id in w'.flights ensures FlightOk(w', id) {
      MarkSpares(w, g, sequence, id);
    }
    forall h ensures GroupOk(w', h) {
      MarkGroup(w, g, sequence, h);
    }
  }

  lemma BeginFlight(w: World, id: nat)
    requires WorldInv(w) && id !in w.flights
    ensures FlightOk(Next(w, Begin(id)), id)
  {
  }

  lemma BeginGroup(w: World, id: nat, h: Group)
    requires id !in w.flights && GroupOk(w, h)
    ensures GroupOk(Next(w, Begin(id)), h)
  {
    hide Inv, Pending;
    var w' := Next(w, Begin(id));
    if InFlight(w, h) {
      var i :| i in w.flights && h in w.flights[i].accepted && w.flights[i].accepted[h] == AnsweredOf(w, h);
      assert w'.flights[i].accepted[h] == AnsweredOf(w', h);
    }
  }

  lemma BeginSpares(w: World, id: nat, i: nat)
    requires id !in w.flights && i in w.flights && FlightOk(w, i)
    ensures i in Next(w, Begin(id)).flights && FlightOk(Next(w, Begin(id)), i)
  {
    hide Inv, Pending;
  }

  lemma BeginStep(w: World, id: nat)
    requires WorldInv(w) && id !in w.flights
    ensures WorldInv(Next(w, Begin(id)))
  {
    hide Inv, GroupOk, FlightOk, Pending;
    var w' := Next(w, Begin(id));
    BeginFlight(w, id);
    forall i | i in w'.flights ensures FlightOk(w', i) {
      if i != id { BeginSpares(w, id, i); }
    }
    forall h ensures GroupOk(w', h) {
      BeginGroup(w, id, h);
    }
  }

  lemma SendGroup(w: World, id: nat, g: Group, reply: Reply, h: Group)
    requires id in w.flights && g in w.flights[id].pending && FlightOk(w, id) && GroupOk(w, h)
    ensures GroupOk(Next(w, Send(id, g, reply)), h)
  {
    hide Inv;
    var w' := Next(w, Send(id, g, reply));
    if AnsweredOf(w', h) != AnsweredOf(w, h) {
      assert w'.flights[id].accepted[h] == AnsweredOf(w', h);
    } else if InFlight(w, h) {
      var i :| i in w.flights && h in w.flights[i].accepted && w.flights[i].accepted[h] == AnsweredOf(w, h);
      assert w'.flights[i].accepted[h] == AnsweredOf(w', h);
    }
  }

  lemma SendFlight(w: World, id: nat, g: Group, reply: Reply, i: nat)
    requires id in w.flights && g in w.flights[id].pending && i in w.flights && FlightOk(w, i)
    ensures FlightOk(Next(w, Send(id, g, reply)), i)
  {
  }

  lemma SendStep(w: World, id: nat, g: Group, reply: Reply)
    requires WorldInv(w) && id in w.flights && g in w.flights[id].pending
    ensures WorldInv(Next(w, Send(id, g, reply)))
  {
    hide Inv, GroupOk, FlightOk;
    var w' := Next(w, Send(id, g, reply));
    assert FlightOk(w, id);
    forall i | i in w'.flights ensures FlightOk(w', i) {
      SendFlight(w, id, g, reply, i);
    }
    forall h ensures GroupOk(w', h) {
      SendGroup(w, id, g, reply, h);
    }
  }

  lemma RecordGroup(w: World, id: nat, g: Group, h: Group)
    requires id in w.flights && g in w.flights[id].accepted && FlightOk(w, id) && GroupOk(w, h)
    ensures GroupOk(Next(w, Record(id, g)), h)
  {
    var w' := Next(w, Record(id, g));
    if InFlight(w, h) {
      var i :| i in w.flights && h in w.flights[i].accepted && w.flights[i].accepted[h] == AnsweredOf(w, h);
      assert (i == id && h == g) || w'.flights[i].accepted[h] == AnsweredOf(w', h);
    }
  }

  lemma AcceptedIsBounded(w: World, id: nat, g: Group)
    requires id in w.flights && g in w.flights[id].accepted && FlightOk(w, id)
    ensures Bounded(w, g, w.flights[id].accepted[g])
  {
  }

  lemma RecordFlight(w: World, id: nat, g: Group, i: nat)
    requires id in w.flights && g in w.flights[id].accepted && FlightOk(w, id) && i in w.flights && FlightOk(w, i)
    ensures FlightOk(Next(w, Record(id, g)), i)
  {
    AcceptedIsBounded(w, id, g);
  }

  lemma RecordStep(w: World, id: nat, g: Group)
    requires WorldInv(w) && id in w.flights && g in w.flights[id].accepted
    ensures WorldInv(Next(w, Record(id, g)))
  {
    hide Inv, GroupOk, FlightOk;
    var w' := Next(w, Record(id, g));
    assert FlightOk(w, id);
    AcceptedIsBounded(w, id, g);
    AckKeeps(w.flusher, g, w.flights[id].accepted[g]);
    forall i | i in w'.flights ensures FlightOk(w', i) {
      RecordFlight(w, id, g, i);
    }
    forall h ensures GroupOk(w', h) {
      RecordGroup(w, id, g, h);
    }
  }

  ghost predicate Run(ws: seq<World>, es: seq<Event>)
  {
    && |ws| == |es| + 1 && ws[0] == World(Flusher(map[], [], {}), map[], map[], map[])
    && (forall i :: 0 <= i < |es| ==> Enabled(ws[i], es[i]) && ws[i + 1] == Next(ws[i], es[i]))
  }

  lemma {:induction false} InvAlways(ws: seq<World>, es: seq<Event>, i: nat)
    requires Run(ws, es) && i < |ws|
    ensures WorldInv(ws[i])
  {
    if i > 0 {
      InvAlways(ws, es, i - 1);
      match es[i - 1]
      case Mark(g, sequence) => MarkStep(ws[i - 1], g, sequence);
      case Begin(id) => BeginStep(ws[i - 1], id);
      case Send(id, g, reply) => SendStep(ws[i - 1], id, g, reply);
      case Record(id, g) => RecordStep(ws[i - 1], id, g);
    }
  }

  /** Tickets in every reachable state. A closed ticket was covered by a sequence that Home accepted;
      once no answer is waiting to be recorded, it is closed exactly when an answered one covers it. An open
      ticket's sequence lies in (acked, latest], so an idle flusher has no open ticket; and one that Home
      accepted all the same, its answer lost, is among what the next flush sends again. */
  lemma TicketsFollowHome(ws: seq<World>, es: seq<Event>, i: nat, t: Ticket)
    requires Run(ws, es) && i < |ws| && t < |ws[i].flusher.issued|
    ensures var w, issue := ws[i], ws[i].flusher.issued[t];
      var s := StateOf(w.flusher, issue.group);
      && (t in w.flusher.closed <==> issue.sequence <= s.acked)
      && (t in w.flusher.closed ==> issue.sequence <= HomeOf(w, issue.group))
      && (!InFlight(w, issue.group) ==> (t in w.flusher.closed <==> issue.sequence <= AnsweredOf(w, issue.group)))
      && (t !in w.flusher.closed ==> s.acked < issue.sequence <= s.latest)
      && s.acked <= s.latest
      && (IsIdle(w.flusher) ==> t in w.flusher.closed)
      && (t !in w.flusher.closed ==> issue.group in Pending(w.flusher) && Pending(w.flusher)[issue.group] >= issue.sequence)
  {
    InvAlways(ws, es, i);
    var w, issue := ws[i], ws[i].flusher.issued[t];
    assert GroupOk(w, issue.group);
    if t !in w.flusher.closed {
      assert Waits(w.flusher, t) && ListOk(w.flusher, issue.group, issue.sequence);
    }
  }

  /** Sequences only grow, and no ticket is closed twice or reopened. */
  lemma NothingGoesBack(w: World, e: Event, g: Group)
    requires WorldInv(w) && Enabled(w, e)
    ensures var w' := Next(w, e);
      && StateOf(w.flusher, g).latest <= StateOf(w'.flusher, g).latest
      && StateOf(w.flusher, g).acked <= StateOf(w'.flusher, g).acked
      && HomeOf(w, g) <= HomeOf(w', g) && AnsweredOf(w, g) <= AnsweredOf(w', g)
      && w.flusher.closed <= w'.flusher.closed && w.flusher.issued <= w'.flusher.issued
  {
  }
}
