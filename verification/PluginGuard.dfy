/** The guarded plugin client: calls counted in and out under a mutex, and a shutdown that waits
    for them on a condition variable before it shuts the inner client down. */
module PluginGuard {
  /** The fields behind the mutex. `inner` is whether the inner client is still attached. */
  datatype Guard = Guard(inner: bool, calls: int, closed: bool)

  // ---------------------------------------------------------------- the critical sections

  predicate CanAcquire(g: Guard)
  {
    !g.closed && g.inner
  }

  function CountedIn(g: Guard): Guard
  {
    if CanAcquire(g) then g.(calls := g.calls + 1) else g
  }

  function CountedOut(g: Guard): Guard
  {
    g.(calls := g.calls - 1)
  }

  /** The first shutdown detaches the inner client; the others only find the door closed. */
  function Detached(g: Guard): Guard
  {
    if g.closed then g else Guard(false, g.calls, true)
  }

  class GuardedClient {
    var inner: bool
    var calls: int
    var closed: bool

    ghost function Value(): Guard
      reads this
    {
      Guard(inner, calls, closed)
    }

    constructor (inner: bool)
      ensures Value() == Guard(inner, 0, false)
    {
      this.inner, calls, closed := inner, 0, false;
    }

    method Acquire() returns (ok: bool)
      modifies this
      ensures (ok <==> CanAcquire(old(Value()))) && Value() == CountedIn(old(Value()))
    {
      if closed || !inner {
        return false;
      }
      calls := calls + 1;
      return true;
    }

    /** `broadcast` is whether a waiting shutdown is woken. */
    method Release() returns (broadcast: bool)
      modifies this`calls
      ensures Value() == CountedOut(old(Value())) && (broadcast <==> calls == 0)
    {
      calls := calls - 1;
      broadcast := calls == 0;
    }

    /** `hadInner` is whether the first shutdown took an inner client out. */
    method Detach() returns (first: bool, hadInner: bool)
      modifies this
      ensures (first <==> !old(closed)) && (hadInner <==> first && old(inner))
      ensures Value() == Detached(old(Value()))
    {
      if closed {
        return false, false;
      }
      closed := true;
      hadInner := inner;
      inner := false;
      first := true;
    }
  }

  // ---------------------------------------------------------------- any interleaving

  /** A call: counted in, inside the inner client, back out but not yet counted out, over.
      `waiting` is whether its caller still waits; a cancelled caller abandons the call, which goes on. */
  datatype Phase = Acquired | Inside | Leaving | Over | Rejected
  datatype Call = Call(phase: Phase, waiting: bool)
  {
    predicate Counted() { phase.Acquired? || phase.Inside? || phase.Leaving? }
  }

  /** The goroutine of a shutdown that found the door open, with the inner client it took out, if any. */
  datatype Stage = Checking | Asleep | Passed | ShuttingDown | Returned | DoneClosed
  datatype Reaper = Reaper(inner: bool, stage: Stage)

  /** `innerShutdowns` and `doneCloses` count what must not happen twice. */
  datatype World = World(guard: Guard, calls: map<nat, Call>, reapers: map<nat, Reaper>, innerShutdowns: nat, doneCloses: nat)

  datatype Event =
    | Arrive(id: nat)
    | Enter(id: nat)
    | Return(id: nat)
    | Leave(id: nat)
    | Abandon(id: nat)
    | Shutdown(id: nat)
    | Check(id: nat)
    | BeginInner(id: nat)
    | EndInner(id: nat)
    | CloseDone(id: nat)

  predicate At(w: World, id: nat, p: Phase)
  {
    id in w.calls && w.calls[id].phase == p
  }

  predicate Reaping(w: World, id: nat, s: Stage)
  {
    id in w.reapers && w.reapers[id].stage == s
  }

  predicate Enabled(w: World, e: Event)
  {
    match e
    case Arrive(id) => id !in w.calls
    case Enter(id) => At(w, id, Acquired)
    case Return(id) => At(w, id, Inside)
    case Leave(id) => At(w, id, Leaving)
    case Abandon(id) => id in w.calls && w.calls[id].Counted() && w.calls[id].waiting
    case Shutdown(id) => id !in w.reapers
    case Check(id) => Reaping(w, id, Checking)
    case BeginInner(id) => Reaping(w, id, Passed) && w.reapers[id].inner
    case EndInner(id) => Reaping(w, id, ShuttingDown)
    case CloseDone(id) => Reaping(w, id, Returned) || (Reaping(w, id, Passed) && !w.reapers[id].inner)
  }

  function Moved(w: World, id: nat, p: Phase): World
    requires id in w.calls
  {
    w.(calls := w.calls[id := w.calls[id].(phase := p)])
  }

  function Advanced(w: World, id: nat, s: Stage): World
    requires id in w.reapers
  {
    w.(reapers := w.reapers[id := w.reapers[id].(stage := s)])
  }

  /** A broadcast wakes whoever sleeps. */
  function Woken(reapers: map<nat, Reaper>): map<nat, Reaper>
  {
    map id | id in reapers :: if reapers[id].stage == Asleep then reapers[id].(stage := Checking) else reapers[id]
  }

  function Next(w: World, e: Event): World
    requires Enabled(w, e)
  {
    match e
    case Arrive(id) =>
      w.(guard := CountedIn(w.guard),
         calls := w.calls[id := if CanAcquire(w.guard) then Call(Acquired, true) else Call(Rejected, false)])
    case Enter(id) => Moved(w, id, Inside)
    case Return(id) => Moved(w, id, Leaving)
    case Leave(id) =>
      var g := CountedOut(w.guard);
      Moved(w, id, Over).(guard := g, reapers := if g.calls == 0 then Woken(w.reapers) else w.reapers)
    case Abandon(id) => w.(calls := w.calls[id := w.calls[id].(waiting := false)])
    case Shutdown(id) =>
      w.(guard := Detached(w.guard),
         reapers := if w.guard.closed then w.reapers else w.reapers[id := Reaper(w.guard.inner, Checking)])
    case Check(id) => Advanced(w, id, if w.guard.calls > 0 then Asleep else Passed)
    case BeginInner(id) => Advanced(w, id, ShuttingDown).(innerShutdowns := w.innerShutdowns + 1)
    case EndInner(id) => Advanced(w, id, Returned)
    case CloseDone(id) => Advanced(w, id, DoneClosed).(doneCloses := w.doneCloses + 1)
  }

  ghost predicate Run(ws: seq<World>, es: seq<Event>)
  {
    && |ws| == |es| + 1
    && ws[0] == World(Guard(ws[0].guard.inner, 0, false), map[], map[], 0, 0)
    && (forall i :: 0 <= i < |es| ==> Enabled(ws[i], es[i]) && ws[i + 1] == Next(ws[i], es[i]))
  }

  function Counted(calls: map<nat, Call>): set<nat>
  {
    set id | id in calls && calls[id].Counted()
  }

  predicate PastWaiting(s: Stage)
  {
    s.Passed? || s.ShuttingDown? || s.Returned? || s.DoneClosed?
  }

  predicate InnerStarted(s: Stage)
  {
    s.ShuttingDown? || s.Returned? || s.DoneClosed?
  }

  /** A reaper against the count and the counters. */
  predicate ReaperOk(w: World, r: Reaper)
  {
    && (PastWaiting(r.stage) ==> w.guard.calls == 0)
    && (r.stage == Asleep ==> w.guard.calls > 0)
    && (r.stage.ShuttingDown? || r.stage.Returned? ==> r.inner)
    && w.innerShutdowns == (if r.inner && InnerStarted(r.stage) then 1 else 0)
    && w.doneCloses == (if r.stage.DoneClosed? then 1 else 0)
  }

  ghost predicate Inv(w: World)
  {
    && w.guard.calls == |Counted(w.calls)|
    && (w.guard.closed ==> !w.guard.inner)
    && (w.guard.closed <==> exists id :: id in w.reapers)
    && (forall id, other :: id in w.reapers && other in w.reapers ==> id == other)
    && (forall id :: id in w.reapers ==> ReaperOk(w, w.reapers[id]))
    && (!w.guard.closed ==> w.innerShutdowns == 0 == w.doneCloses)
  }

  lemma Recount(calls: map<nat, Call>, id: nat, c: Call)
    ensures |Counted(calls[id := c])| == |Counted(calls)| + (if c.Counted() then 1 else 0)
                                         - (if id in Counted(calls) then 1 else 0)
  {
    var before, after := Counted(calls), Counted(calls[id := c]);
    assert after == if c.Counted() then before + {id} else before - {id};
  }

  lemma CallStep(w: World, id: nat, e: Event)
    requires Inv(w) && Enabled(w, e) && (e == Arrive(id) || e == Enter(id) || e == Return(id) || e == Leave(id) || e == Abandon(id))
    ensures Inv(Next(w, e))
  {
    var w' := Next(w, e);
    Recount(w.calls, id, w'.calls[id]);
    assert e != Arrive(id) ==> id in Counted(w.calls);
    hide Counted;
    assert forall r :: r in w'.reapers <==> r in w.reapers;
  }

  lemma ReaperStep(w: World, id: nat, e: Event)
    requires Inv(w) && Enabled(w, e)
    requires e == Shutdown(id) || e == Check(id) || e == BeginInner(id) || e == EndInner(id) || e == CloseDone(id)
    ensures Inv(Next(w, e))
  {
    hide Counted;
    var w' := Next(w, e);
    assert id in w'.reapers || w' == w;
  }

  lemma Step(w: World, e: Event)
    requires Inv(w) && Enabled(w, e)
    ensures Inv(Next(w, e))
  {
    hide Inv;
    match e
    case Arrive(id) => CallStep(w, id, e);
    case Enter(id) => CallStep(w, id, e);
    case Return(id) => CallStep(w, id, e);
    case Leave(id) => CallStep(w, id, e);
    case Abandon(id) => CallStep(w, id, e);
    case Shutdown(id) => ReaperStep(w, id, e);
    case Check(id) => ReaperStep(w, id, e);
    case BeginInner(id) => ReaperStep(w, id, e);
    case EndInner(id) => ReaperStep(w, id, e);
    case CloseDone(id) => ReaperStep(w, id, e);
  }

  lemma {:induction false} InvAlways(ws: seq<World>, es: seq<Event>, i: nat)
    requires Run(ws, es) && i < |ws|
    ensures Inv(ws[i])
  {
    hide Inv;
    if i == 0 {
      NothingYet(ws[0].guard.inner);
    } else {
      InvAlways(ws, es, i - 1);
      Step(ws[i - 1], es[i - 1]);
    }
  }

  lemma NothingYet(inner: bool)
    ensures Inv(World(Guard(inner, 0, false), map[], map[], 0, 0))
  {
  }

  /** In every reachable state: the count is the number of calls under way, abandoned ones included; at most
      one shutdown reaps, the inner client is shut down and the done channel closed at most once; from the
      inner shutdown on no call is under way; and done is closed only after that shutdown returned. */
  lemma ShutdownIsGuarded(ws: seq<World>, es: seq<Event>, i: nat, id: nat)
    requires Run(ws, es) && i < |ws|
    ensures ws[i].guard.calls == |Counted(ws[i].calls)|
    ensures ws[i].innerShutdowns <= 1 && ws[i].doneCloses <= 1
    ensures id in ws[i].reapers ==> ws[i].reapers == map[id := ws[i].reapers[id]]
    ensures ws[i].innerShutdowns == 1 || ws[i].doneCloses == 1 ==>
      forall c :: c in ws[i].calls ==> !ws[i].calls[c].Counted()
    ensures ws[i].doneCloses == 1 && id in ws[i].reapers && ws[i].reapers[id].inner ==> ws[i].innerShutdowns == 1
  {
    var w := ws[i];
    InvAlways(ws, es, i);
    forall c | c in w.calls && w.calls[c].Counted() ensures w.guard.calls > 0 {
      assert c in Counted(w.calls);
    }
    if w.guard.closed {
      var r :| r in w.reapers;
      assert ReaperOk(w, w.reapers[r]);
    }
  }

  /** No call is let in once the door is closed, nor inside once the inner shutdown began. */
  lemma NoCallAfterShutdown(ws: seq<World>, es: seq<Event>, i: nat)
    requires Run(ws, es) && i < |es|
    ensures es[i].Arrive? && ws[i].guard.closed ==> ws[i + 1].calls[es[i].id].phase == Rejected
    ensures es[i].Enter? ==> ws[i].innerShutdowns == 0 == ws[i].doneCloses
    ensures es[i].BeginInner? ==> ws[i].innerShutdowns == 0 && ws[i + 1].guard.calls == 0
    ensures es[i].EndInner? ==> ws[i].innerShutdowns == 1
    ensures es[i].CloseDone? ==> ws[i].doneCloses == 0 && (ws[i].reapers[es[i].id].inner ==> ws[i].reapers[es[i].id].stage == Returned)
  {
    InvAlways(ws, es, i);
    if es[i].Enter? {
      assert es[i].id in Counted(ws[i].calls);
      ShutdownIsGuarded(ws, es, i, 0);
    }
  }

  /** Which calls get in, exactly: those that arrived while the door was open. Such a call is not
      turned away later, whenever it reaches the inner client; any other is turned away for good. */
  lemma {:induction false} LetInWhenOpen(ws: seq<World>, es: seq<Event>, i: nat, id: nat)
    requires Run(ws, es) && i < |ws|
    ensures id in ws[i].calls && ws[i].calls[id].phase != Rejected
      <==> exists j: nat :: j < i && es[j] == Arrive(id) && CanAcquire(ws[j].guard)
  {
    if i > 0 {
      var e := es[i - 1];
      assert ws[i] == Next(ws[i - 1], e) && Enabled(ws[i - 1], e);
      LetInWhenOpen(ws, es, i - 1, id);
    }
  }

  // ---------------------------------------------------------------- entering after the close

  /** A call that is counted in but not yet inside, at a time after the close, already was so at the close. */
  lemma {:induction false} AcquiredBefore(ws: seq<World>, es: seq<Event>, c: nat, j: nat, id: nat)
    requires Run(ws, es) && c <= j < |ws| && ws[c].guard.closed
    ensures ws[j].guard.closed && (At(ws[j], id, Acquired) ==> At(ws[c], id, Acquired))
    decreases j
  {
    if c < j {
      AcquiredBefore(ws, es, c, j - 1, id);
      assert ws[j] == Next(ws[j - 1], es[j - 1]) && Enabled(ws[j - 1], es[j - 1]);
    }
  }

  /** Closed alone keeps no call out of the inner client: those that had been counted in still enter, but no others. */
  lemma LateEntryWasCounted(ws: seq<World>, es: seq<Event>, c: nat, j: nat)
    requires Run(ws, es) && c <= j < |es| && ws[c].guard.closed && es[j].Enter?
    ensures At(ws[c], es[j].id, Acquired)
  {
    assert Enabled(ws[j], es[j]);
    AcquiredBefore(ws, es, c, j, es[j].id);
  }

  /** A longer run, in which some call enters the inner client later. */
  ghost predicate EntersLater(ws: seq<World>, es: seq<Event>, ws': seq<World>, es': seq<Event>)
  {
    && Run(ws', es') && ws <= ws' && es <= es'
    && exists j :: |es| <= j < |es'| && es'[j].Enter?
  }

  /** When the inner client can still be entered after the close, exactly: while some call is counted in and
      has not entered yet. */
  lemma EntryAfterClose(ws: seq<World>, es: seq<Event>)
    requires Run(ws, es) && ws[|es|].guard.closed
    ensures (exists ws': seq<World>, es': seq<Event> :: EntersLater(ws, es, ws', es'))
      <==> exists id :: At(ws[|es|], id, Acquired)
  {
    var c := |es|;
    if id :| At(ws[c], id, Acquired) {
      var ws', es' := ws + [Next(ws[c], Enter(id))], es + [Enter(id)];
      assert es'[c] == Enter(id);
      assert Run(ws', es');
      assert EntersLater(ws, es, ws', es');
    }
    forall ws': seq<World>, es': seq<Event> | EntersLater(ws, es, ws', es') ensures exists id :: At(ws[c], id, Acquired) {
      var j :| c <= j < |es'| && es'[j].Enter?;
      assert ws'[c] == ws[c];
      LateEntryWasCounted(ws', es', c, j);
    }
  }

  /** Such a run: a call is let in, the client is closed, the call enters. */
  lemma EnterAfterClose()
    ensures exists ws: seq<World>, es: seq<Event> :: Run(ws, es) && |es| == 3 && ws[2].guard.closed && es[2] == Enter(0)
  {
    var w0 := World(Guard(true, 0, false), map[], map[], 0, 0);
    var w1 := Next(w0, Arrive(0));
    var w2 := Next(w1, Shutdown(0));
    var w3 := Next(w2, Enter(0));
    var ws, es := [w0, w1, w2, w3], [Arrive(0), Shutdown(0), Enter(0)];
    assert Run(ws, es);
    assert ws[2].guard.closed && es[2] == Enter(0);
  }

  /** No wake-up is lost: once a shutdown reaps and no call is under way, it is not asleep and can take its
      next step, until the done channel is closed. */
  lemma ShutdownIsNeverStuck(ws: seq<World>, es: seq<Event>, i: nat, id: nat)
    requires Run(ws, es) && i < |ws|
    requires id in ws[i].reapers && ws[i].guard.calls == 0 && ws[i].reapers[id].stage != DoneClosed
    ensures Enabled(ws[i], Check(id)) || Enabled(ws[i], BeginInner(id)) || Enabled(ws[i], EndInner(id)) || Enabled(ws[i], CloseDone(id))
  {
    InvAlways(ws, es, i);
    assert ReaperOk(ws[i], ws[i].reapers[id]);
  }
}
