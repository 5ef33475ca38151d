/** The guarded client told from what callers and shutdowns did, not from its fields. */
module PluginCalls {
  import opened PluginGuard

  /** Some shutdown came before step `i`. */
  ghost predicate ShutBefore(es: seq<Event>, i: nat)
  {
    exists k: nat :: k < i && k < |es| && es[k].Shutdown?
  }

  /** The call came, and its goroutine has ended. */
  ghost predicate LeftBefore(es: seq<Event>, i: nat, id: nat)
  {
    exists k: nat :: k < i && k < |es| && es[k] == Leave(id)
  }

  lemma {:induction false} ClosedByShutdown(ws: seq<World>, es: seq<Event>, i: nat)
    requires Run(ws, es) && i < |ws|
    ensures ws[i].guard.closed <==> ShutBefore(es, i)
    ensures ws[i].guard.inner <==> ws[0].guard.inner && !ShutBefore(es, i)
  {
    if i > 0 {
      ClosedByShutdown(ws, es, i - 1);
      var w, e := ws[i - 1], es[i - 1];
      assert Enabled(w, e) && ws[i] == Next(w, e);
      if e.Shutdown? { assert ShutBefore(es, i); }
    }
  }

  /** A call is let in exactly if there is an inner client and no shutdown came before it. */
  lemma CallIsLetIn(ws: seq<World>, es: seq<Event>, j: nat, id: nat)
    requires Run(ws, es) && j < |es| && es[j] == Arrive(id)
    ensures id in ws[j + 1].calls
    ensures ws[j + 1].calls[id].phase == if ws[0].guard.inner && !ShutBefore(es, j) then Acquired else Rejected
  {
    ClosedByShutdown(ws, es, j);
  }

  /** Once let in, a call is under way until its goroutine leaves, whether or not its caller waits. */
  lemma {:induction false} UnderWay(ws: seq<World>, es: seq<Event>, j: nat, i: nat, id: nat)
    requires Run(ws, es) && j < i < |ws| && es[j] == Arrive(id)
    ensures id in ws[i].calls && (ws[i].calls[id].phase != Rejected <==> ws[0].guard.inner && !ShutBefore(es, j))
    ensures ws[i].calls[id].Counted() <==> ws[0].guard.inner && !ShutBefore(es, j) && !LeftBefore(es, i, id)
    decreases i
  {
    hide ShutBefore, LeftBefore, Next, Enabled;
    if i == j + 1 {
      CallIsLetIn(ws, es, j, id);
      NotLeftYet(ws, es, j, id);
    } else {
      UnderWay(ws, es, j, i - 1, id);
      CallMoves(ws[i - 1], es[i - 1], id);
      OneMoreStep(es, i, id);
    }
  }

  lemma OneMoreStep(es: seq<Event>, i: nat, id: nat)
    requires 0 < i <= |es|
    ensures LeftBefore(es, i, id) <==> LeftBefore(es, i - 1, id) || es[i - 1] == Leave(id)
  {
  }

  /** One step of anybody: a call stays what it is, except that it is over once its goroutine leaves. */
  lemma CallMoves(w: World, e: Event, id: nat)
    requires Enabled(w, e) && id in w.calls
    ensures var w' := Next(w, e);
      && id in w'.calls && (w'.calls[id].phase == Rejected <==> w.calls[id].phase == Rejected)
      && (w'.calls[id].Counted() <==> w.calls[id].Counted() && e != Leave(id))
  {
  }

  lemma ReaperComes(w: World, e: Event, id: nat)
    requires Enabled(w, e) && id in Next(w, e).reapers
    ensures id in w.reapers ==> Next(w, e).reapers[id].inner == w.reapers[id].inner
    ensures id !in w.reapers ==> e == Shutdown(id) && !w.guard.closed && Next(w, e).reapers[id].inner == w.guard.inner
  {
  }

  /** Nobody leaves before it came. */
  lemma NotLeftYet(ws: seq<World>, es: seq<Event>, j: nat, id: nat)
    requires Run(ws, es) && j < |es| && es[j] == Arrive(id)
    ensures !LeftBefore(es, j + 1, id)
  {
    assert Enabled(ws[j], es[j]);
    forall k: nat | k < j ensures es[k] != Leave(id) {
      assert Enabled(ws[k], es[k]);
      if id in ws[k].calls { CallStays(ws, es, k, j, id); }
    }
  }

  lemma {:induction false} CallStays(ws: seq<World>, es: seq<Event>, k: nat, i: nat, id: nat)
    requires Run(ws, es) && k <= i < |ws| && id in ws[k].calls
    ensures id in ws[i].calls
    decreases i
  {
    if k < i {
      CallStays(ws, es, k, i - 1, id);
      assert ws[i] == Next(ws[i - 1], es[i - 1]);
    }
  }

  /** Whoever reaps is the first shutdown, and it has the inner client to shut down exactly if there was one. */
  lemma {:induction false} ReaperIsFirst(ws: seq<World>, es: seq<Event>, i: nat, id: nat)
    requires Run(ws, es) && i < |ws| && id in ws[i].reapers
    ensures exists k: nat :: k < i && es[k] == Shutdown(id) && !ShutBefore(es, k)
    ensures ws[i].reapers[id].inner <==> ws[0].guard.inner
  {
    hide ShutBefore, LeftBefore, Next, Enabled;
    if i > 0 {
      ReaperComes(ws[i - 1], es[i - 1], id);
      if id in ws[i - 1].reapers {
        ReaperIsFirst(ws, es, i - 1, id);
      } else {
        ClosedByShutdown(ws, es, i - 1);
      }
    }
  }

  /** Before the inner client is shut down, and before a waiting shutdown is told so, every call that was let in has
      left; none is let in later. */
  lemma AllHaveLeft(ws: seq<World>, es: seq<Event>, j: nat, i: nat, id: nat)
    requires Run(ws, es) && i < |es| && (es[i].BeginInner? || es[i].CloseDone?)
    requires j < |es| && es[j] == Arrive(id) && ws[0].guard.inner && !ShutBefore(es, j)
    ensures j < i && LeftBefore(es, i, id)
  {
    hide LeftBefore, PastWaiting;
    var r := es[i].id;
    InvAlways(ws, es, i);
    assert Enabled(ws[i], es[i]) && ReaperOk(ws[i], ws[i].reapers[r]);
    NoneUnderWay(ws[i], r);
    ReaperIsFirst(ws, es, i, r);
    assert i <= j ==> ShutBefore(es, j);
    UnderWay(ws, es, j, i, id);
  }

  lemma NoneUnderWay(w: World, r: nat)
    requires Inv(w) && r in w.reapers && PastWaiting(w.reapers[r].stage)
    ensures forall id :: id in w.calls ==> !w.calls[id].Counted()
  {
    assert ReaperOk(w, w.reapers[r]);
    assert Counted(w.calls) == {};
    assert forall id :: id in w.calls && w.calls[id].Counted() ==> id in Counted(w.calls);
  }

  /** The reaper goes to sleep exactly while some call that was let in has not left. */
  lemma SleepsWhileUsed(ws: seq<World>, es: seq<Event>, i: nat, id: nat)
    requires Run(ws, es) && i < |es| && es[i] == Check(id)
    ensures id in ws[i + 1].reapers && (ws[i + 1].reapers[id].stage == Passed || ws[i + 1].reapers[id].stage == Asleep)
    ensures ws[i + 1].reapers[id].stage == Asleep <==>
      exists j: nat :: j < i && es[j].Arrive? && ws[0].guard.inner && !ShutBefore(es, j) && !LeftBefore(es, i, es[j].id)
  {
    hide ShutBefore, LeftBefore;
    InvAlways(ws, es, i);
    var w := ws[i];
    if j: nat :| j < i && es[j].Arrive? && ws[0].guard.inner && !ShutBefore(es, j) && !LeftBefore(es, i, es[j].id) {
      UnderWay(ws, es, j, i, es[j].id);
      assert es[j].id in Counted(w.calls);
    }
    if w.guard.calls > 0 {
      var c :| c in Counted(w.calls);
      Arrived(ws, es, i, c);
      var j: nat :| j < i && es[j] == Arrive(c);
      UnderWay(ws, es, j, i, c);
    }
  }

  lemma {:induction false} Arrived(ws: seq<World>, es: seq<Event>, i: nat, id: nat)
    requires Run(ws, es) && i < |ws| && id in ws[i].calls
    ensures exists j: nat :: j < i && es[j] == Arrive(id)
  {
    if i > 0 {
      var w, e := ws[i - 1], es[i - 1];
      assert Enabled(w, e) && ws[i] == Next(w, e);
      if id in w.calls { Arrived(ws, es, i - 1, id); } else { assert e == Arrive(id); }
    }
  }
}
