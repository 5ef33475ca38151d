/** The flusher told from its marks: which tickets there are, what is pending, and when it is idle. */
module ReleaseMarks {
  import opened ReleaseFlusher

  /** The marks of a history, in order. */
  function Marks(es: seq<Event>): seq<Issue>
  {
    if es == [] then []
    else
      var e, before := es[|es| - 1], Marks(es[..|es| - 1]);
      if e.Mark? then before + [Issue(e.group, e.sequence)] else before
  }

  function Highest(issued: seq<Issue>, g: Group): int64
  {
    if issued == [] then 0
    else
      var last, before := issued[|issued| - 1], Highest(issued[..|issued| - 1], g);
      if last.group == g && last.sequence > before then last.sequence else before
  }

  lemma {:induction false} HighestIs(issued: seq<Issue>, g: Group)
    ensures forall t :: 0 <= t < |issued| && issued[t].group == g ==> issued[t].sequence <= Highest(issued, g)
    ensures Highest(issued, g) == 0 || exists t :: 0 <= t < |issued| && issued[t] == Issue(g, Highest(issued, g))
  {
    if issued != [] {
      var before := issued[..|issued| - 1];
      HighestIs(before, g);
      if Highest(issued, g) != 0 {
        if Highest(issued, g) == Highest(before, g) {
          var t :| 0 <= t < |before| && before[t] == Issue(g, Highest(before, g));
          assert issued[t] == Issue(g, Highest(issued, g));
        } else {
          assert issued[|issued| - 1] == Issue(g, Highest(issued, g));
        }
      }
    }
  }

  /** Every mark has its ticket, in order, and a group's latest sequence is the highest marked. */
  lemma {:induction false} TicketsAreMarks(ws: seq<World>, es: seq<Event>, i: nat, g: Group)
    requires Run(ws, es) && i < |ws|
    ensures ws[i].flusher.issued == Marks(es[..i])
    ensures StateOf(ws[i].flusher, g).latest == Highest(Marks(es[..i]), g)
  {
    hide Inv, WorldInv, Next, Enabled, Highest, Marks, Marked;
    if i > 0 {
      TicketsAreMarks(ws, es, i - 1, g);
      InvAlways(ws, es, i - 1);
      assert es[..i][..i - 1] == es[..i - 1] && es[..i][i - 1] == es[i - 1];
      MarksGrow(es[..i], g);
      LatestStep(ws[i - 1], es[i - 1], g);
    } else {
      NothingMarked(g);
    }
  }

  lemma NothingMarked(g: Group)
    ensures Marks([]) == [] && Highest([], g) == 0
  {
  }

  lemma MarksGrow(es: seq<Event>, g: Group)
    requires es != []
    ensures var e, before := es[|es| - 1], Marks(es[..|es| - 1]);
      Marks(es) == (if e.Mark? then before + [Issue(e.group, e.sequence)] else before) &&
      Highest(Marks(es), g) == if e.Mark? && e.group == g && e.sequence > Highest(before, g) then e.sequence else Highest(before, g)
  {
    var before := Marks(es[..|es| - 1]);
    if es[|es| - 1].Mark? { assert Marks(es)[..|Marks(es)| - 1] == before; }
  }

  lemma LatestStep(w: World, e: Event, g: Group)
    requires WorldInv(w) && Enabled(w, e)
    ensures Next(w, e).flusher.issued == w.flusher.issued + if e.Mark? then [Issue(e.group, e.sequence)] else []
    ensures StateOf(Next(w, e).flusher, g).latest
      == if e.Mark? && e.group == g && e.sequence > StateOf(w.flusher, g).latest then e.sequence else StateOf(w.flusher, g).latest
  {
    hide Inv, WorldInv, Due, StillWaiting, Pending, GroupOk, FlightOk;
    CoveredByLatest(w, g);
  }

  lemma CoveredByLatest(w: World, g: Group)
    requires WorldInv(w)
    ensures 0 <= StateOf(w.flusher, g).acked <= StateOf(w.flusher, g).latest
  {
  }

  /** Whether a ticket for this group is still open. */
  ghost predicate Open(f: Flusher, g: Group)
  {
    exists t :: 0 <= t < |f.issued| && t !in f.closed && f.issued[t].group == g
  }

  /** What a flush sends is exactly the groups with an open ticket, each with the highest sequence marked. */
  lemma PendingIsOpen(ws: seq<World>, es: seq<Event>, i: nat, g: Group)
    requires Run(ws, es) && i < |ws|
    ensures g in Pending(ws[i].flusher) <==> Open(ws[i].flusher, g)
    ensures g in Pending(ws[i].flusher) ==> Pending(ws[i].flusher)[g] == Highest(Marks(es[..i]), g)
  {
    hide Inv, WorldInv, InFlight, Highest, Marks;
    var f := ws[i].flusher;
    TicketsAreMarks(ws, es, i, g);
    if Open(f, g) {
      var t :| 0 <= t < |f.issued| && t !in f.closed && f.issued[t].group == g;
      TicketsFollowHome(ws, es, i, t);
    }
    if g in Pending(f) {
      HighestIs(f.issued, g);
      InvAlways(ws, es, i);
      CoveredByLatest(ws[i], g);
      var t :| 0 <= t < |f.issued| && f.issued[t] == Issue(g, f.groups[g].latest);
      TicketsFollowHome(ws, es, i, t);
    }
  }

  /** The flusher is idle exactly if every mark's ticket is closed, and then there is nothing to send. */
  lemma IdleIsAllClosed(ws: seq<World>, es: seq<Event>, i: nat)
    requires Run(ws, es) && i < |ws|
    ensures IsIdle(ws[i].flusher) <==> forall t :: 0 <= t < |Marks(es[..i])| ==> t in ws[i].flusher.closed
    ensures IsIdle(ws[i].flusher) <==> Pending(ws[i].flusher) == map[]
  {
    hide Inv, WorldInv, Highest, Marks;
    var f := ws[i].flusher;
    TicketsAreMarks(ws, es, i, Group("", ""));
    forall g ensures g in Pending(f) <==> Open(f, g) {
      PendingIsOpen(ws, es, i, g);
    }
    IdleHasNoneToSend(f);
    if !IsIdle(f) {
      var g :| g in Pending(f);
      assert Open(f, g);
    }
    if t :| 0 <= t < |f.issued| && t !in f.closed {
      assert Open(f, f.issued[t].group);
    }
  }

  lemma IdleHasNoneToSend(f: Flusher)
    ensures IsIdle(f) <==> Pending(f) == map[]
    ensures IsIdle(f) <==> forall g :: g !in Pending(f)
  {
    if Pending(f) == map[] {
      forall g | g in f.groups ensures f.groups[g].latest <= f.groups[g].acked {
        assert g !in Pending(f);
      }
    }
  }
}
