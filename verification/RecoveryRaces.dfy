/** The recovery state at the grain of its single compare-and-swaps. A switch, a mark and a suppression are up
    to two swaps each, the second one tried when the first fails; a successful probe is a plain store. Only
    switches exclude each other, by the mutex; anything else may come between two swaps. */
module RecoveryRaces {
  import opened HomeClient

  datatype Op = Switch | Mark | Suppress

  /** What the first and the second swap of an operation expect and put. */
  function First(op: Op): (Recovery, Recovery)
  {
    match op
    case Switch => (Stable, Switching)
    case Mark => (Stable, TakeoverEligible)
    case Suppress => (TakeoverEligible, Stable)
  }

  function Second(op: Op): (Recovery, Recovery)
  {
    match op
    case Switch => (TakeoverEligible, SwitchingTakeover)
    case Mark => (Switching, SwitchingTakeover)
    case Suppress => (SwitchingTakeover, Switching)
  }

  function Swapped(r: Recovery, swap: (Recovery, Recovery)): Recovery
  {
    if r == swap.0 then swap.1 else r
  }

  /** An operation that nothing comes between is the step of the coarser machine. */
  lemma AloneIsOneStep(r: Recovery, op: Op)
    ensures (if r == First(op).0 then First(op).1 else Swapped(r, Second(op)))
         == match op
            case Switch => AfterSwitch(r)
            case Mark => AfterMark(r)
            case Suppress => AfterSuppress(r)
  {
  }

  // ---------------------------------------------------------------- the machine

  /** `waiting` are the operations whose first swap failed and whose second is still to come. */
  datatype Race = Race(recovery: Recovery, waiting: map<nat, Op>)

  datatype Event = Try(id: nat, op: Op) | Retry(id: nat) | Probe

  predicate Enabled(w: Race, e: Event)
  {
    match e
    case Try(id, op) => id !in w.waiting && (op == Switch ==> forall k :: k in w.waiting ==> w.waiting[k] != Switch)
    case Retry(id) => id in w.waiting
    case Probe => true
  }

  function Next(w: Race, e: Event): Race
    requires Enabled(w, e)
  {
    match e
    case Try(id, op) =>
      if w.recovery == First(op).0 then w.(recovery := First(op).1) else w.(waiting := w.waiting[id := op])
    case Retry(id) => Race(Swapped(w.recovery, Second(w.waiting[id])), w.waiting - {id})
    case Probe => w.(recovery := Stable)
  }

  /** A lifetime may begin in any state: the state is inherited. */
  ghost predicate Run(ws: seq<Race>, es: seq<Event>)
  {
    && |ws| == |es| + 1 && ws[0].waiting == map[]
    && (forall i :: 0 <= i < |es| ==> Enabled(ws[i], es[i]) && ws[i + 1] == Next(ws[i], es[i]))
  }

  /** An event at which a swap of this operation succeeds. */
  predicate Takes(w: Race, e: Event, op: Op)
  {
    match e
    case Try(_, o) => o == op && w.recovery == First(op).0
    case Retry(id) => id in w.waiting && w.waiting[id] == op && w.recovery == Second(op).0
    case Probe => false
  }

  // ---------------------------------------------------------------- the two bits, swap by swap

  predicate HasSwitch(r: Recovery)
  {
    r == Switching || r == SwitchingTakeover
  }

  predicate HasTakeover(r: Recovery)
  {
    r == TakeoverEligible || r == SwitchingTakeover
  }

  ghost predicate SwitchedSince(ws: seq<Race>, es: seq<Event>, i: nat)
    requires i <= |es| < |ws|
  {
    exists k :: 0 <= k < i && Takes(ws[k], es[k], Switch) && forall l :: k < l < i ==> es[l] != Probe
  }

  predicate EndsTakeover(w: Race, e: Event)
  {
    e.Probe? || Takes(w, e, Suppress)
  }

  ghost predicate MarkedSince(ws: seq<Race>, es: seq<Event>, i: nat)
    requires i <= |es| < |ws|
  {
    exists k :: 0 <= k < i && Takes(ws[k], es[k], Mark) && forall l :: k < l < i ==> !EndsTakeover(ws[l], es[l])
  }

  lemma SwitchedStep(ws: seq<Race>, es: seq<Event>, i: nat)
    requires i < |es| < |ws|
    ensures SwitchedSince(ws, es, i + 1) <==> Takes(ws[i], es[i], Switch) || (es[i] != Probe && SwitchedSince(ws, es, i))
  {
    if es[i] != Probe && SwitchedSince(ws, es, i) {
      var k :| 0 <= k < i && Takes(ws[k], es[k], Switch) && forall l :: k < l < i ==> es[l] != Probe;
      assert Takes(ws[k], es[k], Switch);
    }
  }

  lemma MarkedStep(ws: seq<Race>, es: seq<Event>, i: nat)
    requires i < |es| < |ws|
    ensures MarkedSince(ws, es, i + 1) <==> Takes(ws[i], es[i], Mark) || (!EndsTakeover(ws[i], es[i]) && MarkedSince(ws, es, i))
  {
    if !EndsTakeover(ws[i], es[i]) && MarkedSince(ws, es, i) {
      var k :| 0 <= k < i && Takes(ws[k], es[k], Mark) && forall l :: k < l < i ==> !EndsTakeover(ws[l], es[l]);
      assert Takes(ws[k], es[k], Mark);
    }
  }

  lemma BitsStep(w: Race, e: Event, switched: bool, marked: bool)
    requires Enabled(w, e) && w.recovery == Encode(switched, marked)
    ensures Next(w, e).recovery
         == Encode(Takes(w, e, Switch) || (e != Probe && switched), Takes(w, e, Mark) || (!EndsTakeover(w, e) && marked))
  {
  }

  /** The four states are two bits at this grain too, whatever comes between the swaps: a switch swap that took
      effect with no probe since, and a mark swap that took effect with no probe and no suppression swap since. */
  lemma {:induction false} RecoveryIsSwapHistory(ws: seq<Race>, es: seq<Event>, i: nat)
    requires Run(ws, es) && i < |ws| && ws[0].recovery == Stable
    ensures ws[i].recovery == Encode(SwitchedSince(ws, es, i), MarkedSince(ws, es, i))
  {
    hide Next, Takes, EndsTakeover, Enabled;
    if i > 0 {
      RecoveryIsSwapHistory(ws, es, i - 1);
      SwitchedStep(ws, es, i - 1);
      MarkedStep(ws, es, i - 1);
      BitsStep(ws[i - 1], es[i - 1], SwitchedSince(ws, es, i - 1), MarkedSince(ws, es, i - 1));
    }
  }

  // ---------------------------------------------------------------- when an operation takes effect

  /** The operation begins at event `i` and ends at event `j`: at once, or with its second swap. */
  ghost predicate Spans(ws: seq<Race>, es: seq<Event>, i: nat, j: nat, id: nat, op: Op)
    requires |ws| == |es| + 1
  {
    && i <= j < |es| && es[i] == Try(id, op)
    && if ws[i].recovery == First(op).0 then j == i
       else i < j && es[j] == Retry(id) && forall k :: i < k < j ==> es[k] != Retry(id)
  }

  /** What leaves the state stable. */
  predicate Clears(w: Race, e: Event)
  {
    e.Probe? || (e.Try? && Takes(w, e, Suppress))
  }

  /** What gets it away from there. */
  predicate Leaves(w: Race, e: Event)
  {
    e.Try? && (Takes(w, e, Mark) || Takes(w, e, Switch))
  }

  /** Some event cleared the state, and nothing later got it away from stable. */
  ghost predicate Wiped(ws: seq<Race>, es: seq<Event>, i: nat, j: nat)
    requires j <= |es| < |ws|
  {
    exists k :: i <= k < j && Clears(ws[k], es[k]) && forall l :: k < l < j ==> !Leaves(ws[l], es[l])
  }

  lemma WipedStep(ws: seq<Race>, es: seq<Event>, i: nat, j: nat)
    requires i <= j < |es| < |ws|
    ensures Wiped(ws, es, i, j + 1) <==> Clears(ws[j], es[j]) || (!Leaves(ws[j], es[j]) && Wiped(ws, es, i, j))
  {
    if !Leaves(ws[j], es[j]) && Wiped(ws, es, i, j) {
      var k :| i <= k < j && Clears(ws[k], es[k]) && forall l :: k < l < j ==> !Leaves(ws[l], es[l]);
      assert Clears(ws[k], es[k]);
    }
  }

  lemma {:induction false} StableIsWiped(ws: seq<Race>, es: seq<Event>, i: nat, j: nat)
    requires Run(ws, es) && i <= j < |ws| && ws[i].recovery != Stable
    ensures ws[j].recovery == Stable <==> Wiped(ws, es, i, j)
    decreases j
  {
    if i < j {
      StableIsWiped(ws, es, i, j - 1);
      WipedStep(ws, es, i, j - 1);
      assert ws[j] == Next(ws[j - 1], es[j - 1]);
    }
  }

  lemma {:induction false} StillWaiting(ws: seq<Race>, es: seq<Event>, i: nat, j: nat, id: nat, op: Op)
    requires Run(ws, es) && i < j < |ws| && es[i] == Try(id, op) && ws[i].recovery != First(op).0
    requires forall k :: i < k < j ==> es[k] != Retry(id)
    ensures id in ws[j].waiting && ws[j].waiting[id] == op
    decreases j
  {
    assert ws[j] == Next(ws[j - 1], es[j - 1]) && Enabled(ws[j - 1], es[j - 1]);
    if i + 1 < j { StillWaiting(ws, es, i, j - 1, id, op); }
  }

  /** Between the two swaps of a switch the state was cleared, and no mark took effect after that. */
  ghost predicate SwitchIsWiped(ws: seq<Race>, es: seq<Event>, i: nat, j: nat)
    requires j < |es| < |ws|
  {
    exists k :: i < k < j && Clears(ws[k], es[k]) && forall l :: k < l < j ==> !(es[l].Try? && Takes(ws[l], es[l], Mark))
  }

  /** While a switch waits for its second swap, no other switch is on its way. */
  lemma OnlyOneSwitch(ws: seq<Race>, es: seq<Event>, i: nat, j: nat, id: nat, l: nat)
    requires Run(ws, es) && Spans(ws, es, i, j, id, Switch) && i < l < j
    ensures !Takes(ws[l], es[l], Switch)
  {
    StillWaiting(ws, es, i, l, id, Switch);
    assert Enabled(ws[l], es[l]);
    assert ws[l].waiting[id] == Switch;
    if es[l].Retry? && ws[l].waiting[es[l].id] == Switch {
      OneWaits(ws, es, l, id, es[l].id);
    }
  }

  lemma {:induction false} OneWaits(ws: seq<Race>, es: seq<Event>, l: nat, id: nat, other: nat)
    requires Run(ws, es) && l < |ws| && id in ws[l].waiting && other in ws[l].waiting
    requires ws[l].waiting[id] == Switch == ws[l].waiting[other]
    ensures id == other
  {
    if l > 0 {
      assert ws[l] == Next(ws[l - 1], es[l - 1]) && Enabled(ws[l - 1], es[l - 1]);
      if id in ws[l - 1].waiting && other in ws[l - 1].waiting && ws[l - 1].waiting[id] == Switch == ws[l - 1].waiting[other] {
        OneWaits(ws, es, l - 1, id, other);
      }
    }
  }

  /** When a switch is recorded, exactly: not if a probe, or the first swap of a suppression, took effect
      between its two swaps and no mark took effect after that. */
  lemma SwitchIsRecorded(ws: seq<Race>, es: seq<Event>, i: nat, j: nat, id: nat)
    requires Run(ws, es) && Spans(ws, es, i, j, id, Switch)
    ensures HasSwitch(ws[j + 1].recovery) <==> !SwitchIsWiped(ws, es, i, j)
  {
    assert ws[i + 1] == Next(ws[i], es[i]) && ws[j + 1] == Next(ws[j], es[j]);
    if i < j {
      StillWaiting(ws, es, i, j, id, Switch);
      StableIsWiped(ws, es, i + 1, j);
      forall l | i < l < j ensures Leaves(ws[l], es[l]) <==> es[l].Try? && Takes(ws[l], es[l], Mark) {
        OnlyOneSwitch(ws, es, i, j, id, l);
      }
    }
  }

  /** And a mark: not if such an event came between and neither a mark nor a switch took effect after it. */
  lemma MarkIsRecorded(ws: seq<Race>, es: seq<Event>, i: nat, j: nat, id: nat)
    requires Run(ws, es) && Spans(ws, es, i, j, id, Mark)
    ensures HasTakeover(ws[j + 1].recovery) <==> !(i < j && Wiped(ws, es, i + 1, j))
  {
    assert ws[i + 1] == Next(ws[i], es[i]) && ws[j + 1] == Next(ws[j], es[j]);
    if i < j {
      StillWaiting(ws, es, i, j, id, Mark);
      StableIsWiped(ws, es, i + 1, j);
    }
  }

  /** The race in which a switch is lost: a suppression between its two swaps. */
  lemma SuppressedSwitchIsLost()
    ensures exists ws: seq<Race>, es: seq<Event> ::
      && Run(ws, es) && |es| == 4 && ws[0].recovery == Stable && es[2] == Try(2, Suppress)
      && Spans(ws, es, 1, 3, 1, Switch) && ws[4].recovery == Stable
  {
    var es := [Try(0, Mark), Try(1, Switch), Try(2, Suppress), Retry(1)];
    var w0 := Race(Stable, map[]);
    var w1 := Next(w0, es[0]);
    var w2 := Next(w1, es[1]);
    var w3 := Next(w2, es[2]);
    var ws := [w0, w1, w2, w3, Next(w3, es[3])];
    assert w2 == Race(TakeoverEligible, map[1 := Switch]) && w3 == Race(Stable, map[1 := Switch]);
    assert Run(ws, es);
    assert Spans(ws, es, 1, 3, 1, Switch);
  }
}
