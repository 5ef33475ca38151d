/** One lifetime of the Home client: its connection pools and tracked connections behind a mutex,
    a one-way dispatch fence, and the recovery state that is carried from lifetime to lifetime. */
module HomeClient {
  import opened Wrappers
  import opened Text

  datatype Recovery = Stable | TakeoverEligible | Switching | SwitchingTakeover

  datatype Address = Address(host: string, port: int)

  /** A pool of connections to one address. Pools and connections are numbered as they are created. */
  datatype Pool = Pool(id: nat, address: Address)
  type Conn = nat

  /** What the client knows of the cluster, and who it is there. */
  datatype Cluster = Cluster(seed: Address, nodes: seq<Address>, failures: nat, instance: string)

  datatype Client = Client(
    cluster: Cluster, enabled: bool, address: Address, cmd: Option<Pool>, sub: Option<Pool>, release: Option<Pool>,
    connections: set<Conn>, fenced: bool, recovery: Recovery, legacy: bool, revision: int, pools: nat)

  datatype Error = Fenced | Disabled | NotConnected | BadAddress | BadOptions

  predicate Dialable(a: Address)
  {
    Trim(a.host) != "" && a.port > 0
  }

  /** Blanks around a host name do not count. */
  function TrimmedAddress(a: Address): Address
  {
    Address(Trim(a.host), a.port)
  }

  function NewPool(c: Client): Option<Pool>
  {
    Some(Pool(c.pools, TrimmedAddress(c.address)))
  }

  // ---------------------------------------------------------------- recovery state

  function AfterSwitch(r: Recovery): Recovery
  {
    match r
    case Stable => Switching
    case TakeoverEligible => SwitchingTakeover
    case _ => r
  }

  function AfterMark(r: Recovery): Recovery
  {
    match r
    case Stable => TakeoverEligible
    case Switching => SwitchingTakeover
    case _ => r
  }

  function AfterSuppress(r: Recovery): Recovery
  {
    match r
    case TakeoverEligible => Stable
    case SwitchingTakeover => Switching
    case _ => r
  }

  // ---------------------------------------------------------------- critical sections

  /** Everything taken out of the client for closing. */
  datatype Detached = Detached(cmd: Option<Pool>, sub: Option<Pool>, release: Option<Pool>, connections: set<Conn>)

  function WithoutPools(c: Client): Client
  {
    c.(cmd := None, sub := None, connections := {})
  }

  function WithNode(c: Client, node: Address): Client
  {
    WithoutPools(c).(address := TrimmedAddress(node), recovery := AfterSwitch(c.recovery), release := None)
  }

  predicate IsAnotherNode(c: Client, node: Address)
  {
    Dialable(node) && TrimmedAddress(c.address) != TrimmedAddress(node)
  }

  /** Missing pools are created, command pool first, unless an option cannot be built. */
  function Ensured(c: Client, cmdOk: bool, subOk: bool): (Client, Option<Error>)
  {
    if c.fenced then (c, Some(Fenced))
    else if !Dialable(c.address) then (c, Some(BadAddress))
    else if c.cmd.None? && !cmdOk then (c, Some(BadOptions))
    else
      var d := if c.cmd.None? then c.(cmd := NewPool(c), pools := c.pools + 1) else c;
      if d.sub.None? && !subOk then (d, Some(BadOptions))
      else if d.sub.None? then (d.(sub := NewPool(d), pools := d.pools + 1), None)
      else (d, None)
  }

  function ReleaseRequested(c: Client, ok: bool): (Client, Option<Error>)
  {
    if c.fenced then (c, Some(Fenced))
    else if c.recovery != Stable then (c, Some(NotConnected))
    else if c.release.Some? then (c, None)
    else if !Dialable(c.address) then (c, Some(BadAddress))
    else if !ok then (c, Some(BadOptions))
    else (c.(release := NewPool(c), pools := c.pools + 1), None)
  }

  /** A request for the pools: the look at the fence and the switch in the configuration, then the critical section. */
  function EnsureRequested(c: Client, cmdOk: bool, subOk: bool): (Client, Option<Error>)
  {
    if !c.fenced && !c.enabled then (c, Some(Disabled)) else Ensured(c, cmdOk, subOk)
  }

  /** The same for a release client, which looks at the recovery state before that. */
  function ReleaseCalled(c: Client, ok: bool): (Client, Option<Error>)
  {
    if !c.fenced && c.recovery == Stable && !c.enabled then (c, Some(Disabled)) else ReleaseRequested(c, ok)
  }

  class HomeClient {
    var cluster: Cluster
    var enabled: bool
    var address: Address
    var cmd: Option<Pool>
    var sub: Option<Pool>
    var release: Option<Pool>
    var connections: set<Conn>
    var fenced: bool
    var recovery: Recovery
    var legacy: bool
    var revision: int
    var pools: nat

    ghost function Value(): Client
      reads this
    {
      Client(cluster, enabled, address, cmd, sub, release, connections, fenced, recovery, legacy, revision, pools)
    }

    constructor (address: Address, enabled: bool, instance: string)
      ensures Value() == Fresh(Cluster(TrimmedAddress(address), [], 0, instance), enabled, address, Stable, false)
    {
      this.enabled, this.address := enabled, address;
      cluster := Cluster(TrimmedAddress(address), [], 0, instance);
      cmd, sub, release, connections := None, None, None, {};
      fenced, recovery, legacy, revision, pools := false, Stable, false, 0, 0;
    }

    /** A fresh client that inherits the configuration, what is known of the cluster, the instance, the
        recovery state and the downgrade, and nothing else. */
    constructor NewLifetime(c: HomeClient)
      ensures Value() == Fresh(c.cluster, c.enabled, c.address, c.recovery, c.legacy)
    {
      cluster, enabled, address := c.cluster, c.enabled, c.address;
      cmd, sub, release, connections := None, None, None, {};
      fenced, recovery, legacy, revision, pools := false, c.recovery, c.legacy, 0, 0;
    }

    /** The first statement of `Close` and `AbortAmbiguousDispatch`. */
    method RaiseFence()
      modifies this`fenced
      ensures fenced
    {
      fenced := true;
    }

    method DetachClients() returns (d: Detached)
      modifies this`cmd, this`sub, this`connections
      ensures Value() == WithoutPools(old(Value()))
      ensures d == Detached(old(cmd), old(sub), None, old(connections))
    {
      d := Detached(cmd, sub, None, connections);
      cmd, sub, connections := None, None, {};
    }

    /** Their critical section. */
    method DetachAll() returns (d: Detached)
      modifies this`cmd, this`sub, this`connections, this`release
      ensures Value() == WithoutPools(old(Value())).(release := None)
      ensures d == Detached(old(cmd), old(sub), old(release), old(connections))
    {
      d := DetachClients();
      d := d.(release := release);
      release := None;
    }

    method EnsureClients(cmdOk: bool, subOk: bool) returns (error: Option<Error>)
      modifies this`cmd, this`sub, this`pools
      ensures (Value(), error) == EnsureRequested(old(Value()), cmdOk, subOk)
    {
      if fenced {
        return Some(Fenced);
      }
      if !enabled {
        return Some(Disabled);
      }
      if Trim(address.host) == "" || address.port <= 0 {
        return Some(BadAddress);
      }
      if cmd.None? {
        if !cmdOk {
          return Some(BadOptions);
        }
        cmd, pools := Some(Pool(pools, TrimmedAddress(address))), pools + 1;
      }
      if sub.None? {
        if !subOk {
          return Some(BadOptions);
        }
        sub, pools := Some(Pool(pools, TrimmedAddress(address))), pools + 1;
      }
      return None;
    }

    /** What the tracked dialer does with a connection it has just made. */
    method Track(conn: Conn) returns (refused: bool)
      modifies this`connections
      ensures refused <==> fenced
      ensures connections == if fenced then old(connections) else old(connections) + {conn}
    {
      if fenced {
        return true;
      }
      connections := connections + {conn};
      return false;
    }

    method Untrack(conn: Conn)
      modifies this`connections
      ensures connections == old(connections) - {conn}
    {
      connections := connections - {conn};
    }

    method ReleaseClient(ok: bool) returns (error: Option<Error>)
      modifies this`release, this`pools
      ensures (Value(), error) == ReleaseCalled(old(Value()), ok)
    {
      if fenced {
        return Some(Fenced);
      }
      if recovery == TakeoverEligible || recovery == Switching || recovery == SwitchingTakeover {
        return Some(NotConnected);
      }
      if !enabled {
        return Some(Disabled);
      }
      if release.Some? {
        return None;
      }
      if Trim(address.host) == "" || address.port <= 0 {
        return Some(BadAddress);
      }
      if !ok {
        return Some(BadOptions);
      }
      release, pools := Some(Pool(pools, TrimmedAddress(address))), pools + 1;
      return None;
    }

    method SwitchToNode(node: Address) returns (switched: bool, d: Detached)
      modifies this
      ensures switched <==> IsAnotherNode(old(Value()), node)
      ensures Value() == if switched then WithNode(old(Value()), node) else old(Value())
      ensures switched ==> d == Detached(old(cmd), old(sub), old(release), old(connections))
    {
      d := Detached(None, None, None, {});
      var host := Trim(node.host);
      if host == "" || node.port <= 0 {
        return false, d;
      }
      if Trim(address.host) == host && address.port == node.port {
        return false, d;
      }
      address := Address(host, node.port);
      if recovery == Stable {
        recovery := Switching;
      } else if recovery == TakeoverEligible {
        recovery := SwitchingTakeover;
      }
      d := DetachAll();
      return true, d;
    }

    method MarkTakeoverEligible()
      modifies this`recovery
      ensures recovery == AfterMark(old(recovery))
    {
      if recovery == Stable {
        recovery := TakeoverEligible;
      } else if recovery == Switching {
        recovery := SwitchingTakeover;
      }
    }

    method SuppressTakeover()
      modifies this`recovery
      ensures recovery == AfterSuppress(old(recovery))
    {
      if recovery == TakeoverEligible {
        recovery := Stable;
      } else if recovery == SwitchingTakeover {
        recovery := Switching;
      }
    }

    method EnableLegacyMembership()
      modifies this`legacy, this`recovery
      ensures legacy && recovery == AfterSuppress(old(recovery))
    {
      legacy := true;
      SuppressTakeover();
    }

    method SubscriptionParameters() returns (args: seq<string>)
      ensures args == Subscription(Chain(recovery, legacy, revision), cluster.instance)
    {
      args := [CONFIG_CHANNEL];
      if revision > 0 {
        args := args + [IntText(revision)];
        if legacy {
          return;
        }
        if recovery == TakeoverEligible || recovery == SwitchingTakeover {
          args := args + [TAKEOVER];
        }
        args := args + [cluster.instance];
      }
    }
  }

  function Fresh(cluster: Cluster, enabled: bool, address: Address, recovery: Recovery, legacy: bool): Client
  {
    Client(cluster, enabled, address, None, None, None, {}, false, recovery, legacy, 0, 0)
  }

  const CONFIG_CHANNEL := "config"
  const TAKEOVER := "takeover"

  // ---------------------------------------------------------------- the fence, in any interleaving

  /** Where a connection is: made but not yet registered, tracked, refused at its dial, taken out for
      closing, or closed by its owner. */
  datatype Dial = Dialed | Tracked | Refused | Removed | Dropped

  /** `sealed` is whether some `Close` or `AbortAmbiguousDispatch` has left its critical section;
      `waiting` are requests that passed their first look at the fence and now wait for the mutex. */
  datatype World = World(client: Client, sealed: bool, fencing: set<nat>, waiting: set<nat>, dials: map<Conn, Dial>)

  datatype Event =
    | RaiseFence(id: nat)
    | Seal(id: nat)
    | DialDone(conn: Conn)
    | Register(conn: Conn)
    | CloseConn(conn: Conn)
    | LookAtFence(id: nat)
    | EnsureClients(id: nat, cmdOk: bool, subOk: bool)
    | ReleaseClient(id: nat, ok: bool)
    | ClosePools
    | Promote
    | SwitchNode(node: Address)
    | SetRecovery(r: Recovery)

  predicate Enabled(w: World, e: Event)
  {
    match e
    case RaiseFence(id) => id !in w.fencing
    case Seal(id) => id in w.fencing
    case DialDone(conn) => conn !in w.dials
    case Register(conn) => conn in w.dials && w.dials[conn] == Dialed
    case CloseConn(conn) => conn in w.dials && w.dials[conn] != Dialed
    case LookAtFence(id) => id !in w.waiting && w.client.enabled && !w.client.fenced
    case EnsureClients(id, _, _) => id in w.waiting
    case ReleaseClient(id, _) => id in w.waiting
    case ClosePools => true
    case Promote => true
    case SwitchNode(node) => IsAnotherNode(w.client, node)
    case SetRecovery(_) => true
  }

  /** Every tracked connection is taken out for closing. */
  function AllRemoved(dials: map<Conn, Dial>): map<Conn, Dial>
  {
    map c | c in dials :: if dials[c] == Tracked then Removed else dials[c]
  }

  function Next(w: World, e: Event): World
    requires Enabled(w, e)
  {
    match e
    case RaiseFence(id) => w.(client := w.client.(fenced := true), fencing := w.fencing + {id})
    case Seal(id) =>
      w.(client := WithoutPools(w.client).(release := None), sealed := true, fencing := w.fencing - {id}, dials := AllRemoved(w.dials))
    case DialDone(conn) => w.(dials := w.dials[conn := Dialed])
    case Register(conn) =>
      if w.client.fenced then w.(dials := w.dials[conn := Refused])
      else w.(client := w.client.(connections := w.client.connections + {conn}), dials := w.dials[conn := Tracked])
    case CloseConn(conn) =>
      w.(client := w.client.(connections := w.client.connections - {conn}),
         dials := w.dials[conn := if w.dials[conn] == Tracked then Dropped else w.dials[conn]])
    case LookAtFence(id) => w.(waiting := w.waiting + {id})
    case EnsureClients(id, cmdOk, subOk) => w.(client := Ensured(w.client, cmdOk, subOk).0, waiting := w.waiting - {id})
    case ReleaseClient(id, ok) => w.(client := ReleaseRequested(w.client, ok).0, waiting := w.waiting - {id})
    case ClosePools => w.(client := WithoutPools(w.client), dials := AllRemoved(w.dials))
    case Promote => w.(client := w.client.(cmd := None))
    case SwitchNode(node) => w.(client := WithNode(w.client, node), dials := AllRemoved(w.dials))
    case SetRecovery(r) => w.(client := w.client.(recovery := r))
  }

  ghost predicate Run(ws: seq<World>, es: seq<Event>)
  {
    && |ws| == |es| + 1
    && (exists cluster, enabled, address, recovery, legacy ::
          ws[0] == World(Fresh(cluster, enabled, address, recovery, legacy), false, {}, {}, map[]))
    && (forall i :: 0 <= i < |es| ==> Enabled(ws[i], es[i]) && ws[i + 1] == Next(ws[i], es[i]))
  }

  predicate Silent(c: Client)
  {
    c.fenced && c.cmd == None && c.sub == None && c.release == None && c.connections == {}
  }

  ghost predicate Inv(w: World)
  {
    && (w.sealed ==> Silent(w.client))
    && (w.fencing != {} ==> w.client.fenced)
    && (forall c :: c in w.client.connections <==> c in w.dials && w.dials[c] == Tracked)
  }

  lemma Step(w: World, e: Event)
    requires Inv(w) && Enabled(w, e)
    ensures Inv(Next(w, e))
  {
  }

  lemma {:induction false} InvAlways(ws: seq<World>, es: seq<Event>, i: nat)
    requires Run(ws, es) && i < |ws|
    ensures Inv(ws[i])
  {
    if i > 0 {
      InvAlways(ws, es, i - 1);
      Step(ws[i - 1], es[i - 1]);
    }
  }

  lemma SealedStep(ws: seq<World>, es: seq<Event>, i: nat)
    requires Run(ws, es) && i < |es| && ws[i].sealed
    ensures ws[i + 1].sealed
  {
    assert ws[i + 1] == Next(ws[i], es[i]);
  }

  lemma {:induction false} SealedStays(ws: seq<World>, es: seq<Event>, i: nat, j: nat)
    requires Run(ws, es) && i <= j < |ws| && ws[i].sealed
    ensures ws[j].sealed
    decreases j
  {
    hide Next, Enabled;
    if i < j {
      SealedStays(ws, es, i, j - 1);
      SealedStep(ws, es, j - 1);
    }
  }

  /** The fence is final. From the moment some Close or AbortAmbiguousDispatch has left its critical
      section, whatever dialers, pool requests, release requests and node switches do, the client
      holds no pool and tracks no connection; every connection that was ever tracked has been taken
      out for closing or closed by its owner, and every later dial and request is refused. */
  lemma FenceIsFinal(ws: seq<World>, es: seq<Event>, i: nat, j: nat)
    requires Run(ws, es) && i <= j < |ws| && ws[i].sealed
    ensures Silent(ws[j].client)
    ensures forall c :: c in ws[j].dials ==> ws[j].dials[c] != Tracked
    ensures j < |es| && es[j].Register? ==> ws[j + 1].dials[es[j].conn] == Refused
    ensures j < |es| && es[j].EnsureClients? ==> Ensured(ws[j].client, es[j].cmdOk, es[j].subOk) == (ws[j].client, Some(Fenced))
    ensures j < |es| && es[j].ReleaseClient? ==> ReleaseRequested(ws[j].client, es[j].ok) == (ws[j].client, Some(Fenced))
  {
    SealedStays(ws, es, i, j);
    InvAlways(ws, es, j);
  }

  /** Where a connection may go from one step to the next: no connection is lost on the way from
      its dial to its closing. */
  predicate MayBecome(a: Dial, b: Dial)
  {
    || a == b || (a == Dialed && (b == Tracked || b == Refused)) || (a == Tracked && (b == Removed || b == Dropped))
  }

  lemma DialStep(w: World, e: Event, c: Conn)
    requires Enabled(w, e) && c in w.dials
    ensures c in Next(w, e).dials && MayBecome(w.dials[c], Next(w, e).dials[c])
  {
  }

  lemma TrackedMeansHeld(w: World, c: Conn)
    requires Inv(w)
    ensures c in w.client.connections <==> c in w.dials && w.dials[c] == Tracked
  {
  }

  /** Conservation: a connection is tracked or refused when it registers, and leaves the tracked set
      only by being taken out for closing or closed. */
  lemma NoConnectionIsLost(ws: seq<World>, es: seq<Event>, i: nat, c: Conn)
    requires Run(ws, es) && i < |es| && c in ws[i].dials
    ensures c in ws[i + 1].dials && MayBecome(ws[i].dials[c], ws[i + 1].dials[c])
    ensures c in ws[i].client.connections && c !in ws[i + 1].client.connections
      ==> ws[i + 1].dials[c] == Removed || ws[i + 1].dials[c] == Dropped
  {
    hide Inv, Next;
    InvAlways(ws, es, i);
    InvAlways(ws, es, i + 1);
    DialStep(ws[i], es[i], c);
    TrackedMeansHeld(ws[i], c);
    TrackedMeansHeld(ws[i + 1], c);
  }

  /** The flag alone is not the end: between raising it and the critical section a tracked connection may still be there. */
  lemma FlagIsNotEnough()
    ensures exists ws: seq<World>, es: seq<Event> :: Run(ws, es) && |es| == 3 && ws[3].client.fenced && ws[3].client.connections != {}
  {
    var w0 := World(Fresh(Cluster(Address("h", 1), [], 0, ""), true, Address("h", 1), Stable, false), false, {}, {}, map[]);
    var w1 := Next(w0, DialDone(0));
    var w2 := Next(w1, Register(0));
    var w3 := Next(w2, RaiseFence(0));
    var ws, es := [w0, w1, w2, w3], [DialDone(0), Register(0), RaiseFence(0)];
    assert Run(ws, es);
    assert 0 in ws[3].client.connections;
  }

  // ---------------------------------------------------------------- recovery, across lifetimes

  /** What survives from lifetime to lifetime, and the revision, which does not. */
  datatype Chain = Chain(recovery: Recovery, legacy: bool, revision: int)

  datatype RecoveryOp = Switched | Marked | Suppressed | Probed | Downgraded | Replaced | Configured(revision: int)

  function Apply(c: Chain, op: RecoveryOp): Chain
  {
    match op
    case Switched => c.(recovery := AfterSwitch(c.recovery))
    case Marked => c.(recovery := AfterMark(c.recovery))
    case Suppressed => c.(recovery := AfterSuppress(c.recovery))
    case Probed => c.(recovery := Stable)
    case Downgraded => c.(recovery := AfterSuppress(c.recovery), legacy := true)
    case Replaced => c.(revision := 0)
    case Configured(revision) => c.(revision := revision)
  }

  function After(ops: seq<RecoveryOp>): Chain
  {
    if ops == [] then Chain(Stable, false, 0) else Apply(After(ops[..|ops| - 1]), ops[|ops| - 1])
  }

  function Subscription(c: Chain, instance: string): seq<string>
  {
    if c.revision <= 0 then [CONFIG_CHANNEL]
    else if c.legacy then [CONFIG_CHANNEL, IntText(c.revision)]
    else if c.recovery == TakeoverEligible || c.recovery == SwitchingTakeover
    then [CONFIG_CHANNEL, IntText(c.revision), TAKEOVER, instance]
    else [CONFIG_CHANNEL, IntText(c.revision), instance]
  }

  /** A node switch that no successful probe has followed. */
  ghost predicate SwitchedSinceProbe(ops: seq<RecoveryOp>)
  {
    exists i :: 0 <= i < |ops| && ops[i] == Switched && forall j :: i < j < |ops| ==> ops[j] != Probed
  }

  predicate EndsTakeover(op: RecoveryOp)
  {
    op.Probed? || op.Suppressed? || op.Downgraded?
  }

  /** A takeover mark that no successful probe and no suppression has followed. */
  ghost predicate MarkedSinceEnd(ops: seq<RecoveryOp>)
  {
    exists i :: 0 <= i < |ops| && ops[i] == Marked && forall j :: i < j < |ops| ==> !EndsTakeover(ops[j])
  }

  function Encode(switched: bool, marked: bool): Recovery
  {
    if switched then if marked then SwitchingTakeover else Switching
    else if marked then TakeoverEligible else Stable
  }

  lemma SwitchedStep(before: seq<RecoveryOp>, op: RecoveryOp)
    ensures SwitchedSinceProbe(before + [op]) <==> op == Switched || (op != Probed && SwitchedSinceProbe(before))
  {
    var ops := before + [op];
    assert ops[|before|] == op;
    if op != Probed && SwitchedSinceProbe(before) {
      var i :| 0 <= i < |before| && before[i] == Switched && forall j :: i < j < |before| ==> before[j] != Probed;
      assert ops[i] == Switched;
    }
    if SwitchedSinceProbe(ops) && op != Switched {
      var i :| 0 <= i < |ops| && ops[i] == Switched && forall j :: i < j < |ops| ==> ops[j] != Probed;
      assert before[i] == Switched && forall j :: i < j < |before| ==> before[j] == ops[j];
    }
  }

  lemma MarkedStep(before: seq<RecoveryOp>, op: RecoveryOp)
    ensures MarkedSinceEnd(before + [op]) <==> op == Marked || (!EndsTakeover(op) && MarkedSinceEnd(before))
  {
    var ops := before + [op];
    assert ops[|before|] == op;
    if !EndsTakeover(op) && MarkedSinceEnd(before) {
      var i :| 0 <= i < |before| && before[i] == Marked && forall j :: i < j < |before| ==> !EndsTakeover(before[j]);
      assert ops[i] == Marked;
    }
    if MarkedSinceEnd(ops) && op != Marked {
      var i :| 0 <= i < |ops| && ops[i] == Marked && forall j :: i < j < |ops| ==> !EndsTakeover(ops[j]);
      assert before[i] == Marked && forall j :: i < j < |before| ==> before[j] == ops[j];
    }
  }

  /** The four recovery states are exactly two bits of history, over any number of lifetimes. */
  lemma {:induction false} RecoveryIsHistory(ops: seq<RecoveryOp>)
    ensures After(ops).recovery == Encode(SwitchedSinceProbe(ops), MarkedSinceEnd(ops))
    ensures After(ops).legacy <==> Downgraded in ops
  {
    if ops != [] {
      var before, op := ops[..|ops| - 1], ops[|ops| - 1];
      assert ops == before + [op];
      RecoveryIsHistory(before);
      SwitchedStep(before, op);
      MarkedStep(before, op);
    }
  }

  /** A subscription asks for a takeover exactly when one was marked and neither probed away nor
      suppressed, a lifecycle revision is known, and the chain was never downgraded. */
  lemma TakeoverIsRequested(ops: seq<RecoveryOp>, instance: string)
    requires instance != TAKEOVER
    ensures TAKEOVER in Subscription(After(ops), instance)
      <==> MarkedSinceEnd(ops) && After(ops).revision > 0 && Downgraded !in ops
  {
    RecoveryIsHistory(ops);
    var c := After(ops);
    if c.revision > 0 {
      assert IntText(c.revision) != TAKEOVER by { assert IntText(c.revision)[0] <= '9'; }
    }
  }

  /** A release client is handed out only when both bits are clear, and then if nothing else stands against it. */
  lemma ReleaseNeedsStability(ops: seq<RecoveryOp>, c: Client, ok: bool)
    requires c.recovery == After(ops).recovery
    ensures ReleaseCalled(c, ok).1 == None ==> !SwitchedSinceProbe(ops) && !MarkedSinceEnd(ops)
    ensures !c.fenced && c.enabled && Dialable(c.address) && ok ==>
      (ReleaseCalled(c, ok).1 == None <==> !SwitchedSinceProbe(ops) && !MarkedSinceEnd(ops))
  {
    RecoveryIsHistory(ops);
  }
}
