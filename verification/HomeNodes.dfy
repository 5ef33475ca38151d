/** Which node a Home client is at, what its requests yield, and what passes from lifetime to lifetime, told
    from the events of a run. */
module HomeNodes {
  import opened Wrappers
  import opened Text
  import opened HomeClient

  // ---------------------------------------------------------------- the fence

  ghost predicate Raised(es: seq<Event>, i: nat)
    requires i <= |es|
  {
    exists k :: 0 <= k < i && es[k].RaiseFence?
  }

  lemma RaisedStep(es: seq<Event>, i: nat)
    requires i < |es|
    ensures Raised(es, i + 1) <==> Raised(es, i) || es[i].RaiseFence?
  {
    if Raised(es, i) {
      var k :| 0 <= k < i && es[k].RaiseFence?;
      assert es[k].RaiseFence?;
    }
  }

  lemma {:induction false} FencedMeansRaised(ws: seq<World>, es: seq<Event>, i: nat)
    requires Run(ws, es) && i < |ws|
    ensures ws[i].client.fenced <==> Raised(es, i)
  {
    if i > 0 {
      FencedMeansRaised(ws, es, i - 1);
      RaisedStep(es, i - 1);
      assert Enabled(ws[i - 1], es[i - 1]) && ws[i] == Next(ws[i - 1], es[i - 1]);
    }
  }

  /** A dialed connection is tracked when it registers, exactly if nobody has raised the fence. */
  lemma DialIsDecided(ws: seq<World>, es: seq<Event>, i: nat)
    requires Run(ws, es) && i < |es| && es[i].Register?
    ensures es[i].conn in ws[i + 1].dials && ws[i + 1].dials[es[i].conn] == if Raised(es, i) then Refused else Tracked
    ensures es[i].conn in ws[i + 1].client.connections <==> !Raised(es, i)
  {
    FencedMeansRaised(ws, es, i);
    InvAlways(ws, es, i + 1);
    assert Enabled(ws[i], es[i]) && ws[i + 1] == Next(ws[i], es[i]);
  }

  // ---------------------------------------------------------------- the node

  lemma AddressStep(w: World, e: Event)
    requires Enabled(w, e)
    ensures Next(w, e).client.address == if e.SwitchNode? then Address(Trim(e.node.host), e.node.port) else w.client.address
  {
    hide Trim;
  }

  lemma {:induction false} AddressFollowsSwitch(ws: seq<World>, es: seq<Event>, i: nat, j: nat)
    requires Run(ws, es) && i < j < |ws| && es[i].SwitchNode? && forall k :: i < k < j ==> !es[k].SwitchNode?
    ensures ws[j].client.address == Address(Trim(es[i].node.host), es[i].node.port)
    decreases j
  {
    hide Next, Enabled, Trim;
    AddressStep(ws[j - 1], es[j - 1]);
    if i + 1 < j {
      AddressFollowsSwitch(ws, es, i, j - 1);
    }
  }

  /** Until the next switch the client is at the node of the last one, so that it can then be switched to exactly
      the nodes that can be dialed and are another. */
  lemma NodeAfterSwitch(ws: seq<World>, es: seq<Event>, i: nat, j: nat, node: Address)
    requires Run(ws, es) && i < j < |ws| && es[i].SwitchNode? && forall k :: i < k < j ==> !es[k].SwitchNode?
    ensures ws[j].client.address == Address(Trim(es[i].node.host), es[i].node.port)
    ensures Enabled(ws[j], SwitchNode(node))
      <==> Trim(node.host) != "" && node.port > 0 && (Trim(node.host) != Trim(es[i].node.host) || node.port != es[i].node.port)
  {
    hide Next;
    AddressFollowsSwitch(ws, es, i, j);
    TrimTwice(es[i].node.host);
  }

  /** A switch leaves nothing of the old node. */
  lemma SwitchLeavesNothing(ws: seq<World>, es: seq<Event>, i: nat)
    requires Run(ws, es) && i < |es| && es[i].SwitchNode?
    ensures var w := ws[i + 1];
      && w.client.cmd == None == w.client.sub && w.client.release == None && w.client.connections == {}
      && forall c :: c in w.dials ==> w.dials[c] != Tracked
  {
    assert ws[i + 1] == Next(ws[i], es[i]);
  }

  predicate AtAddress(pool: Option<Pool>, a: Address)
  {
    pool.Some? ==> pool.value.address == Address(Trim(a.host), a.port)
  }

  predicate PoolsAt(c: Client)
  {
    AtAddress(c.cmd, c.address) && AtAddress(c.sub, c.address) && AtAddress(c.release, c.address)
  }

  /** No pool is left over from another node: in every run every pool that is held goes to the current address. */
  lemma {:induction false} PoolsAreCurrent(ws: seq<World>, es: seq<Event>, i: nat)
    requires Run(ws, es) && i < |ws|
    ensures PoolsAt(ws[i].client)
  {
    if i > 0 {
      PoolsAreCurrent(ws, es, i - 1);
      PoolsStep(ws[i - 1], es[i - 1]);
    }
  }

  lemma PoolsStep(w: World, e: Event)
    requires Enabled(w, e) && PoolsAt(w.client)
    ensures PoolsAt(Next(w, e).client)
  {
    hide Trim;
  }

  // ---------------------------------------------------------------- what requests yield

  /** A pool request in a run. Under the fence it is refused and nothing changes; without a usable address it fails
      and nothing changes; otherwise the pools that are there stay, the missing ones are created, the command pool
      first, and it fails exactly when the options of a missing one cannot be built. */
  lemma PoolRequest(ws: seq<World>, es: seq<Event>, i: nat)
    requires Run(ws, es) && i < |es| && es[i].EnsureClients?
    ensures var c, d, error := ws[i].client, ws[i + 1].client, Ensured(ws[i].client, es[i].cmdOk, es[i].subOk).1;
      && (Raised(es, i) ==> error == Some(Fenced) && d == c)
      && (!Raised(es, i) && (Trim(c.address.host) == "" || c.address.port <= 0) ==> error == Some(BadAddress) && d == c)
      && (!Raised(es, i) && Trim(c.address.host) != "" && c.address.port > 0 ==>
            && (d.cmd.Some? <==> c.cmd.Some? || es[i].cmdOk)
            && (d.sub.Some? <==> c.sub.Some? || (d.cmd.Some? && es[i].subOk))
            && error == if d.cmd.Some? && d.sub.Some? then None else Some(BadOptions))
      && (c.cmd.Some? ==> d.cmd == c.cmd) && (c.sub.Some? ==> d.sub == c.sub)
      && PoolsAt(d) && d == c.(cmd := d.cmd, sub := d.sub, pools := d.pools)
  {
    hide Trim;
    FencedMeansRaised(ws, es, i);
    PoolsAreCurrent(ws, es, i + 1);
    assert ws[i + 1] == Next(ws[i], es[i]);
  }

  /** After a switch, and until the next, a request with good options ends with both pools held, at the new node. */
  lemma PoolsAfterSwitch(ws: seq<World>, es: seq<Event>, i: nat, j: nat)
    requires Run(ws, es) && i < j < |es| && es[i].SwitchNode? && forall k :: i < k < j ==> !es[k].SwitchNode?
    requires es[j].EnsureClients? && es[j].cmdOk && es[j].subOk && !Raised(es, j)
    ensures var node := Address(Trim(es[i].node.host), es[i].node.port);
      var d := ws[j + 1].client;
      && Ensured(ws[j].client, true, true).1 == None
      && d.cmd.Some? && d.cmd.value.address == node && d.sub.Some? && d.sub.value.address == node
  {
    hide Ensured, Next;
    AddressFollowsSwitch(ws, es, i, j);
    SwitchIsDialable(ws, es, i);
    PoolRequest(ws, es, j);
  }

  lemma SwitchIsDialable(ws: seq<World>, es: seq<Event>, i: nat)
    requires Run(ws, es) && i < |es| && es[i].SwitchNode?
    ensures Trim(es[i].node.host) != "" && es[i].node.port > 0
    ensures Trim(Trim(es[i].node.host)) == Trim(es[i].node.host)
  {
    TrimTwice(es[i].node.host);
    assert Enabled(ws[i], es[i]);
  }

  /** A request for the release client in a run: a client that is there is handed out again, and a missing one is
      created at the current address, but only without the fence and in the stable state. */
  lemma ReleaseRequest(ws: seq<World>, es: seq<Event>, i: nat)
    requires Run(ws, es) && i < |es| && es[i].ReleaseClient?
    ensures var c, d, error := ws[i].client, ws[i + 1].client, ReleaseRequested(ws[i].client, es[i].ok).1;
      && (Raised(es, i) ==> error == Some(Fenced) && d == c)
      && (!Raised(es, i) && c.recovery != Stable ==> error == Some(NotConnected) && d == c)
      && (!Raised(es, i) && c.recovery == Stable ==>
            && (error == None <==> d.release.Some?)
            && (d.release.Some? <==> c.release.Some? || (Trim(c.address.host) != "" && c.address.port > 0 && es[i].ok)))
      && (c.release.Some? ==> d.release == c.release)
      && PoolsAt(d) && d == c.(release := d.release, pools := d.pools)
  {
    hide Trim;
    FencedMeansRaised(ws, es, i);
    PoolsAreCurrent(ws, es, i + 1);
    assert ws[i + 1] == Next(ws[i], es[i]);
  }

  // ---------------------------------------------------------------- from lifetime to lifetime

  /** What the operations of a chain of lifetimes do to the client of the day. */
  function Operated(c: Client, op: RecoveryOp, node: Address): Client
  {
    match op
    case Switched => WithNode(c, node)
    case Marked => c.(recovery := AfterMark(c.recovery))
    case Suppressed => c.(recovery := AfterSuppress(c.recovery))
    case Probed => c.(recovery := Stable)
    case Downgraded => c.(legacy := true, recovery := AfterSuppress(c.recovery))
    case Replaced => Fresh(c.cluster, c.enabled, c.address, c.recovery, c.legacy)
    case Configured(revision) => c.(revision := revision)
  }

  function Clients(c: Client, ops: seq<RecoveryOp>, nodes: seq<Address>): Client
    requires |nodes| == |ops|
  {
    if ops == [] then c else Operated(Clients(c, ops[..|ops| - 1], nodes[..|ops| - 1]), ops[|ops| - 1], nodes[|ops| - 1])
  }

  /** The node of the last switch, or where the first client began. */
  function LastNode(a: Address, ops: seq<RecoveryOp>, nodes: seq<Address>): Address
    requires |nodes| == |ops|
  {
    if ops == [] then a
    else if ops[|ops| - 1].Switched? then Address(Trim(nodes[|ops| - 1].host), nodes[|ops| - 1].port)
    else LastNode(a, ops[..|ops| - 1], nodes[..|ops| - 1])
  }

  /** The revision configured last in this lifetime. */
  function LastRevision(ops: seq<RecoveryOp>): int
  {
    if ops == [] || ops[|ops| - 1] == Replaced then 0
    else if ops[|ops| - 1].Configured? then ops[|ops| - 1].revision
    else LastRevision(ops[..|ops| - 1])
  }

  lemma OperatedOnce(c: Client, op: RecoveryOp, node: Address)
    ensures var d := Operated(c, op, node);
      && Chain(d.recovery, d.legacy, d.revision) == Apply(Chain(c.recovery, c.legacy, c.revision), op)
      && d.revision == (if op.Replaced? then 0 else if op.Configured? then op.revision else c.revision)
      && d.address == (if op.Switched? then Address(Trim(node.host), node.port) else c.address)
      && d.cluster == c.cluster && d.enabled == c.enabled
  {
    hide Trim;
  }

  lemma {:induction false} ChainFollowsClients(c: Client, ops: seq<RecoveryOp>, nodes: seq<Address>)
    requires |nodes| == |ops| && c.recovery == Stable && !c.legacy && c.revision == 0
    ensures var d := Clients(c, ops, nodes);
      && Chain(d.recovery, d.legacy, d.revision) == After(ops) && d.revision == LastRevision(ops)
      && d.address == LastNode(c.address, ops, nodes) && d.cluster == c.cluster && d.enabled == c.enabled
  {
    hide Trim, Operated, Apply;
    if ops != [] {
      ChainFollowsClients(c, ops[..|ops| - 1], nodes[..|ops| - 1]);
      OperatedOnce(Clients(c, ops[..|ops| - 1], nodes[..|ops| - 1]), ops[|ops| - 1], nodes[|ops| - 1]);
    }
  }

  /** What a client is and asks Home for, after any operations over any number of lifetimes, told from their history. */
  lemma LifetimesKeepHistory(c: Client, ops: seq<RecoveryOp>, nodes: seq<Address>)
    requires |nodes| == |ops| && c.recovery == Stable && !c.legacy && c.revision == 0
    ensures var d, revision := Clients(c, ops, nodes), LastRevision(ops);
      && d.recovery == Encode(SwitchedSinceProbe(ops), MarkedSinceEnd(ops)) && (d.legacy <==> Downgraded in ops)
      && d.address == LastNode(c.address, ops, nodes) && d.cluster == c.cluster && d.enabled == c.enabled
      && Subscription(Chain(d.recovery, d.legacy, d.revision), d.cluster.instance)
         == if revision <= 0 then ["config"]
            else if Downgraded in ops then ["config", IntText(revision)]
            else if MarkedSinceEnd(ops) then ["config", IntText(revision), "takeover", c.cluster.instance]
            else ["config", IntText(revision), c.cluster.instance]
  {
    hide Trim, IntText;
    ChainFollowsClients(c, ops, nodes);
    RecoveryIsHistory(ops);
  }
}
