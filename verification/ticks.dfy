/**
 * What one turn of each loop does to the tables and which work it spawns, in terms of the rows and events
 * themselves.
 */
module Ticks {
  import opened Tables
  import opened Renewal
  import opened Selection
  import opened PinMachine

  // ---- the shared connection ---------------------------------------------------------------------

  predicate IsSelect(a: Action) {
    a.SelectNew? || a.SelectExpired? || a.SelectFailed?
  }

  /**
   * Between the two statements of a tick, in any interleaving, only logs arrive and nodes are called: no other
   * tick starts, no spawned statement runs, and both ledger tables stay as the first statement left them.
   */
  lemma {:induction false} TickHoldsConnection(cfg: Config, s: State, run: seq<Action>)
    requires Legal(cfg, s, run) && !s.closure.Free? && forall a | a in run :: !IsSelect(a)
    ensures forall a | a in run :: a.Ingest? || a.Call?
    ensures var end := Exec(cfg, s, run);
            end.closure == s.closure && end.pinned == s.pinned && end.failed == s.failed
    decreases |run|
  {
    if run != [] {
      assert run[0] in run && run == [run[0]] + run[1..];
      TickHoldsConnection(cfg, Apply(cfg, s, run[0]), run[1..]);
    }
  }

  /**
   * A node can be called at any time, also while a tick holds the connection. It may do what it is asked and
   * say so, do it without the answer arriving, or fail; an acknowledged call has been carried out.
   */
  lemma NodeAnswers(cfg: Config, s: State, t: Task, ok: bool, effect: bool)
    requires t in s.tasks && t.stage.Request?
    ensures Enabled(cfg, s, Call(t, ok, effect)) <==> (ok ==> effect)
    ensures ok && effect ==>
              (CopyOf(t.row) in Apply(cfg, s, Call(t, ok, effect)).held <==> t.kind.FirstPin? || t.kind.RetryPin?)
  {
  }

  // ---- pin loop ----------------------------------------------------------------------------------

  /**
   * The renewal moves a row's end block exactly if the chain has an event for its cid that ends after both the
   * head and the row; it then takes the end block of such an event. The copy stays the same.
   */
  lemma RenewTick(cfg: Config, s: State, chain: int, bn: int, image: map<PinRow, PinRow>, p: PinRow)
    requires Enabled(cfg, s, Renew(chain, bn, image)) && p in s.pinned
    ensures image[p] in Apply(cfg, s, Renew(chain, bn, image)).pinned && SameCopy(p, image[p])
    ensures image[p] != p
            <==> && p.chain == chain
                 && exists e | e in s.events :: e.chain == chain && e.cid == p.cid && e.end > bn && e.end > p.end
    ensures image[p] != p ==>
              && image[p].end > bn && image[p].end > p.end
              && exists e | e in s.events :: e.chain == chain && e.cid == p.cid && e.end == image[p].end
    ensures |Apply(cfg, s, Renew(chain, bn, image)).pinned| == |s.pinned|
  {
    assert image[p] in image.Values;
    if e :| e in s.events && e.chain == chain && e.cid == p.cid && e.end > bn && e.end > p.end && p.chain == chain {
      assert e.end in Choices(p, s.events, chain, bn);
    }
    ImageSize(image);
  }

  /** Any event that can renew a row may be the one that does, whatever the other rows take. */
  lemma RenewCanTake(cfg: Config, s: State, chain: int, bn: int, p: PinRow, e: EventRow)
    returns (image: map<PinRow, PinRow>)
    requires s.closure.Free? && OneRowPerCopy(s.pinned) && p in s.pinned && p.chain == chain
    requires e in s.events && e.chain == chain && e.cid == p.cid && e.end > bn && e.end > p.end
    ensures Enabled(cfg, s, Renew(chain, bn, image)) && image[p] == p.(end := e.end)
  {
    image := map r | r in s.pinned :: if r == p then p.(end := e.end) else SomeRenewal(r, s.events, chain, bn);
    assert e.end in Choices(p, s.events, chain, bn);
    RenewalKeepsKey(s.pinned, s.events, chain, bn, image);
  }

  /** Some row that the statement may make of r. */
  function SomeRenewal(r: PinRow, events: set<EventRow>, chain: int, bn: int): (q: PinRow)
    ensures RenewsTo(r, q, events, chain, bn)
  {
    var choices := Choices(r, events, chain, bn);
    if choices == {} then r else r.(end := MaxOf(choices))
  }

  lemma {:induction false} ImageSize<X, Y>(m: map<X, Y>)
    requires Injective(m)
    ensures |m.Values| == |m.Keys|
    decreases |m.Keys|
  {
    if m.Keys != {} {
      var x :| x in m.Keys;
      var rest := m - {x};
      assert rest.Keys == m.Keys - {x};
      ImageSize(rest);
      forall y | y in m.Values ensures y == m[x] || y in rest.Values {
        var z :| z in m && m[z] == y;
        assert z != x ==> z in rest && rest[z] == y;
      }
      assert forall z | z in rest :: m[z] in m.Values;
      assert m.Values == rest.Values + {m[x]};
      assert m[x] !in rest.Values;
    } else {
      assert m.Values == {};
    }
  }

  /**
   * The selection spawns, for each configured node, one first attempt for each cid that has no row on the chain
   * and an event there that is permanent or ends after the head; it carries the largest such end block.
   */
  lemma SelectTick(cfg: Config, s: State, v: seq<NewCid>, t: Task)
    requires Enabled(cfg, s, SelectNew(v))
    ensures Apply(cfg, s, SelectNew(v)).tasks[t] == s.tasks[t]
              + if t.kind.FirstPin? && t.stage.Request? && t.row.chain == s.closure.chain
                   && !HasRow(s.pinned, s.closure.chain, t.row.cid)
                   && IsActiveMax(NewCid(t.row.cid, t.row.end), s.events, s.closure.chain, s.closure.bn)
                then multiset(cfg.nodes)[t.row.node] else 0
  {
    NewCidsSpec(s.events, s.pinned, s.closure.chain, s.closure.bn, v, NewCid(t.row.cid, t.row.end));
    FanOutCount(v, cfg.nodes, s.closure.chain, t);
  }

  lemma {:induction false} FanOutCount(v: seq<NewCid>, nodes: seq<string>, chain: int, t: Task)
    requires NoDuplicates(v)
    ensures multiset(FanOut(v, nodes, chain))[t]
            == if t.kind.FirstPin? && t.stage.Request? && t.row.chain == chain && NewCid(t.row.cid, t.row.end) in v
               then multiset(nodes)[t.row.node] else 0
  {
    if v != [] {
      var front, n := v[..|v| - 1], v[|v| - 1];
      FanOutCount(front, nodes, chain, t);
      NodeTasksCount(n, nodes, chain, t);
      assert v == front + [n];
    }
  }

  lemma {:induction false} NodeTasksCount(n: NewCid, nodes: seq<string>, chain: int, t: Task)
    ensures multiset(NodeTasks(n, nodes, chain))[t]
            == if t == Task(FirstPin, PinRow(chain, t.row.node, n.cid, n.end), Request)
               then multiset(nodes)[t.row.node] else 0
    decreases |nodes|
  {
    if nodes != [] {
      var front, node := nodes[..|nodes| - 1], nodes[|nodes| - 1];
      NodeTasksCount(n, front, chain, t);
      assert nodes == front + [node];
      assert NodeTasks(n, nodes, chain)
          == NodeTasks(n, front, chain) + [Task(FirstPin, PinRow(chain, node, n.cid, n.end), Request)];
    }
  }

  /**
   * At every head, each event that is permanent or ends after the head gets its cid fanned out to every
   * configured node, unless the chain has a row for it, at least until the event's own end block.
   */
  lemma WantedIsFannedOut(cfg: Config, s: State, v: seq<NewCid>, e: EventRow, node: string) returns (end: int)
    requires Enabled(cfg, s, SelectNew(v)) && node in cfg.nodes
    requires e in s.events && e.chain == s.closure.chain && (e.end > s.closure.bn || e.end == -1)
    requires forall p | p in s.pinned :: p.chain != e.chain || p.cid != e.cid
    ensures Task(FirstPin, PinRow(e.chain, node, e.cid, end), Request) in Apply(cfg, s, SelectNew(v)).tasks
    ensures e.end <= end
  {
    var rows := UnpinnedEvents(s.events, s.pinned, s.closure.chain, s.closure.bn);
    UnpinnedEventsSpec(s.events, s.pinned, s.closure.chain, s.closure.bn, e);
    assert e.cid in GroupedCids(rows);
    var n :| n in v && n.cid == e.cid;
    assert IsGroupMax(n, rows);
    end := n.end;
    FanOutSpec(v, cfg.nodes, e.chain, Task(FirstPin, PinRow(e.chain, node, e.cid, end), Request));
  }

  // ---- unpin loop --------------------------------------------------------------------------------

  /** A row of the chain that is past its end at this head and not permanent. */
  predicate IsPast(p: PinRow, chain: int, bn: int) {
    p.chain == chain && p.end <= bn && p.end != -1
  }

  ghost predicate OtherChainHas(pinned: set<PinRow>, chain: int, cid: string) {
    exists q | q in pinned :: q.cid == cid && q.chain != chain
  }

  /**
   * A whole unpin tick, whatever else happens between its statements, drops exactly the past rows whose cid
   * another chain has, and spawns one unpin for exactly the other past rows whose node is still configured.
   */
  lemma UnpinTick(cfg: Config, s: State, chain: int, bn: int, between: seq<Action>, v: seq<PinRow>,
                  p: PinRow, t: Task)
    requires Enabled(cfg, s, Sweep(chain, bn)) && Legal(cfg, Apply(cfg, s, Sweep(chain, bn)), between)
    requires forall a | a in between :: !IsSelect(a)
    requires Enabled(cfg, Exec(cfg, Apply(cfg, s, Sweep(chain, bn)), between), SelectExpired(v))
    ensures var waiting := Exec(cfg, Apply(cfg, s, Sweep(chain, bn)), between);
            var end := Apply(cfg, waiting, SelectExpired(v));
            && (p in end.pinned <==> p in s.pinned && !(IsPast(p, chain, bn) && OtherChainHas(s.pinned, chain, p.cid)))
            && end.tasks[t] == waiting.tasks[t]
                 + if t.kind.Unpin? && t.stage.Request? && t.row.node in cfg.nodes && t.row in s.pinned
                      && IsPast(t.row, chain, bn) && !OtherChainHas(s.pinned, chain, t.row.cid)
                   then 1 else 0
  {
    TickHoldsConnection(cfg, Apply(cfg, s, Sweep(chain, bn)), between);
    UnpinPartition(s.pinned, chain, bn, v);
    UnpinTasksCount(v, cfg.nodes, t);
  }

  lemma {:induction false} UnpinTasksCount(v: seq<PinRow>, nodes: seq<string>, t: Task)
    requires NoDuplicates(v)
    ensures multiset(UnpinTasks(v, nodes))[t]
            == if t.kind.Unpin? && t.stage.Request? && t.row.node in nodes && t.row in v then 1 else 0
  {
    if v != [] {
      var front, p := v[..|v| - 1], v[|v| - 1];
      UnpinTasksCount(front, nodes, t);
      assert v == front + [p] && p !in front;
    }
  }

  // ---- retry loop --------------------------------------------------------------------------------

  /**
   * A whole retry tick, whatever else happens between its statements, drops exactly the chain's failures that
   * end at or before the head, permanent ones included, and spawns one retry for exactly its other failures,
   * whether or not their node is configured.
   */
  lemma RetryTick(cfg: Config, s: State, chain: int, bn: int, between: seq<Action>, v: seq<PinRow>,
                  p: PinRow, t: Task)
    requires Enabled(cfg, s, Purge(chain, bn)) && Legal(cfg, Apply(cfg, s, Purge(chain, bn)), between)
    requires forall a | a in between :: !IsSelect(a)
    requires Enabled(cfg, Exec(cfg, Apply(cfg, s, Purge(chain, bn)), between), SelectFailed(v))
    ensures var waiting := Exec(cfg, Apply(cfg, s, Purge(chain, bn)), between);
            var end := Apply(cfg, waiting, SelectFailed(v));
            && (p in end.failed <==> p in s.failed && !(p.chain == chain && p.end <= bn))
            && end.tasks[t] == waiting.tasks[t]
                 + if t.kind.RetryPin? && t.stage.Request?
                      && t.row in s.failed && t.row.chain == chain && t.row.end > bn
                   then 1 else 0
  {
    TickHoldsConnection(cfg, Apply(cfg, s, Purge(chain, bn)), between);
    RetryTasksCount(v, t);
  }

  lemma {:induction false} RetryTasksCount(v: seq<PinRow>, t: Task)
    requires NoDuplicates(v)
    ensures multiset(RetryTasks(v))[t] == if t.kind.RetryPin? && t.stage.Request? && t.row in v then 1 else 0
    decreases |v|
  {
    if v != [] {
      var front, p := v[..|v| - 1], v[|v| - 1];
      RetryTasksCount(front, t);
      assert v == front + [p] && p !in front;
      assert RetryTasks(v) == RetryTasks(front) + [Task(RetryPin, p, Request)];
    }
  }

  // ---- spawned work ------------------------------------------------------------------------------

  /**
   * From its call to its statement, if there is one: a successful pin becomes a row, a successful rm deletes
   * the row with its end block, a failed first attempt becomes a failure, and nothing else happens to the tables.
   */
  lemma TaskRuns(cfg: Config, s: State, t: Task, ok: bool, effect: bool)
    requires s.closure.Free? && Enabled(cfg, s, Call(t, ok, effect))
    ensures var called := Apply(cfg, s, Call(t, ok, effect));
            && (called.held == if !effect then s.held
                               else if t.kind.Unpin? then s.held - {Copy(t.row.node, t.row.cid)}
                               else s.held + {Copy(t.row.node, t.row.cid)})
            && called.events == s.events && called.pinned == s.pinned && called.failed == s.failed
            && if !ok && !t.kind.FirstPin? then called.tasks == s.tasks - multiset{t}
               else
                 var rest := Task(t.kind, t.row, if ok then Commit else Report);
                 && Enabled(cfg, called, Finish(rest))
                 && var end := Apply(cfg, called, Finish(rest));
                    && end.tasks == s.tasks - multiset{t} && end.held == called.held && end.events == s.events
                    && (end.pinned == if !ok then s.pinned
                                      else if t.kind.Unpin? then s.pinned - {t.row} else s.pinned + {t.row})
                    && (end.failed == if ok then s.failed else s.failed + {t.row})
  {
    var called := Apply(cfg, s, Call(t, ok, effect));
    if ok || t.kind.FirstPin? {
      var rest := Task(t.kind, t.row, if ok then Commit else Report);
      assert called.tasks - multiset{rest} == s.tasks - multiset{t};
    }
  }
}
