/**
 * The three loops and the spawned tasks of the IPFS watcher, acting on the database and the nodes in
 * place. Every method is shown to be a run of the step machine.
 */
module Watching {
  import opened Tables
  import opened Logs
  import opened Db
  import opened Scanner
  import opened PinMachine

  class Watcher {
    const cfg: Config
    const psql: Client
    var held: set<Copy>
    var tasks: multiset<Task>
    var closure: Closure
    ghost var scanned: set<Scanned>
    ghost var removed: set<Copy>

    ghost function View(): State
      reads this, psql
    {
      State(psql.events, psql.pinned, psql.failed, held, tasks, closure, scanned, removed)
    }

    constructor (cfg: Config)
      ensures this.cfg == cfg && fresh(psql) && View() == INITIAL
    {
      this.cfg := cfg;
      psql := new Client();
      held, tasks, closure := {}, multiset{}, Free;
      scanned, removed := {}, {};
    }

    // ---- single steps -------------------------------------------------------------------------

    /** First statement of a pin tick. */
    method RenewPinned(chain: int, bn: int) returns (ok: bool, ghost image: map<PinRow, PinRow>)
      requires closure.Free?
      modifies `closure, psql`pinned
      ensures ok ==> IsRenewal(image, old(psql.pinned), old(psql.events), chain, bn)
      ensures ok ==> View() == old(View()).(pinned := image.Values, closure := Renewed(chain, bn))
      ensures !ok ==> RenewalConflict(old(psql.pinned), old(psql.events), chain, bn) && View() == old(View())
    {
      var r;
      r, image := psql.UpdateExistingCidsEndBlock(chain, bn);
      ok := r.Done?;
      if ok {
        closure := Renewed(chain, bn);
      }
    }

    /** Second statement of a pin tick and the fan-out over CIDs and nodes. */
    method PinNewCids() returns (ghost a: Action)
      requires closure.Renewed?
      modifies `closure, `tasks
      ensures Enabled(cfg, old(View()), a) && View() == Apply(cfg, old(View()), a)
      ensures a.SelectNew? && a == SelectNew(a.newCids) && closure.Free?
    {
      var chain := closure.chain;
      var v := psql.GetNewCids(chain, closure.bn);
      a := SelectNew(v);
      PinAll(v, chain);
      closure := Free;
    }

    method PinAll(v: seq<NewCid>, chain: int)
      modifies `tasks
      ensures tasks == old(tasks) + multiset(FanOut(v, cfg.nodes, chain))
    {
      for i := 0 to |v|
        invariant tasks == old(tasks) + multiset(FanOut(v[..i], cfg.nodes, chain))
      {
        assert v[..i + 1][..i] == v[..i];
        PinToAllNodes(v[i], chain);
      }
      assert v[..|v|] == v;
    }

    method PinToAllNodes(n: NewCid, chain: int)
      modifies `tasks
      ensures tasks == old(tasks) + multiset(NodeTasks(n, cfg.nodes, chain))
    {
      for i := 0 to |cfg.nodes|
        invariant tasks == old(tasks) + multiset(NodeTasks(n, cfg.nodes, chain)[..i])
      {
        var spawned := NodeTasks(n, cfg.nodes, chain);
        assert spawned[..i + 1] == spawned[..i] + [spawned[i]];
        tasks := tasks + multiset{Task(FirstPin, PinRow(chain, cfg.nodes[i], n.cid, n.end), Request)};
      }
      var all := NodeTasks(n, cfg.nodes, chain);
      assert all[..|all|] == all;
    }

    /** First statement of an unpin tick. */
    method DropMultichain(chain: int, bn: int)
      requires closure.Free?
      modifies `closure, psql`pinned
      ensures View() == Apply(cfg, old(View()), Sweep(chain, bn))
      ensures closure == Swept(chain, bn)
    {
      var _ := psql.DeleteMultichainExpiredCids(chain, bn);
      closure := Swept(chain, bn);
    }

    /** Second statement of an unpin tick; each row goes to the first configured node with its URL. */
    method UnpinExpired() returns (ghost a: Action)
      requires closure.Swept?
      modifies `closure, `tasks
      ensures Enabled(cfg, old(View()), a) && View() == Apply(cfg, old(View()), a)
      ensures a.SelectExpired? && closure.Free?
    {
      var v := psql.GetSingleChainExpiredCids(closure.chain, closure.bn);
      a := SelectExpired(v);
      UnpinAll(v);
      closure := Free;
    }

    method UnpinAll(v: seq<PinRow>)
      modifies `tasks
      ensures tasks == old(tasks) + multiset(UnpinTasks(v, cfg.nodes))
    {
      for i := 0 to |v|
        invariant tasks == old(tasks) + multiset(UnpinTasks(v[..i], cfg.nodes))
      {
        assert v[..i + 1][..i] == v[..i];
        UnpinFromItsNode(v[i]);
      }
      assert v[..|v|] == v;
    }

    method UnpinFromItsNode(p: PinRow)
      modifies `tasks
      ensures tasks == old(tasks) + multiset(if p.node in cfg.nodes then [Task(Unpin, p, Request)] else [])
    {
      for i := 0 to |cfg.nodes|
        invariant tasks == old(tasks) && p.node !in cfg.nodes[..i]
      {
        if p.node == cfg.nodes[i] {
          tasks := tasks + multiset{Task(Unpin, p, Request)};
          return;
        }
      }
    }

    /** First statement of a retry tick. */
    method DropExpiredFailures(chain: int, bn: int)
      requires closure.Free?
      modifies `closure, psql`failed
      ensures View() == Apply(cfg, old(View()), Purge(chain, bn))
      ensures closure == Purged(chain, bn)
    {
      var _ := psql.DeleteExpiredFailedCids(chain, bn);
      closure := Purged(chain, bn);
    }

    /** Second statement of a retry tick; a failure keeps its node, configured or not. */
    method RetryFailed() returns (ghost a: Action)
      requires closure.Purged?
      modifies `closure, `tasks
      ensures Enabled(cfg, old(View()), a) && View() == Apply(cfg, old(View()), a)
      ensures a.SelectFailed? && closure.Free?
    {
      var v := psql.GetFailedCids(closure.chain, closure.bn);
      a := SelectFailed(v);
      RetryAll(v);
      closure := Free;
    }

    method RetryAll(v: seq<PinRow>)
      modifies `tasks
      ensures tasks == old(tasks) + multiset(RetryTasks(v))
    {
      var all := RetryTasks(v);
      for i := 0 to |v|
        invariant tasks == old(tasks) + multiset(all[..i])
      {
        assert all[..i + 1] == all[..i] + [all[i]];
        tasks := tasks + multiset{Task(RetryPin, v[i], Request)};
      }
      assert all[..|v|] == all;
    }

    /** The contract watcher's own connection inserts events between any two statements. */
    method Arrive(logs: seq<Scanned>, ghost before: State, ghost run: seq<Action>) returns (ghost longer: seq<Action>)
      requires forall c | c in logs :: c.provider in cfg.providers
      requires Legal(cfg, before, run) && View() == Exec(cfg, before, run)
      modifies `scanned, psql`events
      ensures Legal(cfg, before, longer) && View() == Exec(cfg, before, longer)
      ensures longer == run + Ingests(logs)
    {
      ArriveAll(logs);
      longer := run + Ingests(logs);
      IngestsRun(cfg, before, run, logs);
    }

    method ArriveAll(logs: seq<Scanned>)
      modifies `scanned, psql`events
      ensures View() == Ingested(old(View()), logs)
    {
      for i := 0 to |logs|
        invariant View() == Ingested(old(View()), logs[..i])
      {
        assert logs[..i + 1][..i] == logs[..i];
        var _ := UpdateValidBlock(psql, logs[i].log, logs[i].provider, false);
        scanned := scanned + {logs[i]};
      }
      assert logs[..|logs|] == logs;
    }

    /** What the node answers; a call without effect may also be one that failed. */
    method CallNode(t: Task, ok: bool, effect: bool)
      requires Enabled(cfg, View(), Call(t, ok, effect))
      modifies `tasks, `held, `removed
      ensures View() == Apply(cfg, old(View()), Call(t, ok, effect))
      ensures tasks == old(tasks) - multiset{t} + AfterCall(t, ok)
    {
      var copy := CopyOf(t.row);
      if effect {
        held := if t.kind.Unpin? then held - {copy} else held + {copy};
      }
      if ok && t.kind.Unpin? {
        removed := removed + {copy};
      }
      AnswerTask(t, ok);
    }

    method AnswerTask(t: Task, ok: bool)
      requires t in tasks
      modifies `tasks
      ensures tasks == old(tasks) - multiset{t} + AfterCall(t, ok)
    {
      tasks := tasks - multiset{t};
      if ok {
        tasks := tasks + multiset{t.(stage := Commit)};
      } else if t.kind.FirstPin? {
        tasks := tasks + multiset{t.(stage := Report)};
      }
    }

    /** The statement after the answer: insert the row, delete it, or record the failure. */
    method FinishTask(t: Task)
      requires Enabled(cfg, View(), Finish(t))
      modifies `tasks, psql`pinned, psql`failed
      ensures View() == Apply(cfg, old(View()), Finish(t))
      ensures tasks == old(tasks) - multiset{t}
    {
      tasks := tasks - multiset{t};
      if t.stage.Report? {
        var _ := psql.AddFailedPin(t.row);
      } else if t.kind.Unpin? {
        var _ := psql.DeleteCid(t.row);
      } else {
        var _ := psql.AddCid(t.row);
      }
    }

    // ---- whole ticks and tasks ----------------------------------------------------------------

    /** One turn of pin_chain_cids, with the logs that arrive between its two statements. */
    method PinChainCids(chain: int, head: Option<int>, arrivals: seq<Scanned>) returns (ghost run: seq<Action>)
      requires closure.Free? && forall c | c in arrivals :: c.provider in cfg.providers
      modifies this, psql`pinned, psql`events
      ensures Legal(cfg, old(View()), run) && View() == Exec(cfg, old(View()), run) && closure.Free?
      ensures match head
              case None => run == []
              case Some(bn) =>
                run == [RenewFails(chain, bn)]
                || exists image, v :: run == [Renew(chain, bn, image)] + Ingests(arrivals) + [SelectNew(v)]
    {
      ghost var before := View();
      run := [];
      if head.None? {
        return;
      }
      var ok, image := RenewPinned(chain, head.value);
      ghost var a := RenewAction(cfg, before, chain, head.value, ok, image);
      ExecOne(cfg, before, a);
      run := [a];
      if ok {
        run := Arrive(arrivals, before, run);
        ghost var b := PinNewCids();
        ExecSnoc(cfg, before, run, b);
        run := run + [b];
      }
    }

    /** One turn of unpin_cids. */
    method UnpinCids(chain: int, head: Option<int>, arrivals: seq<Scanned>) returns (ghost run: seq<Action>)
      requires closure.Free? && forall c | c in arrivals :: c.provider in cfg.providers
      modifies this, psql`pinned, psql`events
      ensures Legal(cfg, old(View()), run) && View() == Exec(cfg, old(View()), run) && closure.Free?
      ensures match head
              case None => run == []
              case Some(bn) => exists v :: run == [Sweep(chain, bn)] + Ingests(arrivals) + [SelectExpired(v)]
    {
      ghost var before := View();
      run := [];
      if head.None? {
        return;
      }
      ghost var a := Sweep(chain, head.value);
      ExecOne(cfg, before, a);
      DropMultichain(chain, head.value);
      run := Arrive(arrivals, before, [a]);
      ghost var b := UnpinExpired();
      ExecSnoc(cfg, before, run, b);
      run := run + [b];
    }

    /** One turn of retry_failed_cids. */
    method RetryFailedCids(chain: int, head: Option<int>, arrivals: seq<Scanned>) returns (ghost run: seq<Action>)
      requires closure.Free? && forall c | c in arrivals :: c.provider in cfg.providers
      modifies this, psql`failed, psql`events
      ensures Legal(cfg, old(View()), run) && View() == Exec(cfg, old(View()), run) && closure.Free?
      ensures match head
              case None => run == []
              case Some(bn) => exists v :: run == [Purge(chain, bn)] + Ingests(arrivals) + [SelectFailed(v)]
    {
      ghost var before := View();
      run := [];
      if head.None? {
        return;
      }
      ghost var a := Purge(chain, head.value);
      ExecOne(cfg, before, a);
      DropExpiredFailures(chain, head.value);
      run := Arrive(arrivals, before, [a]);
      ghost var b := RetryFailed();
      ExecSnoc(cfg, before, run, b);
      run := run + [b];
    }

    /** A spawned task from its node call to its statement, if it has one left. */
    method RunTask(t: Task, ok: bool, effect: bool) returns (ghost run: seq<Action>)
      requires closure.Free? && Enabled(cfg, View(), Call(t, ok, effect))
      modifies this, psql`pinned, psql`failed
      ensures Legal(cfg, old(View()), run) && View() == Exec(cfg, old(View()), run)
      ensures run == [Call(t, ok, effect)]
                     + if ok then [Finish(t.(stage := Commit))]
                       else if t.kind.FirstPin? then [Finish(t.(stage := Report))] else []
    {
      ghost var before := View();
      ghost var a := Call(t, ok, effect);
      ExecSnoc(cfg, before, [], a);
      CallNode(t, ok, effect);
      run := [] + [a];
      if ok || t.kind.FirstPin? {
        var rest := t.(stage := if ok then Commit else Report);
        Answered(cfg, before, t, ok, effect);
        ghost var b := Finish(rest);
        ExecSnoc(cfg, before, run, b);
        FinishTask(rest);
        run := run + [b];
      }
    }
  }

  /** The logs that arrive, one step each and in order. */
  function Ingests(logs: seq<Scanned>): seq<Action> {
    seq(|logs|, i requires 0 <= i < |logs| => Ingest(logs[i].provider, logs[i].log))
  }

  function Ingested(s: State, logs: seq<Scanned>): State {
    if logs == [] then s
    else
      var before, c := Ingested(s, logs[..|logs| - 1]), logs[|logs| - 1];
      before.(scanned := before.scanned + {c}, events := before.events + RowsOf([c.log], c.provider))
  }

  lemma {:induction false} IngestsRun(cfg: Config, s: State, run: seq<Action>, logs: seq<Scanned>)
    requires Legal(cfg, s, run) && forall c | c in logs :: c.provider in cfg.providers
    ensures Legal(cfg, s, run + Ingests(logs))
    ensures Exec(cfg, s, run + Ingests(logs)) == Ingested(Exec(cfg, s, run), logs)
    decreases |logs|
  {
    if logs == [] {
      assert run + Ingests(logs) == run;
    } else {
      var front, c := logs[..|logs| - 1], logs[|logs| - 1];
      IngestsRun(cfg, s, run, front);
      ExecSnoc(cfg, s, run + Ingests(front), Ingest(c.provider, c.log));
      assert run + Ingests(logs) == run + Ingests(front) + [Ingest(c.provider, c.log)];
    }
  }

  /** The step a renewal statement amounts to. */
  lemma RenewAction(cfg: Config, s: State, chain: int, bn: int, ok: bool, image: map<PinRow, PinRow>)
    returns (a: Action)
    requires s.closure.Free?
    requires ok ==> IsRenewal(image, s.pinned, s.events, chain, bn)
    requires !ok ==> RenewalConflict(s.pinned, s.events, chain, bn)
    ensures a == if ok then Renew(chain, bn, image) else RenewFails(chain, bn)
    ensures Enabled(cfg, s, a)
    ensures Apply(cfg, s, a) == if ok then s.(pinned := image.Values, closure := Renewed(chain, bn)) else s
  {
    if ok {
      a := Renew(chain, bn, image);
    } else {
      a := RenewFails(chain, bn);
    }
  }

  /** After its call a task with a statement left can run it. */
  lemma Answered(cfg: Config, s: State, t: Task, ok: bool, effect: bool)
    requires s.closure.Free? && Enabled(cfg, s, Call(t, ok, effect)) && (ok || t.kind.FirstPin?)
    ensures var rest := t.(stage := if ok then Commit else Report);
            Enabled(cfg, Apply(cfg, s, Call(t, ok, effect)), Finish(rest))
  {
    assert AfterCall(t, ok) == multiset{t.(stage := if ok then Commit else Report)};
  }
}
