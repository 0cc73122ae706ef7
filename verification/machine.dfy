/**
 * The pin lifecycle as a step machine. Each step is one SQL statement, one HTTP call or one scanned
 * log; the loops of all chains, their spawned tasks and the log scanner interleave freely.
 */
module PinMachine {
  import opened Tables
  import opened Logs
  import opened Selection

  datatype Config = Config(nodes: seq<string>, providers: seq<Provider>)

  datatype Kind = FirstPin | RetryPin | Unpin

  /** Request: the node has not been called yet. Commit and Report: only the SQL statement is left. */
  datatype Stage = Request | Commit | Report

  datatype Task = Task(kind: Kind, row: PinRow, stage: Stage)

  datatype Copy = Copy(node: string, cid: string)

  /** The database closure of a tick between its two statements; it keeps the shared connection. */
  datatype Closure =
    | Free
    | Renewed(chain: int, bn: int)
    | Swept(chain: int, bn: int)
    | Purged(chain: int, bn: int)

  datatype Scanned = Scanned(provider: Provider, log: LogEntry)

  datatype State = State(
    events: set<EventRow>,
    pinned: set<PinRow>,
    failed: set<PinRow>,
    held: set<Copy>,         // what each node has pinned
    tasks: multiset<Task>,   // selected or spawned, not finished
    closure: Closure,
    // history
    scanned: set<Scanned>,   // logs handed to the handler
    removed: set<Copy>)      // acknowledged rm calls

  const INITIAL := State({}, {}, {}, {}, multiset{}, Free, {}, {})

  datatype Action =
    | Ingest(provider: Provider, log: LogEntry)
    | Renew(chain: int, bn: int, image: map<PinRow, PinRow>)
    | RenewFails(chain: int, bn: int)
    | SelectNew(newCids: seq<NewCid>)
    | Sweep(chain: int, bn: int)
    | SelectExpired(rows: seq<PinRow>)
    | Purge(chain: int, bn: int)
    | SelectFailed(rows: seq<PinRow>)
    | Call(task: Task, ok: bool, effect: bool)
    | Finish(task: Task)

  function CopyOf(p: PinRow): Copy {
    Copy(p.node, p.cid)
  }

  // ---- fan-out --------------------------------------------------------------------------------

  /** The first attempts for one cid: every configured node. */
  function NodeTasks(n: NewCid, nodes: seq<string>, chain: int): seq<Task> {
    seq(|nodes|, i requires 0 <= i < |nodes| => Task(FirstPin, PinRow(chain, nodes[i], n.cid, n.end), Request))
  }

  function FanOut(v: seq<NewCid>, nodes: seq<string>, chain: int): seq<Task> {
    if v == [] then []
    else FanOut(v[..|v| - 1], nodes, chain) + NodeTasks(v[|v| - 1], nodes, chain)
  }

  /** One unpin task a row, unless its node is no longer configured. */
  function UnpinTasks(v: seq<PinRow>, nodes: seq<string>): seq<Task> {
    if v == [] then []
    else
      var p := v[|v| - 1];
      UnpinTasks(v[..|v| - 1], nodes) + if p.node in nodes then [Task(Unpin, p, Request)] else []
  }

  function RetryTasks(v: seq<PinRow>): seq<Task> {
    seq(|v|, i requires 0 <= i < |v| => Task(RetryPin, v[i], Request))
  }

  // ---- steps ----------------------------------------------------------------------------------

  ghost predicate Enabled(cfg: Config, s: State, a: Action) {
    match a
    case Ingest(p, _) => p in cfg.providers
    case Renew(chain, bn, image) => s.closure.Free? && IsRenewal(image, s.pinned, s.events, chain, bn)
    case RenewFails(chain, bn) => s.closure.Free? && RenewalConflict(s.pinned, s.events, chain, bn)
    case SelectNew(v) =>
      s.closure.Renewed? && Groups(v, UnpinnedEvents(s.events, s.pinned, s.closure.chain, s.closure.bn))
    case Sweep(_, _) => s.closure.Free?
    case SelectExpired(v) =>
      s.closure.Swept? && Lists(v, SingleChainExpired(s.pinned, s.closure.chain, s.closure.bn))
    case Purge(_, _) => s.closure.Free?
    case SelectFailed(v) =>
      s.closure.Purged? && Lists(v, LiveFailures(s.failed, s.closure.chain, s.closure.bn))
    case Call(t, ok, effect) => t in s.tasks && t.stage.Request? && (ok ==> effect)
    case Finish(t) => s.closure.Free? && t in s.tasks && !t.stage.Request?
  }

  /** What is left of a task once its node has answered: a failed retry or rm is forgotten. */
  function AfterCall(t: Task, ok: bool): multiset<Task> {
    if ok then multiset{t.(stage := Commit)}
    else if t.kind.FirstPin? then multiset{t.(stage := Report)}
    else multiset{}
  }

  ghost function Apply(cfg: Config, s: State, a: Action): State
    requires Enabled(cfg, s, a)
  {
    match a
    case Ingest(p, log) =>
      s.(scanned := s.scanned + {Scanned(p, log)}, events := s.events + RowsOf([log], p))
    case Renew(chain, bn, image) =>
      s.(pinned := image.Values, closure := Renewed(chain, bn))
    case RenewFails(_, _) => s
    case SelectNew(v) =>
      s.(closure := Free,
         tasks := s.tasks + multiset(FanOut(v, cfg.nodes, s.closure.chain)))
    case Sweep(chain, bn) =>
      s.(pinned := s.pinned - MultichainExpired(s.pinned, chain, bn),
         closure := Swept(chain, bn))
    case SelectExpired(v) =>
      s.(closure := Free, tasks := s.tasks + multiset(UnpinTasks(v, cfg.nodes)))
    case Purge(chain, bn) =>
      s.(failed := s.failed - PurgedFailures(s.failed, chain, bn),
         closure := Purged(chain, bn))
    case SelectFailed(v) =>
      s.(closure := Free, tasks := s.tasks + multiset(RetryTasks(v)))
    case Call(t, ok, effect) =>
      var copy := CopyOf(t.row);
      s.(tasks := s.tasks - multiset{t} + AfterCall(t, ok),
         held := if !effect then s.held else if t.kind.Unpin? then s.held - {copy} else s.held + {copy},
         removed := if ok && t.kind.Unpin? then s.removed + {copy} else s.removed)
    case Finish(t) =>
      var rest := s.(tasks := s.tasks - multiset{t});
      if t.stage.Report? then rest.(failed := s.failed + {t.row})
      else if t.kind.Unpin? then rest.(pinned := s.pinned - {t.row})
      else rest.(pinned := s.pinned + {t.row})  // an existing key only makes the insert fail
  }

  // ---- runs -----------------------------------------------------------------------------------

  ghost predicate Legal(cfg: Config, s: State, run: seq<Action>)
    decreases |run|
  {
    run == [] || (Enabled(cfg, s, run[0]) && Legal(cfg, Apply(cfg, s, run[0]), run[1..]))
  }

  ghost function Exec(cfg: Config, s: State, run: seq<Action>): State
    requires Legal(cfg, s, run)
    decreases |run|
  {
    if run == [] then s else Exec(cfg, Apply(cfg, s, run[0]), run[1..])
  }

  lemma ExecOne(cfg: Config, s: State, a: Action)
    requires Enabled(cfg, s, a)
    ensures Legal(cfg, s, [a]) && Exec(cfg, s, [a]) == Apply(cfg, s, a)
  {
    assert [a][1..] == [];
  }

  lemma {:induction false} ExecSnoc(cfg: Config, s: State, run: seq<Action>, a: Action)
    requires Legal(cfg, s, run) && Enabled(cfg, Exec(cfg, s, run), a)
    ensures Legal(cfg, s, run + [a])
    ensures Exec(cfg, s, run + [a]) == Apply(cfg, Exec(cfg, s, run), a)
    decreases |run|
  {
    if run == [] {
      assert run + [a] == [a];
      ExecOne(cfg, s, a);
    } else {
      ExecSnoc(cfg, Apply(cfg, s, run[0]), run[1..], a);
      assert (run + [a])[1..] == run[1..] + [a];
    }
  }

  /** The first j + 1 steps are the first step and then j more. */
  lemma ExecFront(cfg: Config, s: State, run: seq<Action>, j: nat)
    requires Legal(cfg, s, run) && j < |run| && Legal(cfg, Apply(cfg, s, run[0]), run[1..][..j])
    ensures Legal(cfg, s, run[..j + 1])
    ensures Exec(cfg, s, run[..j + 1]) == Exec(cfg, Apply(cfg, s, run[0]), run[1..][..j])
  {
    assert run[..j + 1][1..] == run[1..][..j];
  }

  // ---- lives of the process ---------------------------------------------------------------------

  /** The process stops: the tables and the nodes stay as they are, spawned work and open ticks are gone. */
  function Stopped(s: State): State {
    s.(tasks := multiset{}, closure := Free)
  }

  /** Each life runs for a while and is then stopped. */
  ghost predicate LegalLives(cfg: Config, s: State, lives: seq<seq<Action>>)
    decreases |lives|
  {
    lives == [] || (Legal(cfg, s, lives[0]) && LegalLives(cfg, Stopped(Exec(cfg, s, lives[0])), lives[1..]))
  }

  ghost function ExecLives(cfg: Config, s: State, lives: seq<seq<Action>>): State
    requires LegalLives(cfg, s, lives)
    decreases |lives|
  {
    if lives == [] then s else ExecLives(cfg, Stopped(Exec(cfg, s, lives[0])), lives[1..])
  }

  ghost predicate ReachedBy(cfg: Config, lives: seq<seq<Action>>, run: seq<Action>, s: State) {
    && LegalLives(cfg, INITIAL, lives) && Legal(cfg, ExecLives(cfg, INITIAL, lives), run)
    && Exec(cfg, ExecLives(cfg, INITIAL, lives), run) == s
  }

  /** From empty tables, after any number of lives and some steps of another. */
  ghost predicate Reachable(cfg: Config, s: State) {
    exists lives, run :: ReachedBy(cfg, lives, run, s)
  }

  lemma ReachedInOneLife(cfg: Config, run: seq<Action>)
    requires Legal(cfg, INITIAL, run)
    ensures Reachable(cfg, Exec(cfg, INITIAL, run))
  {
    assert ReachedBy(cfg, [], run, Exec(cfg, INITIAL, run));
  }

  /** The first j + 1 lives are the first life and then j more. */
  lemma LivesFront(cfg: Config, s: State, lives: seq<seq<Action>>, j: nat)
    requires LegalLives(cfg, s, lives) && j < |lives|
    requires LegalLives(cfg, Stopped(Exec(cfg, s, lives[0])), lives[1..][..j])
    ensures LegalLives(cfg, s, lives[..j + 1])
    ensures ExecLives(cfg, s, lives[..j + 1]) == ExecLives(cfg, Stopped(Exec(cfg, s, lives[0])), lives[1..][..j])
  {
    assert lives[..j + 1][1..] == lives[1..][..j];
  }

  // ---- who is in a fan-out --------------------------------------------------------------------

  lemma {:induction false} FanOutSpec(v: seq<NewCid>, nodes: seq<string>, chain: int, t: Task)
    ensures t in FanOut(v, nodes, chain)
            <==> && t.kind == FirstPin && t.stage == Request && t.row.chain == chain
                 && t.row.node in nodes && NewCid(t.row.cid, t.row.end) in v
  {
    if v != [] {
      var n := v[|v| - 1];
      FanOutSpec(v[..|v| - 1], nodes, chain, t);
      assert v == v[..|v| - 1] + [n];
      if t.row.node in nodes {
        var i :| 0 <= i < |nodes| && nodes[i] == t.row.node;
        assert NodeTasks(n, nodes, chain)[i] == Task(FirstPin, PinRow(chain, t.row.node, n.cid, n.end), Request);
      }
    }
  }

  lemma {:induction false} UnpinTasksSpec(v: seq<PinRow>, nodes: seq<string>, t: Task)
    ensures t in UnpinTasks(v, nodes)
            <==> t.kind == Unpin && t.stage == Request && t.row in v && t.row.node in nodes
  {
    if v != [] {
      UnpinTasksSpec(v[..|v| - 1], nodes, t);
      assert v == v[..|v| - 1] + [v[|v| - 1]];
    }
  }

  lemma RetryTasksSpec(v: seq<PinRow>, t: Task)
    ensures t in RetryTasks(v) <==> t.kind == RetryPin && t.stage == Request && t.row in v
  {
    if t.row in v {
      var i :| 0 <= i < |v| && v[i] == t.row;
      assert RetryTasks(v)[i] == Task(RetryPin, t.row, Request);
    }
  }

  /** Where a task that was not there before a step comes from. */
  ghost predicate Arrives(cfg: Config, s: State, a: Action, t: Task)
    requires Enabled(cfg, s, a)
  {
    match a
    case SelectNew(v) =>
      && t.kind.FirstPin? && t.stage.Request? && t.row.chain == s.closure.chain
      && t.row.node in cfg.nodes && NewCid(t.row.cid, t.row.end) in v
    case SelectExpired(v) =>
      && t.kind.Unpin? && t.stage.Request? && t.row in v && t.row.node in cfg.nodes
      && t.row in s.pinned && Expired(t.row, s.closure.chain, s.closure.bn)
    case SelectFailed(v) => t.kind.RetryPin? && t.stage.Request? && t.row in v && t.row in s.failed
    case Call(u, ok, _) =>
      && u in s.tasks && u.stage.Request? && t.row == u.row && t.kind == u.kind
      && (if ok then t.stage.Commit? else t.stage.Report? && t.kind.FirstPin?)
    case _ => false
  }

  lemma NewTask(cfg: Config, s: State, a: Action, t: Task)
    requires Enabled(cfg, s, a) && t in Apply(cfg, s, a).tasks && t !in s.tasks
    ensures Arrives(cfg, s, a, t)
  {
    match a
    case SelectNew(v) => FanOutSpec(v, cfg.nodes, s.closure.chain, t);
    case SelectFailed(v) => RetryTasksSpec(v, t);
    case SelectExpired(v) =>
      UnpinTasksSpec(v, cfg.nodes, t);
      JoinFiltersNothing(s.pinned, s.closure.chain, s.closure.bn);
    case _ =>
  }

  /** A task leaves or changes only by its own call or statement. */
  lemma OtherTasksStay(cfg: Config, s: State, a: Action, t: Task)
    requires Enabled(cfg, s, a) && t in s.tasks && !((a.Call? || a.Finish?) && a.task == t)
    ensures t in Apply(cfg, s, a).tasks
  {
  }
}
