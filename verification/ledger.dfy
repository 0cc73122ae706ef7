/**
 * Ledger against reality, in serialised runs: every spawned task finishes before the next tick, the
 * retry loop is idle, node URLs are distinct and a failed node call changes nothing.
 */
module Ledger {
  import opened Tables
  import opened Logs
  import opened Renewal
  import opened Selection
  import opened PinMachine

  /** Each tick waits for the work of the one before, and a failed node call changes nothing. */
  ghost predicate OrderlyStep(cfg: Config, s: State, a: Action) {
    && Enabled(cfg, s, a)
    && (match a
        case Renew(_, _, _) => s.tasks == multiset{}
        case RenewFails(_, _) => s.tasks == multiset{}
        case Sweep(_, _) => s.tasks == multiset{}
        case Purge(_, _) => s.tasks == multiset{}
        case Call(_, ok, effect) => effect == ok
        case _ => true)
  }

  /** Orderly, and without the retry loop. */
  ghost predicate SerialStep(cfg: Config, s: State, a: Action) {
    OrderlyStep(cfg, s, a) && !a.Purge?
  }

  ghost predicate Orderly(cfg: Config, s: State, run: seq<Action>)
    decreases |run|
  {
    run == [] || (OrderlyStep(cfg, s, run[0]) && Orderly(cfg, Apply(cfg, s, run[0]), run[1..]))
  }

  ghost predicate Serial(cfg: Config, s: State, run: seq<Action>)
    decreases |run|
  {
    run == [] || (SerialStep(cfg, s, run[0]) && Serial(cfg, Apply(cfg, s, run[0]), run[1..]))
  }

  lemma {:induction false} SerialIsLegal(cfg: Config, s: State, run: seq<Action>)
    requires Serial(cfg, s, run)
    ensures Legal(cfg, s, run)
    decreases |run|
  {
    if run != [] {
      SerialIsLegal(cfg, Apply(cfg, s, run[0]), run[1..]);
    }
  }

  // ---- the invariant ---------------------------------------------------------------------------

  /** At any moment only one tick's tasks exist, each once and each for another copy. */
  ghost predicate OneBatch(s: State) {
    && (forall t | t in s.tasks ::
          s.tasks[t] == 1 && !t.kind.RetryPin? && (t.stage.Report? ==> t.kind.FirstPin?))
    && (forall t, u | t in s.tasks && u in s.tasks ::
          t.row.chain == u.row.chain && t.kind == u.kind && (SameCopy(t.row, u.row) ==> t == u))
    && (!s.closure.Free? ==> s.tasks == multiset{}) && !s.closure.Purged?
  }

  /** A first attempt is for a copy the ledger lacks; an unpin for a row whose cid no other chain holds. */
  ghost predicate TasksFitLedger(s: State) {
    forall t | t in s.tasks ::
      if t.kind.Unpin? then t.row in s.pinned && !HeldElsewhere(s.pinned, t.row)
      else forall p | p in s.pinned :: !SameCopy(p, t.row)
  }

  /** Nodes and ledger differ only by the half-done tasks. */
  ghost predicate RowsTrue(s: State) {
    && (forall p | p in s.pinned :: CopyOf(p) in s.held || Task(Unpin, p, Commit) in s.tasks)
    && (forall t | t in s.tasks && t.kind.FirstPin? && t.stage.Commit? :: CopyOf(t.row) in s.held)
  }

  ghost predicate SweptClean(s: State) {
    s.closure.Swept? ==>
      forall p | p in s.pinned && Expired(p, s.closure.chain, s.closure.bn) :: !HeldElsewhere(s.pinned, p)
  }

  ghost predicate Sound(s: State) {
    OneRowPerCopy(s.pinned) && OneBatch(s) && TasksFitLedger(s) && RowsTrue(s) && SweptClean(s)
  }

  // ---- one step keeps it -----------------------------------------------------------------------

  lemma StepKeepsSound(cfg: Config, s: State, a: Action)
    requires NoDuplicates(cfg.nodes) && Sound(s) && SerialStep(cfg, s, a)
    ensures Sound(Apply(cfg, s, a))
  {
    match a
    case Ingest(_, _) =>
    case Renew(chain, bn, image) => RenewKeepsSound(cfg, s, chain, bn, image);
    case RenewFails(chain, bn) =>
    case SelectNew(v) => SelectNewKeepsSound(cfg, s, v);
    case Sweep(chain, bn) => SweepKeepsSound(cfg, s, chain, bn);
    case SelectExpired(v) => SelectExpiredKeepsSound(cfg, s, v);
    case Call(t, ok, effect) => CallKeepsSound(cfg, s, t, ok);
    case Finish(t) => FinishKeepsSound(cfg, s, t);
    case _ =>
  }

  lemma RenewKeepsSound(cfg: Config, s: State, chain: int, bn: int, image: map<PinRow, PinRow>)
    requires Sound(s) && SerialStep(cfg, s, Renew(chain, bn, image))
    ensures Sound(Apply(cfg, s, Renew(chain, bn, image)))
  {
    RenewalKeepsKey(s.pinned, s.events, chain, bn, image);
    forall q | q in image.Values ensures CopyOf(q) in s.held {
      var p :| p in image && image[p] == q;
      assert CopyOf(p) == CopyOf(q);
    }
  }

  lemma SweepKeepsSound(cfg: Config, s: State, chain: int, bn: int)
    requires Sound(s) && SerialStep(cfg, s, Sweep(chain, bn))
    ensures Sound(Apply(cfg, s, Sweep(chain, bn)))
  {
  }

  lemma {:induction false} FanOutOnce(v: seq<NewCid>, nodes: seq<string>, chain: int)
    requires NoDuplicates(nodes) && forall i, j | 0 <= i < j < |v| :: v[i].cid != v[j].cid
    ensures NoDuplicates(FanOut(v, nodes, chain))
  {
    if v != [] {
      var front, n := v[..|v| - 1], v[|v| - 1];
      FanOutOnce(front, nodes, chain);
      var a, b := FanOut(front, nodes, chain), NodeTasks(n, nodes, chain);
      forall i, j | 0 <= i < |a| && 0 <= j < |b| ensures a[i] != b[j] {
        FanOutSpec(front, nodes, chain, a[i]);
      }
    }
  }

  lemma {:induction false} UnpinTasksOnce(v: seq<PinRow>, nodes: seq<string>)
    requires NoDuplicates(v)
    ensures NoDuplicates(UnpinTasks(v, nodes))
  {
    if v != [] {
      var front := v[..|v| - 1];
      UnpinTasksOnce(front, nodes);
      var a := UnpinTasks(front, nodes);
      forall i | 0 <= i < |a| ensures a[i].row != v[|v| - 1] {
        UnpinTasksSpec(front, nodes, a[i]);
      }
    }
  }

  lemma {:induction false} OnceEach(v: seq<Task>, t: Task)
    requires NoDuplicates(v) && t in v
    ensures multiset(v)[t] == 1
  {
    var front, last := v[..|v| - 1], v[|v| - 1];
    assert v == front + [last];
    if t in front {
      OnceEach(front, t);
    }
  }

  lemma SelectNewKeepsSound(cfg: Config, s: State, v: seq<NewCid>)
    requires NoDuplicates(cfg.nodes) && Sound(s) && SerialStep(cfg, s, SelectNew(v))
    ensures Sound(Apply(cfg, s, SelectNew(v)))
  {
    var s' := Apply(cfg, s, SelectNew(v));
    FanOutOnce(v, cfg.nodes, s.closure.chain);
    forall t | t in s'.tasks
      ensures s'.tasks[t] == 1 && t.kind == FirstPin && t.stage == Request && t.row.chain == s.closure.chain
      ensures NewCid(t.row.cid, t.row.end) in v
      ensures forall p | p in s.pinned :: !SameCopy(p, t.row)
    {
      NewCidTask(cfg, s, v, t);
    }
    forall t, u | t in s'.tasks && u in s'.tasks && SameCopy(t.row, u.row) ensures t == u {
      OneEndPerCid(v, NewCid(t.row.cid, t.row.end), NewCid(u.row.cid, u.row.end));
    }
  }

  lemma NewCidTask(cfg: Config, s: State, v: seq<NewCid>, t: Task)
    requires Sound(s) && SerialStep(cfg, s, SelectNew(v)) && NoDuplicates(FanOut(v, cfg.nodes, s.closure.chain))
    requires t in Apply(cfg, s, SelectNew(v)).tasks
    ensures Apply(cfg, s, SelectNew(v)).tasks[t] == 1
    ensures t.kind == FirstPin && t.stage == Request && t.row.chain == s.closure.chain
    ensures NewCid(t.row.cid, t.row.end) in v
    ensures forall p | p in s.pinned :: !SameCopy(p, t.row)
  {
    var chain := s.closure.chain;
    assert Apply(cfg, s, SelectNew(v)).tasks == multiset(FanOut(v, cfg.nodes, chain));
    OnceEach(FanOut(v, cfg.nodes, chain), t);
    FanOutSpec(v, cfg.nodes, chain, t);
    NewCidsSpec(s.events, s.pinned, chain, s.closure.bn, v, NewCid(t.row.cid, t.row.end));
  }

  lemma OneEndPerCid(v: seq<NewCid>, m: NewCid, n: NewCid)
    requires (forall i, j | 0 <= i < j < |v| :: v[i].cid != v[j].cid) && m in v && n in v && m.cid == n.cid
    ensures m == n
  {
  }

  lemma SelectExpiredKeepsSound(cfg: Config, s: State, v: seq<PinRow>)
    requires Sound(s) && SerialStep(cfg, s, SelectExpired(v))
    ensures Sound(Apply(cfg, s, SelectExpired(v)))
  {
    var batch := UnpinTasks(v, cfg.nodes);
    var s' := Apply(cfg, s, SelectExpired(v));
    assert s'.tasks == multiset(batch);
    UnpinTasksOnce(v, cfg.nodes);
    JoinFiltersNothing(s.pinned, s.closure.chain, s.closure.bn);
    forall t | t in s'.tasks
      ensures s'.tasks[t] == 1 && t.kind == Unpin && t.stage == Request
      ensures t.row in s.pinned && Expired(t.row, s.closure.chain, s.closure.bn)
    {
      OnceEach(batch, t);
      UnpinTasksSpec(v, cfg.nodes, t);
    }
  }

  /** The node's answer replaces or removes one task; the others stay as they were. */
  lemma CallTasks(cfg: Config, s: State, t: Task, ok: bool, u: Task)
    requires OneBatch(s) && SerialStep(cfg, s, Call(t, ok, ok))
    ensures var s' := Apply(cfg, s, Call(t, ok, ok));
            u in s'.tasks <==> (u in s.tasks && u != t) || u in AfterCall(t, ok)
    ensures u in AfterCall(t, ok) ==> u !in s.tasks && u.row == t.row && u.kind == t.kind && !u.stage.Request?
    ensures u in Apply(cfg, s, Call(t, ok, ok)).tasks ==> Apply(cfg, s, Call(t, ok, ok)).tasks[u] == 1
  {
    assert t !in s.tasks - multiset{t};
    if u in AfterCall(t, ok) {
      assert SameCopy(u.row, t.row);
    }
  }

  lemma CallKeepsBatch(cfg: Config, s: State, t: Task, ok: bool)
    requires OneBatch(s) && SerialStep(cfg, s, Call(t, ok, ok))
    ensures OneBatch(Apply(cfg, s, Call(t, ok, ok)))
  {
    var s' := Apply(cfg, s, Call(t, ok, ok));
    forall u | u in s'.tasks
      ensures s'.tasks[u] == 1 && !u.kind.RetryPin? && (u.stage.Report? ==> u.kind.FirstPin?)
    {
      CallTasks(cfg, s, t, ok, u);
    }
    forall u, w | u in s'.tasks && w in s'.tasks
      ensures u.row.chain == w.row.chain && u.kind == w.kind && (SameCopy(u.row, w.row) ==> u == w)
    {
      CallTasks(cfg, s, t, ok, u);
      CallTasks(cfg, s, t, ok, w);
    }
  }

  lemma CallKeepsSound(cfg: Config, s: State, t: Task, ok: bool)
    requires Sound(s) && SerialStep(cfg, s, Call(t, ok, ok))
    ensures Sound(Apply(cfg, s, Call(t, ok, ok)))
  {
    var s' := Apply(cfg, s, Call(t, ok, ok));
    CallKeepsBatch(cfg, s, t, ok);
    forall u | u in s'.tasks
      ensures if u.kind.Unpin? then u.row in s.pinned && !HeldElsewhere(s.pinned, u.row)
              else forall p | p in s.pinned :: !SameCopy(p, u.row)
      ensures u.kind.FirstPin? && u.stage.Commit? ==> CopyOf(u.row) in s'.held
    {
      CallTasks(cfg, s, t, ok, u);
    }
    forall p | p in s.pinned ensures CopyOf(p) in s'.held || Task(Unpin, p, Commit) in s'.tasks {
      CallKeepsRowTrue(cfg, s, t, ok, p);
    }
  }

  lemma CallKeepsRowTrue(cfg: Config, s: State, t: Task, ok: bool, p: PinRow)
    requires Sound(s) && SerialStep(cfg, s, Call(t, ok, ok)) && p in s.pinned
    ensures var s' := Apply(cfg, s, Call(t, ok, ok)); CopyOf(p) in s'.held || Task(Unpin, p, Commit) in s'.tasks
  {
    CallTasks(cfg, s, t, ok, Task(Unpin, p, Commit));
    if ok && t.kind.Unpin? && CopyOf(p) == CopyOf(t.row) {
      assert p.chain == t.row.chain by {
        assert !HeldElsewhere(s.pinned, t.row);
      }
      assert SameCopy(p, t.row);
    }
  }

  lemma FinishTasks(cfg: Config, s: State, t: Task, u: Task)
    requires OneBatch(s) && SerialStep(cfg, s, Finish(t))
    ensures var s' := Apply(cfg, s, Finish(t));
            && (u in s'.tasks <==> u in s.tasks && u != t)
            && (u in s'.tasks ==> s'.tasks[u] == 1 && !SameCopy(u.row, t.row))
  {
    assert t !in s.tasks - multiset{t};
  }

  lemma FinishKeepsBatch(cfg: Config, s: State, t: Task)
    requires OneBatch(s) && SerialStep(cfg, s, Finish(t))
    ensures OneBatch(Apply(cfg, s, Finish(t)))
  {
    forall u | u in Apply(cfg, s, Finish(t)).tasks ensures u in s.tasks && Apply(cfg, s, Finish(t)).tasks[u] == 1 {
      FinishTasks(cfg, s, t, u);
    }
  }

  lemma FinishKeepsUnique(cfg: Config, s: State, t: Task)
    requires Sound(s) && SerialStep(cfg, s, Finish(t))
    ensures OneRowPerCopy(Apply(cfg, s, Finish(t)).pinned)
  {
  }

  lemma FinishKeepsFit(cfg: Config, s: State, t: Task)
    requires Sound(s) && SerialStep(cfg, s, Finish(t))
    ensures TasksFitLedger(Apply(cfg, s, Finish(t)))
  {
    var s' := Apply(cfg, s, Finish(t));
    forall u | u in s'.tasks
      ensures if u.kind.Unpin? then u.row in s'.pinned && !HeldElsewhere(s'.pinned, u.row)
              else forall p | p in s'.pinned :: !SameCopy(p, u.row)
    {
      FinishTasks(cfg, s, t, u);
    }
  }

  lemma FinishKeepsSound(cfg: Config, s: State, t: Task)
    requires Sound(s) && SerialStep(cfg, s, Finish(t))
    ensures Sound(Apply(cfg, s, Finish(t)))
  {
    var s' := Apply(cfg, s, Finish(t));
    FinishKeepsBatch(cfg, s, t);
    FinishKeepsFit(cfg, s, t);
    FinishKeepsUnique(cfg, s, t);
    forall p | p in s'.pinned ensures CopyOf(p) in s'.held || Task(Unpin, p, Commit) in s'.tasks {
      FinishTasks(cfg, s, t, Task(Unpin, p, Commit));
    }
    forall u | u in s'.tasks && u.kind.FirstPin? && u.stage.Commit? ensures CopyOf(u.row) in s'.held {
      FinishTasks(cfg, s, t, u);
    }
  }

  lemma {:induction false} RunKeepsSound(cfg: Config, s: State, run: seq<Action>)
    requires NoDuplicates(cfg.nodes) && Sound(s) && Serial(cfg, s, run)
    ensures Legal(cfg, s, run) && Sound(Exec(cfg, s, run))
    decreases |run|
  {
    if run != [] {
      StepKeepsSound(cfg, s, run[0]);
      RunKeepsSound(cfg, Apply(cfg, s, run[0]), run[1..]);
    }
  }

  /** No task is left to run. */
  predicate Quiescent(s: State) {
    s.tasks == multiset{}
  }

  /**
   * With any number of chains every ledger row is true at every quiescent point, and there is one row
   * per chain, node and cid: an unpin for one chain never removes a copy another chain's row claims.
   */
  lemma EveryRowIsTrue(cfg: Config, run: seq<Action>)
    requires NoDuplicates(cfg.nodes) && Serial(cfg, INITIAL, run)
    ensures Legal(cfg, INITIAL, run)
    ensures OneRowPerCopy(Exec(cfg, INITIAL, run).pinned)
    ensures Quiescent(Exec(cfg, INITIAL, run)) ==>
              forall p | p in Exec(cfg, INITIAL, run).pinned :: CopyOf(p) in Exec(cfg, INITIAL, run).held
  {
    RunKeepsSound(cfg, INITIAL, run);
  }

  /** In serialised runs no renewal can break the key, at any head. */
  lemma RenewalNeverFails(cfg: Config, run: seq<Action>, chain: int, bn: int)
    requires NoDuplicates(cfg.nodes) && Serial(cfg, INITIAL, run) && Legal(cfg, INITIAL, run)
    ensures !Enabled(cfg, Exec(cfg, INITIAL, run), RenewFails(chain, bn))
  {
    RunKeepsSound(cfg, INITIAL, run);
    var end := Exec(cfg, INITIAL, run);
    RenewalKeepsKey(end.pinned, end.events, chain, bn, map[]);
  }

  // ---- the converse: nodes hold nothing the ledger does not list -------------------------------

  /** The copies the ledger lists. */
  function Listed(pinned: set<PinRow>): set<Copy> {
    set p | p in pinned :: CopyOf(p)
  }

  /** Each row the multi-chain delete drops has another row of the same node and cid that stays. */
  ghost predicate SweepSparesCopies(pinned: set<PinRow>, chain: int, bn: int) {
    forall p | p in MultichainExpired(pinned, chain, bn) ::
      exists q | q in pinned - MultichainExpired(pinned, chain, bn) :: CopyOf(q) == CopyOf(p)
  }

  lemma SparedMeansListed(pinned: set<PinRow>, chain: int, bn: int)
    ensures SweepSparesCopies(pinned, chain, bn)
            <==> Listed(pinned - MultichainExpired(pinned, chain, bn)) == Listed(pinned)
  {
    var dropped := MultichainExpired(pinned, chain, bn);
    forall c ensures c in Listed(pinned) <==> c in Listed(pinned - dropped) || c in Listed(dropped) {
      if p :| p in pinned && CopyOf(p) == c {
        assert p in dropped || p in pinned - dropped;
      }
    }
    if Listed(pinned - dropped) == Listed(pinned) {
      forall p | p in dropped ensures exists q | q in pinned - dropped :: CopyOf(q) == CopyOf(p) {
        assert CopyOf(p) in Listed(pinned - dropped);
      }
    }
  }

  /** At rest the nodes hold exactly what the ledger lists. */
  ghost predicate AgreesAtRest(s: State) {
    Quiescent(s) ==> s.held == Listed(s.pinned)
  }

  /** A multi-chain delete parts ledger and nodes exactly when some dropped row was its copy's only one. */
  lemma SweepStrandsCopies(cfg: Config, s: State, chain: int, bn: int)
    requires Quiescent(s) && AgreesAtRest(s) && Enabled(cfg, s, Sweep(chain, bn))
    ensures AgreesAtRest(Apply(cfg, s, Sweep(chain, bn))) <==> SweepSparesCopies(s.pinned, chain, bn)
  {
    SparedMeansListed(s.pinned, chain, bn);
  }

  ghost predicate SparingStep(s: State, a: Action) {
    a.Sweep? ==> SweepSparesCopies(s.pinned, a.chain, a.bn)
  }

  /** No multi-chain delete of the run strands a copy. */
  ghost predicate Sparing(cfg: Config, s: State, run: seq<Action>)
    requires Legal(cfg, s, run)
    decreases |run|
  {
    run == [] || (SparingStep(s, run[0]) && Sparing(cfg, Apply(cfg, s, run[0]), run[1..]))
  }

  /** Ledger and nodes agree at every quiescent state the run passes through. */
  ghost predicate Agreeing(cfg: Config, s: State, run: seq<Action>)
    requires Legal(cfg, s, run)
    decreases |run|
  {
    AgreesAtRest(s) && (run == [] || Agreeing(cfg, Apply(cfg, s, run[0]), run[1..]))
  }

  /** Nodes hold nothing but what the ledger lists or is about to list. */
  ghost predicate NothingExtra(s: State) {
    && (forall c | c in s.held :: Accounted(s, c))
    && (forall t | t in s.tasks && t.kind.Unpin? && t.stage.Commit? :: CopyOf(t.row) !in s.held)
  }

  ghost predicate Accounted(s: State, c: Copy) {
    || (exists p | p in s.pinned :: CopyOf(p) == c)
    || (exists t | t in s.tasks :: t.kind.FirstPin? && t.stage.Commit? && CopyOf(t.row) == c)
  }

  lemma StepKeepsNothingExtra(cfg: Config, s: State, a: Action)
    requires Sound(s) && NothingExtra(s)
    requires SerialStep(cfg, s, a) && SparingStep(s, a)
    ensures NothingExtra(Apply(cfg, s, a))
  {
    var s' := Apply(cfg, s, a);
    forall c | c in s'.held ensures Accounted(s', c) {
      StepKeepsAccounted(cfg, s, a, c);
    }
    forall t | t in s'.tasks && t.kind.Unpin? && t.stage.Commit? ensures CopyOf(t.row) !in s'.held {
      if t !in s.tasks {
        NewTask(cfg, s, a, t);
      }
    }
  }

  lemma StepKeepsAccounted(cfg: Config, s: State, a: Action, c: Copy)
    requires Sound(s) && NothingExtra(s)
    requires SerialStep(cfg, s, a) && SparingStep(s, a) && c in Apply(cfg, s, a).held
    ensures Accounted(Apply(cfg, s, a), c)
  {
    if c in s.held {
      assert Accounted(s, c);
      if exists p | p in s.pinned :: CopyOf(p) == c {
        var p :| p in s.pinned && CopyOf(p) == c;
        StepKeepsListed(cfg, s, a, p);
      } else {
        StepKeepsAwaited(cfg, s, a, c);
      }
    } else {
      NewCopyAwaited(cfg, s, a, c);
    }
  }

  /** A listed copy its node still holds stays listed. */
  lemma StepKeepsListed(cfg: Config, s: State, a: Action, p: PinRow)
    requires Sound(s) && NothingExtra(s)
    requires SerialStep(cfg, s, a) && SparingStep(s, a)
    requires p in s.pinned && CopyOf(p) in Apply(cfg, s, a).held
    ensures exists q | q in Apply(cfg, s, a).pinned :: CopyOf(q) == CopyOf(p)
  {
    match a
    case Renew(_, _, image) => assert image[p] in image.Values && CopyOf(image[p]) == CopyOf(p);
    case Sweep(chain, bn) => assert p !in MultichainExpired(s.pinned, chain, bn) ==> p in Apply(cfg, s, a).pinned;
    case Finish(t) => assert !t.kind.Unpin? || p != t.row;
    case _ =>
  }

  /** A copy appears on a node only by a first attempt, whose row is then about to be written. */
  lemma NewCopyAwaited(cfg: Config, s: State, a: Action, c: Copy)
    requires OneBatch(s) && SerialStep(cfg, s, a) && c !in s.held && c in Apply(cfg, s, a).held
    ensures Accounted(Apply(cfg, s, a), c)
  {
    var t := a.task.(stage := Commit);
    CallTasks(cfg, s, a.task, a.ok, t);
    assert t in Apply(cfg, s, a).tasks && t.kind.FirstPin?;
  }

  lemma StepKeepsAwaited(cfg: Config, s: State, a: Action, c: Copy)
    requires OneBatch(s) && SerialStep(cfg, s, a)
    requires exists t | t in s.tasks :: t.kind.FirstPin? && t.stage.Commit? && CopyOf(t.row) == c
    ensures Accounted(Apply(cfg, s, a), c)
  {
    var t :| t in s.tasks && t.kind.FirstPin? && t.stage.Commit? && CopyOf(t.row) == c;
    StepKeepsPending(cfg, s, a, t);
  }

  lemma StepKeepsPending(cfg: Config, s: State, a: Action, t: Task)
    requires OneBatch(s) && SerialStep(cfg, s, a) && t in s.tasks && t.kind.FirstPin? && t.stage.Commit?
    ensures t in Apply(cfg, s, a).tasks || t.row in Apply(cfg, s, a).pinned
  {
    if a.Finish? && a.task != t {
      FinishTasks(cfg, s, a.task, t);
    } else if a.Call? {
      CallTasks(cfg, s, a.task, a.ok, t);
    }
  }

  lemma AgreementAtRest(s: State)
    requires RowsTrue(s) && NothingExtra(s)
    ensures AgreesAtRest(s)
  {
    if Quiescent(s) {
      forall c ensures c in s.held <==> c in Listed(s.pinned) {
        assert c in s.held ==> Accounted(s, c);
      }
    }
  }

  lemma {:induction false} RunAgreesIff(cfg: Config, s: State, run: seq<Action>)
    requires NoDuplicates(cfg.nodes) && Sound(s) && NothingExtra(s) && Serial(cfg, s, run)
    ensures Legal(cfg, s, run)
    ensures Agreeing(cfg, s, run) <==> Sparing(cfg, s, run)
    decreases |run|
  {
    AgreementAtRest(s);
    SerialIsLegal(cfg, s, run);
    if run != [] {
      StepKeepsSound(cfg, s, run[0]);
      if SparingStep(s, run[0]) {
        StepKeepsNothingExtra(cfg, s, run[0]);
        RunAgreesIff(cfg, Apply(cfg, s, run[0]), run[1..]);
      } else {
        SweepStrandsCopies(cfg, s, run[0].chain, run[0].bn);
      }
    }
  }

  /**
   * With any number of chains: ledger and nodes agree at every quiescent state of a serialised run exactly
   * when each of its multi-chain deletes leaves another row for every copy it drops.
   */
  lemma LedgerAgreesIffSparing(cfg: Config, run: seq<Action>)
    requires NoDuplicates(cfg.nodes) && Serial(cfg, INITIAL, run)
    ensures Legal(cfg, INITIAL, run)
    ensures Agreeing(cfg, INITIAL, run) <==> Sparing(cfg, INITIAL, run)
  {
    RunAgreesIff(cfg, INITIAL, run);
  }

  lemma {:induction false} AgreeingAtEnd(cfg: Config, s: State, run: seq<Action>)
    requires Legal(cfg, s, run) && Agreeing(cfg, s, run)
    ensures AgreesAtRest(Exec(cfg, s, run))
    decreases |run|
  {
    if run != [] {
      AgreeingAtEnd(cfg, Apply(cfg, s, run[0]), run[1..]);
    }
  }

  // ---- one chain ---------------------------------------------------------------------------------

  predicate TickOf(a: Action, chain: int) {
    match a
    case Renew(c, _, _) => c == chain
    case RenewFails(c, _) => c == chain
    case Sweep(c, _) => c == chain
    case _ => true
  }

  ghost predicate OnlyChain(s: State, chain: int) {
    && (forall p | p in s.pinned :: p.chain == chain)
    && (forall t | t in s.tasks :: t.row.chain == chain)
    && (!s.closure.Free? ==> s.closure.chain == chain)
  }

  lemma StepKeepsOnlyChain(cfg: Config, s: State, a: Action, chain: int)
    requires OnlyChain(s, chain) && Enabled(cfg, s, a) && TickOf(a, chain) && !a.Purge?
    ensures OnlyChain(Apply(cfg, s, a), chain)
  {
    var s' := Apply(cfg, s, a);
    forall t | t in s'.tasks && t !in s.tasks ensures t.row.chain == chain {
      NewTask(cfg, s, a, t);
    }
    if a.Renew? {
      forall q | q in a.image.Values ensures q.chain == chain {
        var p :| p in a.image && a.image[p] == q;
        assert SameCopy(p, q);
      }
    }
  }

  lemma {:induction false} OneChainIsSparing(cfg: Config, s: State, run: seq<Action>, chain: int)
    requires OnlyChain(s, chain) && Serial(cfg, s, run) && forall a | a in run :: TickOf(a, chain)
    ensures Legal(cfg, s, run) && Sparing(cfg, s, run)
    decreases |run|
  {
    if run != [] {
      StepKeepsOnlyChain(cfg, s, run[0], chain);
      OneChainIsSparing(cfg, Apply(cfg, s, run[0]), run[1..], chain);
      assert forall p | p in s.pinned :: !HeldElsewhere(s.pinned, p);
    }
  }

  /** On one chain a node holds a cid, at every quiescent point, exactly when the ledger has a row saying so. */
  lemma LedgerEqualsReality(cfg: Config, run: seq<Action>, chain: int, node: string, cid: string)
    requires NoDuplicates(cfg.nodes) && Serial(cfg, INITIAL, run) && forall a | a in run :: TickOf(a, chain)
    ensures Legal(cfg, INITIAL, run)
    ensures Quiescent(Exec(cfg, INITIAL, run)) ==>
              var end := Exec(cfg, INITIAL, run);
              (Copy(node, cid) in end.held <==> exists p | p in end.pinned :: p.node == node && p.cid == cid)
  {
    OneChainIsSparing(cfg, INITIAL, run, chain);
    LedgerAgreesIffSparing(cfg, run);
    AgreeingAtEnd(cfg, INITIAL, run);
    var end := Exec(cfg, INITIAL, run);
    assert Copy(node, cid) in Listed(end.pinned) <==> exists p | p in end.pinned :: CopyOf(p) == Copy(node, cid);
  }
}
