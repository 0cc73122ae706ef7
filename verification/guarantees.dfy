/** What holds in every interleaving: of all chains, their loops, their tasks and the log scanner. */
module Guarantees {
  import opened Tables
  import opened Logs
  import opened Renewal
  import opened Selection
  import opened PinMachine

  // ---- what the history records ------------------------------------------------------------------

  /** After any run, scanned and removed have gained exactly the logs and acknowledged rm calls of its steps. */
  lemma {:induction false} HistoryIsExact(cfg: Config, s: State, run: seq<Action>, l: Scanned, c: Copy)
    requires Legal(cfg, s, run)
    ensures l in Exec(cfg, s, run).scanned <==> l in s.scanned || Ingest(l.provider, l.log) in run
    ensures c in Exec(cfg, s, run).removed <==> c in s.removed || Acknowledged(run, c)
    decreases |run|
  {
    if run != [] {
      var a, rest := run[0], run[1..];
      StepRecordsItself(cfg, s, a, l, c);
      HistoryIsExact(cfg, Apply(cfg, s, a), rest, l, c);
      assert run == [a] + rest;
      AcknowledgedFirst(a, rest, c);
    }
  }

  lemma StepRecordsItself(cfg: Config, s: State, a: Action, l: Scanned, c: Copy)
    requires Enabled(cfg, s, a)
    ensures l in Apply(cfg, s, a).scanned <==> l in s.scanned || a == Ingest(l.provider, l.log)
    ensures c in Apply(cfg, s, a).removed <==> c in s.removed || AcknowledgesRm(a, c)
  {
  }

  predicate AcknowledgesRm(a: Action, c: Copy) {
    a.Call? && a.ok && a.task.kind.Unpin? && CopyOf(a.task.row) == c
  }

  predicate Acknowledged(run: seq<Action>, c: Copy) {
    exists a | a in run :: AcknowledgesRm(a, c)
  }

  lemma AcknowledgedFirst(a: Action, rest: seq<Action>, c: Copy)
    ensures Acknowledged([a] + rest, c) <==> AcknowledgesRm(a, c) || Acknowledged(rest, c)
  {
    assert a in [a] + rest;
    if Acknowledged(rest, c) {
      var b :| b in rest && AcknowledgesRm(b, c);
      assert b in [a] + rest && AcknowledgesRm(b, c);
    }
  }

  // ---- no pin obligation is lost before it expires ---------------------------------------------

  /** An unpin or retry tick of the row's chain whose head is at or past the row's end. */
  predicate ExpiryTick(a: Action, o: PinRow) {
    (a.Sweep? || a.Purge?) && a.chain == o.chain && o.end <= a.bn
  }

  predicate NoExpiryTick(run: seq<Action>, o: PinRow) {
    forall a | a in run :: !ExpiryTick(a, o)
  }

  ghost predicate Satisfied(s: State, o: PinRow) {
    exists p | p in s.pinned :: SameCopy(p, o) && o.end <= p.end
  }

  ghost predicate InFlight(s: State, o: PinRow) {
    exists stage :: Task(FirstPin, o, stage) in s.tasks
  }

  ghost predicate Kept(s: State, o: PinRow) {
    Satisfied(s, o) || o in s.failed || InFlight(s, o)
  }

  /** No unpin work selected so far can delete a row that satisfies o. */
  ghost predicate Unthreatened(s: State, o: PinRow) {
    && (forall t | t in s.tasks && t.kind.Unpin? && SameCopy(t.row, o) :: t.row.end < o.end)
    && !(s.closure.Swept? && s.closure.chain == o.chain && o.end <= s.closure.bn)
  }

  /** This selection fans o out to its node. */
  ghost predicate FansOut(cfg: Config, s: State, v: seq<NewCid>, o: PinRow) {
    && Enabled(cfg, s, SelectNew(v))
    && Task(FirstPin, o, Request) in FanOut(v, cfg.nodes, s.closure.chain)
  }

  lemma StepKeepsPromise(cfg: Config, s: State, a: Action, o: PinRow)
    requires Kept(s, o) && Unthreatened(s, o) && Enabled(cfg, s, a) && !ExpiryTick(a, o)
    ensures Kept(Apply(cfg, s, a), o) && Unthreatened(Apply(cfg, s, a), o)
  {
    StepKeepsUnthreatened(cfg, s, a, o);
    if Satisfied(s, o) {
      StepKeepsSatisfied(cfg, s, a, o);
    } else if o in s.failed {
      StepKeepsFailure(cfg, s, a, o);
    } else {
      var stage :| Task(FirstPin, o, stage) in s.tasks;
      var next := StepMovesFirstAttempt(cfg, s, a, o, stage);
      assert SameCopy(o, o);
    }
  }

  lemma StepKeepsUnthreatened(cfg: Config, s: State, a: Action, o: PinRow)
    requires Unthreatened(s, o) && Enabled(cfg, s, a) && !ExpiryTick(a, o)
    ensures Unthreatened(Apply(cfg, s, a), o)
  {
    forall t | t in Apply(cfg, s, a).tasks && t.kind.Unpin? && SameCopy(t.row, o) ensures t.row.end < o.end {
      if t !in s.tasks {
        NewTask(cfg, s, a, t);
      }
    }
  }

  /** A satisfying row stays or gives way to one of the same copy ending later. */
  lemma StepKeepsSatisfied(cfg: Config, s: State, a: Action, o: PinRow)
    requires Satisfied(s, o) && Unthreatened(s, o) && Enabled(cfg, s, a) && !ExpiryTick(a, o)
    ensures Satisfied(Apply(cfg, s, a), o)
  {
    var p :| p in s.pinned && SameCopy(p, o) && o.end <= p.end;
    assert SameCopy(p, o);
    if a.Renew? {
      var q := a.image[p];
      assert q in Apply(cfg, s, a).pinned;
      assert SameCopy(q, o) && p.end <= q.end;
    } else {
      assert p in Apply(cfg, s, a).pinned;
    }
  }

  lemma StepKeepsFailure(cfg: Config, s: State, a: Action, o: PinRow)
    requires Enabled(cfg, s, a) && o in s.failed
    ensures o in Apply(cfg, s, a).failed <==> !(a.Purge? && ExpiryTick(a, o))
  {
  }

  /** A first attempt stays in flight until it ends in one of the two tables. */
  lemma StepMovesFirstAttempt(cfg: Config, s: State, a: Action, o: PinRow, stage: Stage) returns (next: Stage)
    requires Enabled(cfg, s, a) && Task(FirstPin, o, stage) in s.tasks
    ensures Task(FirstPin, o, next) in Apply(cfg, s, a).tasks || o in Apply(cfg, s, a).pinned + Apply(cfg, s, a).failed
  {
    next := if a.Call? && a.task == Task(FirstPin, o, stage) then if a.ok then Commit else Report else stage;
    if !((a.Call? || a.Finish?) && a.task == Task(FirstPin, o, stage)) {
      OtherTasksStay(cfg, s, a, Task(FirstPin, o, stage));
    } else {
      OwnStepMoves(cfg, s, a, Task(FirstPin, o, stage));
    }
  }

  lemma OwnStepMoves(cfg: Config, s: State, a: Action, t: Task)
    requires Enabled(cfg, s, a) && (a.Call? || a.Finish?) && a.task == t && t.kind.FirstPin?
    ensures a.Call? ==> t.(stage := if a.ok then Commit else Report) in Apply(cfg, s, a).tasks
    ensures a.Finish? ==> t.row in Apply(cfg, s, a).pinned + Apply(cfg, s, a).failed
  {
  }

  lemma {:induction false} RunKeepsPromise(cfg: Config, s: State, run: seq<Action>, o: PinRow)
    requires Kept(s, o) && Unthreatened(s, o) && Legal(cfg, s, run) && NoExpiryTick(run, o)
    ensures Kept(Exec(cfg, s, run), o)
    decreases |run|
  {
    if run != [] {
      StepKeepsPromise(cfg, s, run[0], o);
      RunKeepsPromise(cfg, Apply(cfg, s, run[0]), run[1..], o);
    }
  }

  /**
   * From any state and in every interleaving: what a selection fans out is pinned on its node at least
   * as long, or recorded as failed, or still on a first attempt, until a later unpin or retry tick of the
   * chain uses a head at or past its end. Heads used before the selection do not matter, provided no
   * unpin call for the same copy and an end as late is left over from them.
   */
  lemma NoPromiseLost(cfg: Config, s: State, v: seq<NewCid>, run: seq<Action>, o: PinRow)
    requires FansOut(cfg, s, v, o)
    requires forall t | t in s.tasks && t.kind.Unpin? && SameCopy(t.row, o) :: t.row.end < o.end
    requires Legal(cfg, Apply(cfg, s, SelectNew(v)), run) && NoExpiryTick(run, o)
    ensures Kept(Exec(cfg, Apply(cfg, s, SelectNew(v)), run), o)
  {
    StepKeepsUnthreatened(cfg, s, SelectNew(v), o);
    RunKeepsPromise(cfg, Apply(cfg, s, SelectNew(v)), run, o);
  }

  /** No unpin work of the chain reaches as far as this end. */
  ghost predicate UnpinsBelow(s: State, o: PinRow) {
    && (forall t | t in s.tasks && t.kind.Unpin? && t.row.chain == o.chain :: t.row.end < o.end)
    && !(s.closure.Swept? && s.closure.chain == o.chain && o.end <= s.closure.bn)
  }

  lemma StepKeepsUnpinsBelow(cfg: Config, s: State, a: Action, o: PinRow)
    requires UnpinsBelow(s, o) && Enabled(cfg, s, a) && !ExpiryTick(a, o)
    ensures UnpinsBelow(Apply(cfg, s, a), o)
  {
    forall t | t in Apply(cfg, s, a).tasks && t.kind.Unpin? && t.row.chain == o.chain ensures t.row.end < o.end {
      if t !in s.tasks {
        NewTask(cfg, s, a, t);
      }
    }
  }

  lemma {:induction false} NoExpiryKeepsUnpinsBelow(cfg: Config, s: State, run: seq<Action>, o: PinRow)
    requires UnpinsBelow(s, o) && Legal(cfg, s, run) && NoExpiryTick(run, o)
    ensures UnpinsBelow(Exec(cfg, s, run), o)
    decreases |run|
  {
    if run != [] {
      StepKeepsUnpinsBelow(cfg, s, run[0], o);
      NoExpiryKeepsUnpinsBelow(cfg, Apply(cfg, s, run[0]), run[1..], o);
    }
  }

  /** In particular nothing is lost in a life none of whose ticks, early or late, reached the end. */
  lemma NoPromiseLostBeforeExpiry(cfg: Config, start: State, history: seq<Action>, v: seq<NewCid>,
                                  run: seq<Action>, o: PinRow)
    requires start == Stopped(start) && Legal(cfg, start, history) && NoExpiryTick(history, o)
    requires FansOut(cfg, Exec(cfg, start, history), v, o)
    requires Legal(cfg, Apply(cfg, Exec(cfg, start, history), SelectNew(v)), run) && NoExpiryTick(run, o)
    ensures Kept(Exec(cfg, Apply(cfg, Exec(cfg, start, history), SelectNew(v)), run), o)
  {
    NoExpiryKeepsUnpinsBelow(cfg, start, history, o);
    NoPromiseLost(cfg, Exec(cfg, start, history), v, run, o);
  }

  /** Each retry tick tries every live failure of its chain again; nothing but expiry ends this. */
  lemma LiveFailureIsRetried(cfg: Config, s: State, a: Action, o: PinRow)
    requires Enabled(cfg, s, a) && o in s.failed
    ensures a.SelectFailed? && o.chain == s.closure.chain && o.end > s.closure.bn ==>
              Task(RetryPin, o, Request) in Apply(cfg, s, a).tasks
    ensures o !in Apply(cfg, s, a).failed <==> a.Purge? && a.chain == o.chain && o.end <= a.bn
  {
    if a.SelectFailed? {
      RetryTasksSpec(a.rows, Task(RetryPin, o, Request));
    }
  }

  // ---- provenance ------------------------------------------------------------------------------

  ghost predicate Traced(s: State, r: PinRow) {
    exists e | e in s.events :: e.chain == r.chain && e.cid == r.cid && e.end == r.end
  }

  /** The event is what a configured provider of that chain made of a log meant for it. */
  ghost predicate FromLog(cfg: Config, s: State, e: EventRow) {
    exists c | c in s.scanned :: c.provider in cfg.providers && Describes(e, c.log, c.provider)
  }

  ghost predicate Provenance(cfg: Config, s: State) {
    && (forall e | e in s.events :: FromLog(cfg, s, e))
    && (forall r | r in s.pinned :: Traced(s, r))
    && (forall r | r in s.failed :: Traced(s, r))
    && (forall t | t in s.tasks :: Traced(s, t.row))
  }

  lemma StepKeepsProvenance(cfg: Config, s: State, a: Action)
    requires Provenance(cfg, s) && Enabled(cfg, s, a)
    ensures Provenance(cfg, Apply(cfg, s, a))
  {
    var s' := Apply(cfg, s, a);
    forall e | e in s'.events ensures FromLog(cfg, s', e) {
      StepEventFromLog(cfg, s, a, e);
    }
    forall r | r in s'.pinned ensures Traced(s', r) {
      StepPinnedTraced(cfg, s, a, r);
    }
    forall r | r in s'.failed ensures Traced(s', r) {
      StepFailedTraced(cfg, s, a, r);
    }
    forall t | t in s'.tasks ensures Traced(s', t.row) {
      StepTasksTraced(cfg, s, a, t);
    }
  }

  lemma StepEventFromLog(cfg: Config, s: State, a: Action, e: EventRow)
    requires Provenance(cfg, s) && Enabled(cfg, s, a) && e in Apply(cfg, s, a).events
    ensures FromLog(cfg, Apply(cfg, s, a), e)
  {
    if e in s.events {
      assert FromLog(cfg, s, e);
      assert s.scanned <= Apply(cfg, s, a).scanned;
    } else {
      assert Scanned(a.provider, a.log) in Apply(cfg, s, a).scanned;
    }
  }

  lemma StepKeepsTraced(cfg: Config, s: State, a: Action, r: PinRow)
    requires Enabled(cfg, s, a) && Traced(s, r)
    ensures Traced(Apply(cfg, s, a), r)
  {
    assert s.events <= Apply(cfg, s, a).events;
  }

  lemma StepPinnedTraced(cfg: Config, s: State, a: Action, r: PinRow)
    requires Provenance(cfg, s) && Enabled(cfg, s, a) && r in Apply(cfg, s, a).pinned
    ensures Traced(Apply(cfg, s, a), r)
  {
    if a.Renew? {
      RenewedTraced(s, a.chain, a.bn, a.image, r);
    } else {
      assert r in s.pinned || (a.Finish? && r == a.task.row);
      assert Traced(s, r);
    }
    StepKeepsTraced(cfg, s, a, r);
  }

  lemma RenewedTraced(s: State, chain: int, bn: int, image: map<PinRow, PinRow>, r: PinRow)
    requires (forall p | p in s.pinned :: Traced(s, p)) && IsRenewal(image, s.pinned, s.events, chain, bn)
    requires r in image.Values
    ensures Traced(s, r)
  {
    forall p | p in s.pinned
      ensures exists e | e in s.events :: e.chain == p.chain && e.cid == p.cid && e.end == p.end
    {
      assert Traced(s, p);
    }
    RenewalKeepsProvenance(s.pinned, s.events, chain, bn, image);
  }

  lemma StepFailedTraced(cfg: Config, s: State, a: Action, r: PinRow)
    requires Provenance(cfg, s) && Enabled(cfg, s, a) && r in Apply(cfg, s, a).failed
    ensures Traced(Apply(cfg, s, a), r)
  {
    assert r in s.failed || (a.Finish? && r == a.task.row);
    StepKeepsTraced(cfg, s, a, r);
  }

  lemma NewCidTraced(s: State, v: seq<NewCid>, r: PinRow)
    requires s.closure.Renewed? && r.chain == s.closure.chain
    requires Groups(v, UnpinnedEvents(s.events, s.pinned, s.closure.chain, s.closure.bn))
    requires NewCid(r.cid, r.end) in v
    ensures Traced(s, r)
  {
    NewCidsSpec(s.events, s.pinned, s.closure.chain, s.closure.bn, v, NewCid(r.cid, r.end));
  }

  lemma StepTasksTraced(cfg: Config, s: State, a: Action, t: Task)
    requires Provenance(cfg, s) && Enabled(cfg, s, a) && t in Apply(cfg, s, a).tasks
    ensures Traced(Apply(cfg, s, a), t.row)
  {
    if Traced(s, t.row) {
      StepKeepsTraced(cfg, s, a, t.row);
    } else {
      NewTask(cfg, s, a, t);
      if a.SelectNew? {
        NewCidTraced(s, a.newCids, t.row);
      }
    }
  }

  lemma {:induction false} RunKeepsProvenance(cfg: Config, s: State, run: seq<Action>)
    requires Provenance(cfg, s) && Legal(cfg, s, run)
    ensures Provenance(cfg, Exec(cfg, s, run))
    decreases |run|
  {
    if run != [] {
      StepKeepsProvenance(cfg, s, run[0]);
      RunKeepsProvenance(cfg, Apply(cfg, s, run[0]), run[1..]);
    }
  }

  lemma {:induction false} LivesKeepProvenance(cfg: Config, s: State, lives: seq<seq<Action>>)
    requires Provenance(cfg, s) && LegalLives(cfg, s, lives)
    ensures Provenance(cfg, ExecLives(cfg, s, lives))
    decreases |lives|
  {
    if lives != [] {
      RunKeepsProvenance(cfg, s, lives[0]);
      StopKeepsProvenance(cfg, Exec(cfg, s, lives[0]));
      LivesKeepProvenance(cfg, Stopped(Exec(cfg, s, lives[0])), lives[1..]);
    }
  }

  lemma StopKeepsProvenance(cfg: Config, s: State)
    requires Provenance(cfg, s)
    ensures Provenance(cfg, Stopped(s))
  {
    forall e | e in s.events ensures FromLog(cfg, Stopped(s), e) {
      assert FromLog(cfg, s, e);
    }
    forall r | r in s.pinned + s.failed ensures Traced(Stopped(s), r) {
      assert Traced(s, r);
    }
  }

  /**
   * From empty tables, through any number of lives of the process, every row, failure and task is traceable
   * to an event, and every event to a log meant for this service.
   */
  lemma EverythingTraced(cfg: Config, s: State)
    requires Reachable(cfg, s)
    ensures Provenance(cfg, s)
  {
    var lives, run :| ReachedBy(cfg, lives, run, s);
    assert ReachedBy(cfg, lives, run, s);
    LivesKeepProvenance(cfg, INITIAL, lives);
    RunKeepsProvenance(cfg, ExecLives(cfg, INITIAL, lives), run);
  }

  /** Every event that a scanned log describes for its provider is in the table. */
  ghost predicate Recorded(s: State) {
    forall c, e | c in s.scanned && Describes(e, c.log, c.provider) :: e in s.events
  }

  lemma StepKeepsRecorded(cfg: Config, s: State, a: Action)
    requires Recorded(s) && Enabled(cfg, s, a)
    ensures Recorded(Apply(cfg, s, a))
  {
    forall c, e | c in Apply(cfg, s, a).scanned && Describes(e, c.log, c.provider)
      ensures e in Apply(cfg, s, a).events
    {
      if c !in s.scanned {
        HandleSpec(a.log, a.provider, e);
      }
    }
  }

  lemma {:induction false} RunKeepsRecorded(cfg: Config, s: State, run: seq<Action>)
    requires Recorded(s) && Legal(cfg, s, run)
    ensures Recorded(Exec(cfg, s, run))
    decreases |run|
  {
    if run != [] {
      StepKeepsRecorded(cfg, s, run[0]);
      RunKeepsRecorded(cfg, Apply(cfg, s, run[0]), run[1..]);
    }
  }

  lemma {:induction false} LivesKeepRecorded(cfg: Config, s: State, lives: seq<seq<Action>>)
    requires Recorded(s) && LegalLives(cfg, s, lives)
    ensures Recorded(ExecLives(cfg, s, lives))
    decreases |lives|
  {
    if lives != [] {
      RunKeepsRecorded(cfg, s, lives[0]);
      LivesKeepRecorded(cfg, Stopped(Exec(cfg, s, lives[0])), lives[1..]);
    }
  }

  /** Through any number of lives the event table holds exactly what the scanned logs say to their providers. */
  lemma EventsAreTheLogs(cfg: Config, s: State, e: EventRow)
    requires Reachable(cfg, s)
    ensures e in s.events
            <==> exists c | c in s.scanned :: c.provider in cfg.providers && Describes(e, c.log, c.provider)
  {
    EverythingTraced(cfg, s);
    var lives, run :| ReachedBy(cfg, lives, run, s);
    assert ReachedBy(cfg, lives, run, s);
    LivesKeepRecorded(cfg, INITIAL, lives);
    RunKeepsRecorded(cfg, ExecLives(cfg, INITIAL, lives), run);
    if e in s.events {
      assert FromLog(cfg, s, e);
    }
  }

  // ---- the last holder -------------------------------------------------------------------------

  ghost predicate HasHolder(s: State, cid: string) {
    exists p | p in s.pinned :: p.cid == cid
  }

  /** Unpin work is only ever for expired, non-permanent rows, and deletes only after an acknowledged rm. */
  ghost predicate UnpinDiscipline(s: State) {
    forall t | t in s.tasks && t.kind.Unpin? ::
      t.row.end != PERMANENT && (t.stage.Commit? ==> CopyOf(t.row) in s.removed) && !t.stage.Report?
  }

  lemma StepKeepsDiscipline(cfg: Config, s: State, a: Action)
    requires UnpinDiscipline(s) && Enabled(cfg, s, a)
    ensures UnpinDiscipline(Apply(cfg, s, a))
  {
    var s' := Apply(cfg, s, a);
    assert s.removed <= s'.removed;
    forall t | t in s'.tasks && t.kind.Unpin? && t !in s.tasks
      ensures t.row.end != PERMANENT && (t.stage.Commit? ==> CopyOf(t.row) in s'.removed) && !t.stage.Report?
    {
      NewTask(cfg, s, a, t);
    }
  }

  /** This step deletes the only row left for the cid, after its node acknowledged the rm call. */
  ghost predicate DropsLastHolder(s: State, a: Action, cid: string) {
    && a.Finish? && a.task.kind.Unpin? && a.task.stage.Commit?
    && a.task.row.cid == cid && a.task.row in s.pinned
    && (forall p | p in s.pinned && p.cid == cid :: p == a.task.row)
    && CopyOf(a.task.row) in s.removed
  }

  lemma OtherStepsKeepAHolder(cfg: Config, s: State, a: Action, cid: string)
    requires UnpinDiscipline(s) && Enabled(cfg, s, a) && HasHolder(s, cid) && !DropsLastHolder(s, a, cid)
    ensures HasHolder(Apply(cfg, s, a), cid)
  {
    var p :| p in s.pinned && p.cid == cid;
    if a.Renew? {
      assert a.image[p] in Apply(cfg, s, a).pinned && a.image[p].cid == cid;
    } else if a.Sweep? {
      if p in MultichainExpired(s.pinned, a.chain, a.bn) {
        MultichainKeepsAHolder(s.pinned, a.chain, a.bn, p);
      }
    } else if a.Finish? && a.task.kind.Unpin? {
      assert forall q | q in s.pinned && q != a.task.row :: q in Apply(cfg, s, a).pinned;
    } else {
      assert s.pinned <= Apply(cfg, s, a).pinned;
    }
  }

  lemma {:induction false} RunKeepsDiscipline(cfg: Config, s: State, run: seq<Action>)
    requires UnpinDiscipline(s) && Legal(cfg, s, run)
    ensures UnpinDiscipline(Exec(cfg, s, run))
    decreases |run|
  {
    if run != [] {
      StepKeepsDiscipline(cfg, s, run[0]);
      RunKeepsDiscipline(cfg, Apply(cfg, s, run[0]), run[1..]);
    }
  }

  lemma {:induction false} LivesKeepDiscipline(cfg: Config, s: State, lives: seq<seq<Action>>)
    requires UnpinDiscipline(s) && LegalLives(cfg, s, lives)
    ensures UnpinDiscipline(ExecLives(cfg, s, lives))
    decreases |lives|
  {
    if lives != [] {
      LivesKeepDiscipline(cfg, Stopped(Exec(cfg, s, lives[0])), lives[1..]);
    }
  }

  lemma ReachableDiscipline(cfg: Config, s: State)
    requires Reachable(cfg, s)
    ensures UnpinDiscipline(s)
  {
    var lives, run :| ReachedBy(cfg, lives, run, s);
    assert ReachedBy(cfg, lives, run, s);
    LivesKeepDiscipline(cfg, INITIAL, lives);
    RunKeepsDiscipline(cfg, ExecLives(cfg, INITIAL, lives), run);
  }

  /**
   * Over any number of lives of the process: whenever the ledger loses a cid, some step j of some life i
   * deleted its last row after a successful rm call; no stop does it.
   */
  lemma LastHolderNeverDroppedSilently(cfg: Config, s: State, lives: seq<seq<Action>>, cid: string)
    returns (i: nat, j: nat)
    requires Reachable(cfg, s) && LegalLives(cfg, s, lives)
    requires HasHolder(s, cid) && !HasHolder(ExecLives(cfg, s, lives), cid)
    ensures i < |lives| && j < |lives[i]| && LegalLives(cfg, s, lives[..i])
    ensures Legal(cfg, ExecLives(cfg, s, lives[..i]), lives[i][..j])
    ensures DropsLastHolder(Exec(cfg, ExecLives(cfg, s, lives[..i]), lives[i][..j]), lives[i][j], cid)
  {
    ReachableDiscipline(cfg, s);
    i, j := LastHolderDroppedInLives(cfg, s, lives, cid);
  }

  lemma {:induction false} LastHolderDroppedInLives(cfg: Config, s: State, lives: seq<seq<Action>>, cid: string)
    returns (i: nat, j: nat)
    requires UnpinDiscipline(s) && LegalLives(cfg, s, lives)
    requires HasHolder(s, cid) && !HasHolder(ExecLives(cfg, s, lives), cid)
    ensures i < |lives| && j < |lives[i]| && LegalLives(cfg, s, lives[..i])
    ensures Legal(cfg, ExecLives(cfg, s, lives[..i]), lives[i][..j])
    ensures DropsLastHolder(Exec(cfg, ExecLives(cfg, s, lives[..i]), lives[i][..j]), lives[i][j], cid)
    decreases |lives|
  {
    var end := Exec(cfg, s, lives[0]);
    if HasHolder(end, cid) {
      assert HasHolder(Stopped(end), cid);
      var k;
      k, j := LastHolderDroppedInLives(cfg, Stopped(end), lives[1..], cid);
      LivesFront(cfg, s, lives, k);
      i := k + 1;
    } else {
      assert lives[..0] == [];
      i := 0;
      j := LastHolderDropped(cfg, s, lives[0], cid);
    }
  }

  lemma {:induction false} LastHolderDropped(cfg: Config, s: State, run: seq<Action>, cid: string)
    returns (i: nat)
    requires UnpinDiscipline(s) && Legal(cfg, s, run)
    requires HasHolder(s, cid) && !HasHolder(Exec(cfg, s, run), cid)
    ensures i < |run| && Legal(cfg, s, run[..i])
    ensures DropsLastHolder(Exec(cfg, s, run[..i]), run[i], cid)
    decreases |run|
  {
    if DropsLastHolder(s, run[0], cid) {
      assert run[..0] == [];
      return 0;
    }
    OtherStepsKeepAHolder(cfg, s, run[0], cid);
    StepKeepsDiscipline(cfg, s, run[0]);
    var j := LastHolderDropped(cfg, Apply(cfg, s, run[0]), run[1..], cid);
    ExecFront(cfg, s, run, j);
    i := j + 1;
  }

  // ---- exactly when an obligation can be lost early ----------------------------------------------

  /** An unpin call selected earlier for this very row, not finished. */
  predicate LeftoverUnpin(s: State, o: PinRow) {
    Task(Unpin, o, Request) in s.tasks || Task(Unpin, o, Commit) in s.tasks
  }

  predicate FailureOnRecord(s: State, o: PinRow) {
    o in s.failed || Task(FirstPin, o, Report) in s.tasks
  }

  /** The run loses o although no tick of it reaches its end. */
  ghost predicate Loses(cfg: Config, s: State, run: seq<Action>, o: PinRow) {
    Legal(cfg, s, run) && NoExpiryTick(run, o) && !Kept(Exec(cfg, s, run), o)
  }

  /**
   * In every reachable state: an obligation with a real end block can be lost before a tick reaches that
   * end exactly when an unpin call for the very same row is left over and the node's failure is not on record.
   */
  lemma PromiseLostIff(cfg: Config, s: State, v: seq<NewCid>, o: PinRow)
    requires Reachable(cfg, s) && FansOut(cfg, s, v, o) && o.end > s.closure.bn
    ensures (exists run :: Loses(cfg, Apply(cfg, s, SelectNew(v)), run, o))
            <==> LeftoverUnpin(s, o) && !FailureOnRecord(s, o)
  {
    EverythingTraced(cfg, s);
    ReachableDiscipline(cfg, s);
    if LeftoverUnpin(s, o) && !FailureOnRecord(s, o) {
      var run := LeftoverLoses(cfg, s, v, o);
    } else {
      forall run ensures !Loses(cfg, Apply(cfg, s, SelectNew(v)), run, o) {
        OnlyLeftoverLoses(cfg, s, v, run, o);
      }
    }
  }

  lemma OnlyLeftoverLoses(cfg: Config, s: State, v: seq<NewCid>, run: seq<Action>, o: PinRow)
    requires Provenance(cfg, s) && UnpinDiscipline(s) && FansOut(cfg, s, v, o) && o.end > s.closure.bn
    requires !LeftoverUnpin(s, o) || FailureOnRecord(s, o)
    ensures !Loses(cfg, Apply(cfg, s, SelectNew(v)), run, o)
  {
    var s' := Apply(cfg, s, SelectNew(v));
    if Legal(cfg, s', run) && NoExpiryTick(run, o) {
      if FailureOnRecord(s, o) {
        RunKeepsRecord(cfg, s', run, o);
      } else {
        forall t | t in s.tasks && t.kind.Unpin? && SameCopy(t.row, o) ensures t.row.end < o.end {
          LateUnpinIsLeftover(cfg, s, v, o, t);
        }
        NoPromiseLost(cfg, s, v, run, o);
      }
    }
  }

  /** The selected end is the largest active one, so unpin work reaching it is for the same row. */
  lemma LateUnpinIsLeftover(cfg: Config, s: State, v: seq<NewCid>, o: PinRow, t: Task)
    requires Provenance(cfg, s) && UnpinDiscipline(s) && FansOut(cfg, s, v, o) && o.end > s.closure.bn
    requires t in s.tasks && t.kind.Unpin? && SameCopy(t.row, o)
    ensures t.row.end < o.end || LeftoverUnpin(s, o)
  {
    FanOutSpec(v, cfg.nodes, s.closure.chain, Task(FirstPin, o, Request));
    NewCidsSpec(s.events, s.pinned, s.closure.chain, s.closure.bn, v, NewCid(o.cid, o.end));
    assert Traced(s, t.row);
    if o.end <= t.row.end {
      assert t.row == o;
      assert t == Task(Unpin, o, t.stage);
    }
  }

  lemma {:induction false} RunKeepsRecord(cfg: Config, s: State, run: seq<Action>, o: PinRow)
    requires FailureOnRecord(s, o) && Legal(cfg, s, run) && NoExpiryTick(run, o)
    ensures FailureOnRecord(Exec(cfg, s, run), o)
    decreases |run|
  {
    if run != [] {
      StepKeepsRecord(cfg, s, run[0], o);
      RunKeepsRecord(cfg, Apply(cfg, s, run[0]), run[1..], o);
    }
  }

  lemma StepKeepsRecord(cfg: Config, s: State, a: Action, o: PinRow)
    requires FailureOnRecord(s, o) && Enabled(cfg, s, a) && !ExpiryTick(a, o)
    ensures FailureOnRecord(Apply(cfg, s, a), o)
  {
  }

  /** No row but o for its copy, and nothing that would keep the obligation once the leftover call ends. */
  ghost predicate Losing(s: State, o: PinRow) {
    && s.closure.Free? && LeftoverUnpin(s, o) && !FailureOnRecord(s, o)
    && (forall p | p in s.pinned && SameCopy(p, o) :: p == o)
  }

  /** The losing run: every first attempt for o succeeds, and then the leftover unpin call does. */
  lemma LeftoverLoses(cfg: Config, s: State, v: seq<NewCid>, o: PinRow) returns (run: seq<Action>)
    requires FansOut(cfg, s, v, o) && LeftoverUnpin(s, o) && !FailureOnRecord(s, o)
    ensures Loses(cfg, Apply(cfg, s, SelectNew(v)), run, o)
  {
    var s' := Apply(cfg, s, SelectNew(v));
    SelectionIsLosing(cfg, s, v, o);
    run := FinishFirstAttempts(cfg, s', [], o);
    run := FinishLeftover(cfg, s', run, o);
  }

  lemma FinishLeftover(cfg: Config, s: State, before: seq<Action>, o: PinRow) returns (run: seq<Action>)
    requires Legal(cfg, s, before) && NoExpiryTick(before, o)
    requires Losing(Exec(cfg, s, before), o) && !InFlight(Exec(cfg, s, before), o)
    ensures Loses(cfg, s, run, o)
  {
    run := before;
    var now := Exec(cfg, s, run);
    if Task(Unpin, o, Commit) !in now.tasks {
      LeftoverCalled(cfg, now, o);
      ExecSnoc(cfg, s, run, Call(Task(Unpin, o, Request), true, true));
      run := run + [Call(Task(Unpin, o, Request), true, true)];
      now := Exec(cfg, s, run);
    }
    LeftoverDeletes(cfg, now, o);
    ExecSnoc(cfg, s, run, Finish(Task(Unpin, o, Commit)));
    run := run + [Finish(Task(Unpin, o, Commit))];
  }

  lemma LeftoverCalled(cfg: Config, s: State, o: PinRow)
    requires Losing(s, o) && !InFlight(s, o) && Task(Unpin, o, Commit) !in s.tasks
    ensures Enabled(cfg, s, Call(Task(Unpin, o, Request), true, true))
    ensures var s' := Apply(cfg, s, Call(Task(Unpin, o, Request), true, true));
            Losing(s', o) && !InFlight(s', o) && Task(Unpin, o, Commit) in s'.tasks
  {
  }

  lemma LeftoverDeletes(cfg: Config, s: State, o: PinRow)
    requires Losing(s, o) && !InFlight(s, o) && Task(Unpin, o, Commit) in s.tasks
    ensures Enabled(cfg, s, Finish(Task(Unpin, o, Commit)))
    ensures !Kept(Apply(cfg, s, Finish(Task(Unpin, o, Commit))), o)
  {
  }

  lemma SelectionIsLosing(cfg: Config, s: State, v: seq<NewCid>, o: PinRow)
    requires FansOut(cfg, s, v, o) && LeftoverUnpin(s, o) && !FailureOnRecord(s, o)
    ensures Losing(Apply(cfg, s, SelectNew(v)), o)
  {
    FanOutSpec(v, cfg.nodes, s.closure.chain, Task(FirstPin, o, Request));
    FanOutSpec(v, cfg.nodes, s.closure.chain, Task(FirstPin, o, Report));
    NewCidsSpec(s.events, s.pinned, s.closure.chain, s.closure.bn, v, NewCid(o.cid, o.end));
  }

  lemma {:induction false} FinishFirstAttempts(cfg: Config, s: State, before: seq<Action>, o: PinRow)
    returns (run: seq<Action>)
    requires Legal(cfg, s, before) && NoExpiryTick(before, o) && Losing(Exec(cfg, s, before), o)
    ensures Legal(cfg, s, run) && NoExpiryTick(run, o) && Losing(Exec(cfg, s, run), o)
    ensures !InFlight(Exec(cfg, s, run), o)
    decreases FirstAttemptWork(Exec(cfg, s, before), o)
  {
    var now := Exec(cfg, s, before);
    if !InFlight(now, o) {
      return before;
    }
    var a := FirstAttemptStep(cfg, now, o);
    ExecSnoc(cfg, s, before, a);
    run := FinishFirstAttempts(cfg, s, before + [a], o);
  }

  function FirstAttemptWork(s: State, o: PinRow): nat {
    2 * s.tasks[Task(FirstPin, o, Request)] + s.tasks[Task(FirstPin, o, Commit)]
  }

  lemma FirstAttemptStep(cfg: Config, s: State, o: PinRow) returns (a: Action)
    requires Losing(s, o) && InFlight(s, o)
    ensures Enabled(cfg, s, a) && (a.Call? || a.Finish?)
    ensures Losing(Apply(cfg, s, a), o) && FirstAttemptWork(Apply(cfg, s, a), o) < FirstAttemptWork(s, o)
  {
    var stage :| Task(FirstPin, o, stage) in s.tasks;
    if stage.Request? {
      a := Call(Task(FirstPin, o, Request), true, true);
    } else {
      a := Finish(Task(FirstPin, o, Commit));
    }
  }

  // ---- permanent rows --------------------------------------------------------------------------

  /** This renewal sees an event of the row's chain and cid that is still ahead of its head. */
  ghost predicate RenewsAway(s: State, a: Action, p: PinRow) {
    && a.Renew? && a.chain == p.chain
    && exists e | e in s.events :: e.chain == p.chain && e.cid == p.cid && e.end > a.bn
  }

  /** A permanent row leaves the ledger only by a renewal, exactly when its cid has a live event. */
  lemma PermanentRowLostOnlyByRenewal(cfg: Config, s: State, a: Action, p: PinRow)
    requires UnpinDiscipline(s) && Enabled(cfg, s, a)
    requires p in s.pinned && p.end == PERMANENT && (a.Renew? ==> a.bn >= PERMANENT)
    ensures p !in Apply(cfg, s, a).pinned <==> RenewsAway(s, a, p)
  {
    if a.Renew? {
      PermanentSurvivesRenewal(s.pinned, s.events, a.chain, a.bn, a.image, p);
    }
  }

  ghost predicate StaysPinned(cfg: Config, s: State, run: seq<Action>, p: PinRow)
    requires Legal(cfg, s, run)
    decreases |run|
  {
    p in s.pinned && (run == [] || StaysPinned(cfg, Apply(cfg, s, run[0]), run[1..], p))
  }

  ghost predicate NeverRenewedAway(cfg: Config, s: State, run: seq<Action>, p: PinRow)
    requires Legal(cfg, s, run)
    decreases |run|
  {
    run == [] || (!RenewsAway(s, run[0], p) && NeverRenewedAway(cfg, Apply(cfg, s, run[0]), run[1..], p))
  }

  /** Over runs of any length: a permanent row is for ever exactly as long as no renewal meets a live event. */
  lemma PermanentRowStaysIff(cfg: Config, s: State, run: seq<Action>, p: PinRow)
    requires Reachable(cfg, s) && Legal(cfg, s, run) && p in s.pinned && p.end == PERMANENT
    requires forall a | a in run && a.Renew? :: a.bn >= PERMANENT
    ensures StaysPinned(cfg, s, run, p) <==> NeverRenewedAway(cfg, s, run, p)
  {
    ReachableDiscipline(cfg, s);
    PermanentRowInRun(cfg, s, run, p);
  }

  lemma {:induction false} PermanentRowInRun(cfg: Config, s: State, run: seq<Action>, p: PinRow)
    requires UnpinDiscipline(s) && Legal(cfg, s, run) && p in s.pinned && p.end == PERMANENT
    requires forall a | a in run && a.Renew? :: a.bn >= PERMANENT
    ensures StaysPinned(cfg, s, run, p) <==> NeverRenewedAway(cfg, s, run, p)
    decreases |run|
  {
    if run != [] {
      PermanentRowLostOnlyByRenewal(cfg, s, run[0], p);
      if !RenewsAway(s, run[0], p) {
        StepKeepsDiscipline(cfg, s, run[0]);
        PermanentRowInRun(cfg, Apply(cfg, s, run[0]), run[1..], p);
      }
    }
  }

  // ---- permanent obligations -------------------------------------------------------------------

  /** A permanent obligation has its row, or its failure is on record, or a first attempt is under way. */
  ghost predicate PermanentKept(s: State, o: PinRow) {
    o in s.pinned || o in s.failed || InFlight(s, o)
  }

  /** The renewal takes the permanent row, or the purge the permanent failure, and nothing else is left. */
  ghost predicate Forgets(s: State, a: Action, o: PinRow) {
    && !InFlight(s, o)
    && (o in s.pinned ==> RenewsAway(s, a, o))
    && (o in s.failed ==> a.Purge? && a.chain == o.chain && a.bn >= PERMANENT)
  }

  lemma ForgetsIff(cfg: Config, s: State, a: Action, o: PinRow)
    requires UnpinDiscipline(s) && Enabled(cfg, s, a) && (a.Renew? ==> a.bn >= PERMANENT)
    requires PermanentKept(s, o) && o.end == PERMANENT
    ensures PermanentKept(Apply(cfg, s, a), o) <==> !Forgets(s, a, o)
  {
    if InFlight(s, o) {
      var stage :| Task(FirstPin, o, stage) in s.tasks;
      var next := StepMovesFirstAttempt(cfg, s, a, o, stage);
    } else {
      assert a.Renew? || a.Purge? ==> Apply(cfg, s, a).tasks == s.tasks;
      if o in s.pinned {
        PermanentRowLostOnlyByRenewal(cfg, s, a, o);
      }
      if o in s.failed {
        StepKeepsFailure(cfg, s, a, o);
      }
    }
  }

  ghost predicate PermanentKeptThroughout(cfg: Config, s: State, run: seq<Action>, o: PinRow)
    requires Legal(cfg, s, run)
    decreases |run|
  {
    && PermanentKept(s, o)
    && (run == [] || PermanentKeptThroughout(cfg, Apply(cfg, s, run[0]), run[1..], o))
  }

  ghost predicate NeverForgets(cfg: Config, s: State, run: seq<Action>, o: PinRow)
    requires Legal(cfg, s, run)
    decreases |run|
  {
    run == [] || (!Forgets(s, run[0], o) && NeverForgets(cfg, Apply(cfg, s, run[0]), run[1..], o))
  }

  /**
   * From its fan-out on, a permanent obligation is kept, through every interleaving, exactly until a purge finds
   * only its failure or a renewal that meets a live event finds only its row.
   */
  lemma PermanentPromiseIff(cfg: Config, s: State, v: seq<NewCid>, run: seq<Action>, o: PinRow)
    requires Reachable(cfg, s) && FansOut(cfg, s, v, o) && o.end == PERMANENT
    requires Legal(cfg, Apply(cfg, s, SelectNew(v)), run)
    requires forall a | a in run && a.Renew? :: a.bn >= PERMANENT
    ensures PermanentKeptThroughout(cfg, Apply(cfg, s, SelectNew(v)), run, o)
            <==> NeverForgets(cfg, Apply(cfg, s, SelectNew(v)), run, o)
  {
    ReachableDiscipline(cfg, s);
    StepKeepsDiscipline(cfg, s, SelectNew(v));
    assert Task(FirstPin, o, Request) in Apply(cfg, s, SelectNew(v)).tasks;
    PermanentInRun(cfg, Apply(cfg, s, SelectNew(v)), run, o);
  }

  lemma {:induction false} PermanentInRun(cfg: Config, s: State, run: seq<Action>, o: PinRow)
    requires UnpinDiscipline(s) && Legal(cfg, s, run) && PermanentKept(s, o) && o.end == PERMANENT
    requires forall a | a in run && a.Renew? :: a.bn >= PERMANENT
    ensures PermanentKeptThroughout(cfg, s, run, o) <==> NeverForgets(cfg, s, run, o)
    decreases |run|
  {
    if run != [] {
      ForgetsIff(cfg, s, run[0], o);
      if !Forgets(s, run[0], o) {
        StepKeepsDiscipline(cfg, s, run[0]);
        PermanentInRun(cfg, Apply(cfg, s, run[0]), run[1..], o);
      }
    }
  }

  // ---- permanent failures ----------------------------------------------------------------------

  ghost predicate PermanentNotRetried(s: State) {
    && (forall t | t in s.tasks && t.kind.RetryPin? :: t.row.end != PERMANENT)
    && (s.closure.Purged? ==> s.closure.bn >= PERMANENT)
  }

  lemma StepRetriesNoPermanent(cfg: Config, s: State, a: Action)
    requires PermanentNotRetried(s) && Enabled(cfg, s, a) && (a.Purge? ==> a.bn >= PERMANENT)
    ensures PermanentNotRetried(Apply(cfg, s, a))
  {
    forall t | t in Apply(cfg, s, a).tasks && t.kind.RetryPin? ensures t.row.end != PERMANENT {
      if t !in s.tasks {
        NewTask(cfg, s, a, t);
      }
    }
  }

  lemma {:induction false} RunRetriesNoPermanent(cfg: Config, s: State, run: seq<Action>)
    requires PermanentNotRetried(s) && Legal(cfg, s, run)
    requires forall a | a in run && a.Purge? :: a.bn >= PERMANENT
    ensures PermanentNotRetried(Exec(cfg, s, run))
    decreases |run|
  {
    if run != [] {
      StepRetriesNoPermanent(cfg, s, run[0]);
      RunRetriesNoPermanent(cfg, Apply(cfg, s, run[0]), run[1..]);
    }
  }

  /**
   * Though the pin loop asked for it for ever, a permanent pin that fails is never tried again: no retry
   * task of any life has the permanent mark, and each purge of its chain drops the failure.
   */
  lemma PermanentFailureForgotten(cfg: Config, start: State, run: seq<Action>, o: PinRow)
    requires start == Stopped(start) && Legal(cfg, start, run) && o.end == PERMANENT
    requires forall a | a in run && a.Purge? :: a.bn >= PERMANENT
    ensures var s := Exec(cfg, start, run);
            && (forall t | t in s.tasks && t.row == o :: !t.kind.RetryPin?)
            && (s.closure.Purged? && s.closure.chain == o.chain ==>
                  forall v | Enabled(cfg, s, SelectFailed(v)) :: o !in v)
  {
    RunRetriesNoPermanent(cfg, start, run);
  }

  // ---- renewal against the unpin loop ----------------------------------------------------------

  /**
   * A first attempt or retry for an end block already past, finishing on this chain for a cid that one of
   * the events wants for longer.
   */
  ghost predicate Exposes(a: Action, events: set<EventRow>, chain: int, bn: int) {
    && a.Finish? && !a.task.kind.Unpin? && a.task.stage.Commit?
    && a.task.row.chain == chain && a.task.row.end <= bn
    && exists e | e in events :: e.chain == chain && e.cid == a.task.row.cid && e.end > bn
  }

  /** The exact step that ends the protection of live cids. */
  lemma StepKeepsProtection(cfg: Config, s: State, a: Action, events: set<EventRow>, chain: int, bn: int)
    requires LiveProtected(s.pinned, events, chain, bn) && Enabled(cfg, s, a)
    ensures LiveProtected(Apply(cfg, s, a).pinned, events, chain, bn) <==> !Exposes(a, events, chain, bn)
  {
    var s' := Apply(cfg, s, a);
    if Exposes(a, events, chain, bn) {
      assert a.task.row in s'.pinned;
    } else {
      forall q, e | q in s'.pinned && e in events && e.chain == chain && e.cid == q.cid && e.end > bn
                    && q.chain == chain
        ensures q.end > bn
      {
        if a.Renew? {
          var p :| p in a.image && a.image[p] == q;
          assert SameCopy(p, q) && p.end <= q.end;
        }
      }
    }
  }

  ghost predicate ProtectedThroughout(cfg: Config, s: State, run: seq<Action>,
                                      events: set<EventRow>, chain: int, bn: int)
    requires Legal(cfg, s, run)
    decreases |run|
  {
    && LiveProtected(s.pinned, events, chain, bn)
    && (run == [] || ProtectedThroughout(cfg, Apply(cfg, s, run[0]), run[1..], events, chain, bn))
  }

  /** Once protected, cids with a live event stay so in a run of any loops exactly if no step exposes one. */
  lemma {:induction false} RenewalProtects(cfg: Config, s: State, run: seq<Action>,
                                           events: set<EventRow>, chain: int, bn: int)
    requires LiveProtected(s.pinned, events, chain, bn) && Legal(cfg, s, run)
    ensures ProtectedThroughout(cfg, s, run, events, chain, bn)
            <==> forall a | a in run :: !Exposes(a, events, chain, bn)
    ensures ProtectedThroughout(cfg, s, run, events, chain, bn) ==>
              LiveProtected(Exec(cfg, s, run).pinned, events, chain, bn)
    decreases |run|
  {
    if run != [] {
      StepKeepsProtection(cfg, s, run[0], events, chain, bn);
      assert run == [run[0]] + run[1..];
      if !Exposes(run[0], events, chain, bn) {
        RenewalProtects(cfg, Apply(cfg, s, run[0]), run[1..], events, chain, bn);
      } else {
        assert run[0] in run;
      }
    }
  }

  /**
   * From a renewal to an unpin tick at the same head, through any further steps of any loop none of which
   * exposes a live cid, no row is selected whose cid had a live event at the renewal.
   */
  lemma RenewThenUnpin(cfg: Config, s: State, renew: Action, run: seq<Action>, v: seq<PinRow>)
    requires renew.Renew? && Enabled(cfg, s, renew) && Legal(cfg, Apply(cfg, s, renew), run)
    requires forall a | a in run :: !Exposes(a, s.events, renew.chain, renew.bn)
    requires var end := Exec(cfg, Apply(cfg, s, renew), run);
             Enabled(cfg, end, SelectExpired(v)) && end.closure == Swept(renew.chain, renew.bn)
    ensures forall p, e | p in v && e in s.events && e.chain == renew.chain && e.cid == p.cid :: e.end <= renew.bn
  {
    RenewalProtectsLive(s.pinned, s.events, renew.chain, renew.bn, renew.image);
    RenewalProtects(cfg, Apply(cfg, s, renew), run, s.events, renew.chain, renew.bn);
    JoinFiltersNothing(Exec(cfg, Apply(cfg, s, renew), run).pinned, renew.chain, renew.bn);
  }

  // ---- new-CID selection over runs -------------------------------------------------------------

  /** A cid is fanned out on a chain exactly when it is actively wanted there and has no row there. */
  lemma SelectedIffUnpinned(cfg: Config, s: State, a: Action, node: string, n: NewCid)
    requires Enabled(cfg, s, a) && a.SelectNew? && node in cfg.nodes
    ensures Task(FirstPin, PinRow(s.closure.chain, node, n.cid, n.end), Request) in Apply(cfg, s, a).tasks - s.tasks
            <==> !HasRow(s.pinned, s.closure.chain, n.cid) && IsActiveMax(n, s.events, s.closure.chain, s.closure.bn)
  {
    var t := Task(FirstPin, PinRow(s.closure.chain, node, n.cid, n.end), Request);
    NewCidsSpec(s.events, s.pinned, s.closure.chain, s.closure.bn, a.newCids, n);
    FanOutSpec(a.newCids, cfg.nodes, s.closure.chain, t);
    assert Apply(cfg, s, a).tasks - s.tasks == multiset(FanOut(a.newCids, cfg.nodes, s.closure.chain));
  }
}
