/** Which nodes still have a stake in a cid that their chain keeps, and which are given up for good. */
module Coverage {
  import opened Tables
  import opened Selection
  import opened PinMachine
  import opened Guarantees

  /** One node's share of a cid wanted on a chain. */
  datatype Share = Share(chain: int, node: string, cid: string)

  predicate For(r: PinRow, k: Share) {
    r.chain == k.chain && r.node == k.node && r.cid == k.cid
  }

  ghost predicate RowFor(rows: set<PinRow>, k: Share) {
    exists r | r in rows :: For(r, k)
  }

  ghost predicate TaskFor(s: State, kind: Kind, k: Share) {
    exists t | t in s.tasks :: t.kind == kind && For(t.row, k)
  }

  /** The node has a row for the cid, or a failure on record, or a first attempt under way. */
  ghost predicate InHand(s: State, k: Share) {
    RowFor(s.pinned, k) || RowFor(s.failed, k) || TaskFor(s, FirstPin, k)
  }

  /** The chain has a row for the cid, but nothing is left of this node's share. */
  ghost predicate Dropped(s: State, k: Share) {
    HasRow(s.pinned, k.chain, k.cid) && !InHand(s, k)
  }

  // ---- the steps that drop a share ---------------------------------------------------------------

  /** What the step finds when it drops the share: the exact state of the tables before it. */
  ghost predicate Drops(s: State, a: Action, k: Share) {
    match a
    case Purge(chain, bn) => chain == k.chain && PurgeDrops(s, bn, k)
    case Sweep(chain, bn) => chain == k.chain && SweepDrops(s, bn, k)
    case Finish(t) =>
      if t.stage.Report? then false
      else if t.kind.Unpin? then UnpinDrops(s, t.row, k)
      else PinDrops(s, t.row, k)
    case _ => false
  }

  /** The last failures on record are past, and only other nodes have rows. */
  ghost predicate PurgeDrops(s: State, bn: int, k: Share) {
    && HasRow(s.pinned, k.chain, k.cid) && !RowFor(s.pinned, k) && !TaskFor(s, FirstPin, k)
    && (forall r | r in s.failed && For(r, k) :: r.end <= bn)
  }

  /** Another chain has the cid; this node's rows are expired, while some other node's row is not. */
  ghost predicate SweepDrops(s: State, bn: int, k: Share) {
    && !RowFor(s.failed, k) && !TaskFor(s, FirstPin, k)
    && (exists p | p in s.pinned :: p.chain != k.chain && p.cid == k.cid)
    && (forall p | p in s.pinned && For(p, k) :: Expired(p, k.chain, bn))
    && (exists p | p in s.pinned :: p.chain == k.chain && p.cid == k.cid && !Expired(p, k.chain, bn))
  }

  /** The node's only row goes, and another node of the chain keeps its own. */
  ghost predicate UnpinDrops(s: State, row: PinRow, k: Share) {
    && !RowFor(s.failed, k) && !TaskFor(s, FirstPin, k)
    && For(row, k) && (forall p | p in s.pinned && For(p, k) :: p == row)
    && (exists p | p in s.pinned :: p.chain == k.chain && p.cid == k.cid && p.node != k.node)
  }

  /** The chain's first row for the cid appears on another node when this one has nothing left. */
  ghost predicate PinDrops(s: State, row: PinRow, k: Share) {
    && row.chain == k.chain && row.cid == k.cid && row.node != k.node
    && !HasRow(s.pinned, k.chain, k.cid) && !InHand(s, k)
  }

  lemma DropsIff(cfg: Config, s: State, a: Action, k: Share)
    requires Enabled(cfg, s, a) && !Dropped(s, k)
    ensures Dropped(Apply(cfg, s, a), k) <==> Drops(s, a, k)
  {
    match a
    case Renew(_, _, image) => RenewDropsNothing(cfg, s, a, k);
    case SelectNew(_) => SelectionDropsNothing(cfg, s, a, k);
    case SelectExpired(_) => SelectionDropsNothing(cfg, s, a, k);
    case SelectFailed(_) => SelectionDropsNothing(cfg, s, a, k);
    case Sweep(_, _) => SweepDropsIff(cfg, s, a, k);
    case Purge(_, _) => PurgeDropsIff(cfg, s, a, k);
    case Call(_, _, _) => CallDropsNothing(cfg, s, a, k);
    case Finish(_) => FinishDropsIff(cfg, s, a, k);
    case _ =>
  }

  lemma RenewDropsNothing(cfg: Config, s: State, a: Action, k: Share)
    requires a.Renew? && Enabled(cfg, s, a)
    ensures Dropped(Apply(cfg, s, a), k) <==> Dropped(s, k)
  {
    RenewKeepsShares(cfg, s, a, k);
    RenewKeepsHolders(cfg, s, a, k);
  }

  lemma RenewKeepsShares(cfg: Config, s: State, a: Action, k: Share)
    requires a.Renew? && Enabled(cfg, s, a)
    ensures RowFor(Apply(cfg, s, a).pinned, k) <==> RowFor(s.pinned, k)
  {
    if r :| r in s.pinned && For(r, k) {
      assert a.image[r] in a.image.Values && For(a.image[r], k);
    }
  }

  lemma RenewKeepsHolders(cfg: Config, s: State, a: Action, k: Share)
    requires a.Renew? && Enabled(cfg, s, a)
    ensures HasRow(Apply(cfg, s, a).pinned, k.chain, k.cid) <==> HasRow(s.pinned, k.chain, k.cid)
  {
    if r :| r in s.pinned && r.chain == k.chain && r.cid == k.cid {
      assert a.image[r] in a.image.Values && SameCopy(r, a.image[r]);
    }
  }

  lemma SelectionDropsNothing(cfg: Config, s: State, a: Action, k: Share)
    requires Enabled(cfg, s, a) && (a.SelectNew? || a.SelectExpired? || a.SelectFailed?) && !Dropped(s, k)
    ensures !Dropped(Apply(cfg, s, a), k)
  {
    if t :| t in s.tasks && t.kind == FirstPin && For(t.row, k) {
      assert t in Apply(cfg, s, a).tasks;
    }
  }

  lemma CallDropsNothing(cfg: Config, s: State, a: Action, k: Share)
    requires a.Call? && Enabled(cfg, s, a) && !Dropped(s, k)
    ensures !Dropped(Apply(cfg, s, a), k)
  {
    if t :| t in s.tasks && t.kind == FirstPin && For(t.row, k) {
      if a.task == t {
        OwnStepMoves(cfg, s, a, t);
      } else {
        OtherTasksStay(cfg, s, a, t);
      }
    }
  }

  lemma PurgeDropsIff(cfg: Config, s: State, a: Action, k: Share)
    requires a.Purge? && Enabled(cfg, s, a) && !Dropped(s, k)
    ensures Dropped(Apply(cfg, s, a), k) <==> Drops(s, a, k)
  {
  }

  lemma SweepDropsIff(cfg: Config, s: State, a: Action, k: Share)
    requires a.Sweep? && Enabled(cfg, s, a) && !Dropped(s, k)
    ensures Dropped(Apply(cfg, s, a), k) <==> Drops(s, a, k)
  {
    if Dropped(Apply(cfg, s, a), k) {
      var r :| r in s.pinned && For(r, k);
      assert r in MultichainExpired(s.pinned, a.chain, a.bn);
    }
  }

  lemma FinishDropsIff(cfg: Config, s: State, a: Action, k: Share)
    requires a.Finish? && Enabled(cfg, s, a) && !Dropped(s, k)
    ensures Dropped(Apply(cfg, s, a), k) <==> Drops(s, a, k)
  {
  }

  // ---- over whole runs ---------------------------------------------------------------------------

  ghost predicate Covered(cfg: Config, s: State, run: seq<Action>, k: Share)
    requires Legal(cfg, s, run)
    decreases |run|
  {
    !Dropped(s, k) && (run == [] || Covered(cfg, Apply(cfg, s, run[0]), run[1..], k))
  }

  ghost predicate NeverDrops(cfg: Config, s: State, run: seq<Action>, k: Share)
    requires Legal(cfg, s, run)
    decreases |run|
  {
    run == [] || (!Drops(s, run[0], k) && NeverDrops(cfg, Apply(cfg, s, run[0]), run[1..], k))
  }

  /** In every run from the start no share of a kept cid is dropped exactly if none of those steps occurs. */
  lemma CoveredIff(cfg: Config, run: seq<Action>, k: Share)
    requires Legal(cfg, INITIAL, run)
    ensures Covered(cfg, INITIAL, run, k) <==> NeverDrops(cfg, INITIAL, run, k)
  {
    CoveredFrom(cfg, INITIAL, run, k);
  }

  lemma {:induction false} CoveredFrom(cfg: Config, s: State, run: seq<Action>, k: Share)
    requires Legal(cfg, s, run) && !Dropped(s, k)
    ensures Covered(cfg, s, run, k) <==> NeverDrops(cfg, s, run, k)
    decreases |run|
  {
    if run != [] {
      DropsIff(cfg, s, run[0], k);
      if !Drops(s, run[0], k) {
        CoveredFrom(cfg, Apply(cfg, s, run[0]), run[1..], k);
      }
    }
  }

  lemma {:induction false} CoveredAtEnd(cfg: Config, s: State, run: seq<Action>, k: Share)
    requires Legal(cfg, s, run)
    ensures Covered(cfg, s, run, k) ==> !Dropped(Exec(cfg, s, run), k)
    decreases |run|
  {
    if run != [] {
      CoveredAtEnd(cfg, Apply(cfg, s, run[0]), run[1..], k);
    }
  }

  // ---- a dropped share is never taken up again ---------------------------------------------------

  /** Dropped, and no retry selected before is still under way. */
  ghost predicate Abandoned(s: State, k: Share) {
    Dropped(s, k) && !TaskFor(s, RetryPin, k)
  }

  lemma AbandonedUntilCidGone(cfg: Config, s: State, a: Action, k: Share)
    requires UnpinDiscipline(s) && Abandoned(s, k) && Enabled(cfg, s, a)
    ensures Abandoned(Apply(cfg, s, a), k) <==> HasRow(Apply(cfg, s, a).pinned, k.chain, k.cid)
  {
    var s' := Apply(cfg, s, a);
    if HasRow(s'.pinned, k.chain, k.cid) {
      forall t | t in s'.tasks && !t.kind.Unpin? ensures !For(t.row, k) {
        NoNewTry(cfg, s, a, k, t);
      }
      NoNewRow(cfg, s, a, k);
    }
  }

  lemma NoNewRow(cfg: Config, s: State, a: Action, k: Share)
    requires UnpinDiscipline(s) && Abandoned(s, k) && Enabled(cfg, s, a)
    ensures !RowFor(Apply(cfg, s, a).pinned, k) && !RowFor(Apply(cfg, s, a).failed, k)
  {
    if a.Renew? {
      RenewKeepsShares(cfg, s, a, k);
    } else if a.Finish? {
      assert For(a.task.row, k) ==> TaskFor(s, a.task.kind, k);
      assert a.task.kind.Unpin? || !For(a.task.row, k);
    }
  }

  lemma NoNewTry(cfg: Config, s: State, a: Action, k: Share, t: Task)
    requires Abandoned(s, k) && Enabled(cfg, s, a) && t in Apply(cfg, s, a).tasks && !t.kind.Unpin?
    ensures !For(t.row, k)
  {
    if t !in s.tasks {
      NewTask(cfg, s, a, t);
      if a.SelectNew? {
        NewCidsSpec(s.events, s.pinned, s.closure.chain, s.closure.bn, a.newCids, NewCid(t.row.cid, t.row.end));
      }
    }
  }

  ghost predicate KeepsCid(cfg: Config, s: State, run: seq<Action>, k: Share)
    requires Legal(cfg, s, run)
    decreases |run|
  {
    && HasRow(s.pinned, k.chain, k.cid)
    && (run == [] || KeepsCid(cfg, Apply(cfg, s, run[0]), run[1..], k))
  }

  ghost predicate StaysAbandoned(cfg: Config, s: State, run: seq<Action>, k: Share)
    requires Legal(cfg, s, run)
    decreases |run|
  {
    Abandoned(s, k) && (run == [] || StaysAbandoned(cfg, Apply(cfg, s, run[0]), run[1..], k))
  }

  /**
   * Whatever the loops do, and whatever events arrive, an abandoned node gets no attempt, no failure and no
   * row for the cid exactly as long as the chain keeps some row for it.
   */
  lemma AbandonedIff(cfg: Config, s: State, run: seq<Action>, k: Share)
    requires Reachable(cfg, s) && Legal(cfg, s, run) && Abandoned(s, k)
    ensures StaysAbandoned(cfg, s, run, k) <==> KeepsCid(cfg, s, run, k)
  {
    ReachableDiscipline(cfg, s);
    AbandonedFrom(cfg, s, run, k);
  }

  lemma {:induction false} AbandonedFrom(cfg: Config, s: State, run: seq<Action>, k: Share)
    requires UnpinDiscipline(s) && Abandoned(s, k) && Legal(cfg, s, run)
    ensures StaysAbandoned(cfg, s, run, k) <==> KeepsCid(cfg, s, run, k)
    decreases |run|
  {
    if run != [] {
      AbandonedUntilCidGone(cfg, s, run[0], k);
      StepKeepsDiscipline(cfg, s, run[0]);
      if HasRow(Apply(cfg, s, run[0]).pinned, k.chain, k.cid) {
        AbandonedFrom(cfg, Apply(cfg, s, run[0]), run[1..], k);
      }
    }
  }
}
