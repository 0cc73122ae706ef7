/**
 * When the ledger tells the truth, in every interleaving: with retries, lost answers and overlapping ticks.
 */
module Truth {
  import opened Tables
  import opened Renewal
  import opened PinMachine
  import opened Guarantees

  /** The node holds the row's copy, or the row's own delete is all that is left to do. */
  predicate Backed(s: State, p: PinRow) {
    CopyOf(p) in s.held || Task(Unpin, p, Commit) in s.tasks
  }

  ghost predicate RowsBacked(s: State) {
    forall p | p in s.pinned :: Backed(s, p)
  }

  // ---- the steps that make a row false -----------------------------------------------------------

  /** The three steps after which some row claims a copy that its node does not hold. */
  ghost predicate Falsifies(s: State, a: Action) {
    match a
    case Call(t, ok, effect) => t.kind.Unpin? && effect && TakesAnothersCopy(s, t.row, ok)
    case Renew(_, _, image) => RenewsGoneRow(s, image)
    case Finish(t) => !t.kind.Unpin? && t.stage.Commit? && !Backed(s, t.row)
    case _ => false
  }

  /** The node drops a copy for which some row stands that will not be deleted, or whose answer was lost. */
  ghost predicate TakesAnothersCopy(s: State, row: PinRow, ok: bool) {
    exists p | p in s.pinned :: CopyOf(p) == CopyOf(row) && Task(Unpin, p, Commit) !in s.tasks && !(ok && p == row)
  }

  /** A row waiting for its delete is renewed, so that the delete will no longer find it. */
  ghost predicate RenewsGoneRow(s: State, image: map<PinRow, PinRow>) {
    exists p | p in s.pinned && p in image :: CopyOf(p) !in s.held && Task(Unpin, image[p], Commit) !in s.tasks
  }

  lemma FalsifiesIff(cfg: Config, s: State, a: Action)
    requires RowsBacked(s) && Enabled(cfg, s, a)
    ensures RowsBacked(Apply(cfg, s, a)) <==> !Falsifies(s, a)
  {
    match a
    case Call(t, ok, effect) => CallFalsifiesIff(cfg, s, t, ok, effect);
    case Renew(_, _, _) => RenewFalsifiesIff(cfg, s, a);
    case Finish(t) => FinishFalsifiesIff(cfg, s, t);
    case _ => OthersFalsifyNothing(cfg, s, a);
  }

  lemma CallFalsifiesIff(cfg: Config, s: State, t: Task, ok: bool, effect: bool)
    requires RowsBacked(s) && Enabled(cfg, s, Call(t, ok, effect))
    ensures RowsBacked(Apply(cfg, s, Call(t, ok, effect)))
            <==> !(t.kind.Unpin? && effect && TakesAnothersCopy(s, t.row, ok))
  {
    var s' := Apply(cfg, s, Call(t, ok, effect));
    forall p | p in s.pinned
      ensures Backed(s', p) <==> !(t.kind.Unpin? && effect && CopyOf(p) == CopyOf(t.row)
                                   && Task(Unpin, p, Commit) !in s.tasks && !(ok && p == t.row))
    {
      assert Backed(s, p);
      PendingAfterCall(cfg, s, t, ok, effect, p);
    }
  }

  lemma PendingAfterCall(cfg: Config, s: State, t: Task, ok: bool, effect: bool, p: PinRow)
    requires Enabled(cfg, s, Call(t, ok, effect))
    ensures Task(Unpin, p, Commit) in Apply(cfg, s, Call(t, ok, effect)).tasks
            <==> Task(Unpin, p, Commit) in s.tasks || (ok && t.kind.Unpin? && p == t.row)
  {
  }

  lemma RenewFalsifiesIff(cfg: Config, s: State, a: Action)
    requires RowsBacked(s) && a.Renew? && Enabled(cfg, s, a)
    ensures RowsBacked(Apply(cfg, s, a)) <==> !RenewsGoneRow(s, a.image)
  {
    var s' := Apply(cfg, s, a);
    if p :| p in s.pinned && CopyOf(p) !in s.held && Task(Unpin, a.image[p], Commit) !in s.tasks {
      assert a.image[p] in s'.pinned && CopyOf(a.image[p]) == CopyOf(p);
      assert !Backed(s', a.image[p]);
    } else {
      forall q | q in s'.pinned ensures Backed(s', q) {
        var p :| p in s.pinned && a.image[p] == q;
        assert CopyOf(p) == CopyOf(q);
      }
    }
  }

  lemma FinishFalsifiesIff(cfg: Config, s: State, t: Task)
    requires RowsBacked(s) && Enabled(cfg, s, Finish(t))
    ensures RowsBacked(Apply(cfg, s, Finish(t))) <==> !Falsifies(s, Finish(t))
  {
    var s' := Apply(cfg, s, Finish(t));
    forall p | !(t.kind.Unpin? && p == t.row) ensures Backed(s', p) <==> Backed(s, p) {
      assert Task(Unpin, p, Commit) in s'.tasks <==> Task(Unpin, p, Commit) in s.tasks;
    }
    if Falsifies(s, Finish(t)) {
      assert t.row in s'.pinned;
    }
  }

  lemma OthersFalsifyNothing(cfg: Config, s: State, a: Action)
    requires RowsBacked(s) && Enabled(cfg, s, a) && !a.Call? && !a.Renew? && !a.Finish?
    ensures RowsBacked(Apply(cfg, s, a))
  {
    forall p | p in Apply(cfg, s, a).pinned ensures Backed(Apply(cfg, s, a), p) {
      assert Backed(s, p);
    }
  }

  // ---- over whole runs ---------------------------------------------------------------------------

  ghost predicate BackedThroughout(cfg: Config, s: State, run: seq<Action>)
    requires Legal(cfg, s, run)
    decreases |run|
  {
    RowsBacked(s) && (run == [] || BackedThroughout(cfg, Apply(cfg, s, run[0]), run[1..]))
  }

  ghost predicate NeverFalsifies(cfg: Config, s: State, run: seq<Action>)
    requires Legal(cfg, s, run)
    decreases |run|
  {
    run == [] || (!Falsifies(s, run[0]) && NeverFalsifies(cfg, Apply(cfg, s, run[0]), run[1..]))
  }

  /**
   * In every interleaving of all loops, with retries, failing calls and answers that get lost: each row stays
   * backed by its node throughout a run exactly if no step of it is one of those three.
   */
  lemma {:induction false} RowsBackedIff(cfg: Config, s: State, run: seq<Action>)
    requires RowsBacked(s) && Legal(cfg, s, run)
    ensures BackedThroughout(cfg, s, run) <==> NeverFalsifies(cfg, s, run)
    decreases |run|
  {
    if run != [] {
      FalsifiesIff(cfg, s, run[0]);
      if !Falsifies(s, run[0]) {
        RowsBackedIff(cfg, Apply(cfg, s, run[0]), run[1..]);
      }
    }
  }

  /** A stop makes a row false exactly when its copy was gone and only its delete was still to come. */
  lemma StopFalsifiesIff(s: State)
    requires RowsBacked(s)
    ensures RowsBacked(Stopped(s))
            <==> forall p | p in s.pinned && Task(Unpin, p, Commit) in s.tasks :: CopyOf(p) in s.held
  {
    if RowsBacked(Stopped(s)) {
      forall p | p in s.pinned ensures CopyOf(p) in s.held {
        assert Backed(Stopped(s), p);
      }
    } else {
      var p :| p in s.pinned && !Backed(Stopped(s), p);
      assert Backed(s, p);
    }
  }

  // ---- one row per copy --------------------------------------------------------------------------

  /** A pin is recorded beside a row of the same copy with another end block. */
  ghost predicate InsertsTwin(s: State, a: Action) {
    && a.Finish? && !a.task.kind.Unpin? && a.task.stage.Commit?
    && exists p | p in s.pinned :: SameCopy(p, a.task.row) && p != a.task.row
  }

  lemma InsertsTwinIff(cfg: Config, s: State, a: Action)
    requires OneRowPerCopy(s.pinned) && Enabled(cfg, s, a)
    ensures OneRowPerCopy(Apply(cfg, s, a).pinned) <==> !InsertsTwin(s, a)
  {
    if a.Renew? {
      RenewalKeepsKey(s.pinned, s.events, a.chain, a.bn, a.image);
    } else if InsertsTwin(s, a) {
      var p :| p in s.pinned && SameCopy(p, a.task.row) && p != a.task.row;
      assert p in Apply(cfg, s, a).pinned && a.task.row in Apply(cfg, s, a).pinned;
    }
  }

  ghost predicate UniqueThroughout(cfg: Config, s: State, run: seq<Action>)
    requires Legal(cfg, s, run)
    decreases |run|
  {
    OneRowPerCopy(s.pinned) && (run == [] || UniqueThroughout(cfg, Apply(cfg, s, run[0]), run[1..]))
  }

  ghost predicate NeverInsertsTwin(cfg: Config, s: State, run: seq<Action>)
    requires Legal(cfg, s, run)
    decreases |run|
  {
    run == [] || (!InsertsTwin(s, run[0]) && NeverInsertsTwin(cfg, Apply(cfg, s, run[0]), run[1..]))
  }

  /** A copy never has two rows, in any interleaving, exactly if no pin is recorded beside another row of it. */
  lemma {:induction false} OneRowPerCopyIff(cfg: Config, s: State, run: seq<Action>)
    requires OneRowPerCopy(s.pinned) && Legal(cfg, s, run)
    ensures UniqueThroughout(cfg, s, run) <==> NeverInsertsTwin(cfg, s, run)
    decreases |run|
  {
    if run != [] {
      InsertsTwinIff(cfg, s, run[0]);
      if !InsertsTwin(s, run[0]) {
        OneRowPerCopyIff(cfg, Apply(cfg, s, run[0]), run[1..]);
      }
    }
  }

  lemma EventsBehindRows(cfg: Config, s: State)
    requires Provenance(cfg, s)
    ensures FromEvents(s.pinned, s.events)
  {
    forall p | p in s.pinned
      ensures exists e | e in s.events :: e.chain == p.chain && e.cid == p.cid && e.end == p.end
    {
      assert Traced(s, p);
    }
  }

  /** In every reachable state the renewal of a chain can fail at some head exactly if a copy there has two rows. */
  lemma RenewalCanFailIff(cfg: Config, s: State, chain: int)
    requires Reachable(cfg, s)
    ensures (exists bn :: RenewalConflict(s.pinned, s.events, chain, bn))
            <==> exists p, q :: Twins(s.pinned, chain, p, q)
  {
    EverythingTraced(cfg, s);
    EventsBehindRows(cfg, s);
    ConflictAtSomeHeadIff(s.pinned, s.events, chain);
  }

  /** No renewal of any chain can fail, whatever its head. */
  ghost predicate RenewalSafe(s: State) {
    forall chain, bn :: !RenewalConflict(s.pinned, s.events, chain, bn)
  }

  lemma SafeIffUnique(cfg: Config, s: State)
    requires Provenance(cfg, s)
    ensures RenewalSafe(s) <==> OneRowPerCopy(s.pinned)
  {
    EventsBehindRows(cfg, s);
    if OneRowPerCopy(s.pinned) {
      forall chain, bn ensures !RenewalConflict(s.pinned, s.events, chain, bn) {
        RenewalKeepsKey(s.pinned, s.events, chain, bn, map[]);
      }
    } else {
      var p, q :| p in s.pinned && q in s.pinned && SameCopy(p, q) && p != q;
      assert Twins(s.pinned, p.chain, p, q) || Twins(s.pinned, p.chain, q, p);
      ConflictAtSomeHeadIff(s.pinned, s.events, p.chain);
    }
  }

  ghost predicate SafeThroughout(cfg: Config, s: State, run: seq<Action>)
    requires Legal(cfg, s, run)
    decreases |run|
  {
    RenewalSafe(s) && (run == [] || SafeThroughout(cfg, Apply(cfg, s, run[0]), run[1..]))
  }

  /**
   * From a reachable state with one row per copy, and so from empty tables: at no point of a run can a renewal
   * fail, at any head, exactly if no pin is recorded beside another row of its copy.
   */
  lemma RenewalsNeverFailIff(cfg: Config, s: State, run: seq<Action>)
    requires Reachable(cfg, s) && OneRowPerCopy(s.pinned) && Legal(cfg, s, run)
    ensures SafeThroughout(cfg, s, run) <==> NeverInsertsTwin(cfg, s, run)
  {
    EverythingTraced(cfg, s);
    SafeInRun(cfg, s, run);
  }

  lemma {:induction false} SafeInRun(cfg: Config, s: State, run: seq<Action>)
    requires Provenance(cfg, s) && OneRowPerCopy(s.pinned) && Legal(cfg, s, run)
    ensures SafeThroughout(cfg, s, run) <==> NeverInsertsTwin(cfg, s, run)
    decreases |run|
  {
    SafeIffUnique(cfg, s);
    if run != [] {
      InsertsTwinIff(cfg, s, run[0]);
      StepKeepsProvenance(cfg, s, run[0]);
      if InsertsTwin(s, run[0]) {
        SafeIffUnique(cfg, Apply(cfg, s, run[0]));
      } else {
        SafeInRun(cfg, Apply(cfg, s, run[0]), run[1..]);
      }
    }
  }
}
