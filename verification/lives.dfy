/** What a stop of the process costs: the tables survive it, spawned work does not. */
module Lives {
  import opened Tables
  import opened Renewal
  import opened Selection
  import opened PinMachine
  import opened Guarantees
  import opened Coverage

  /** A stop keeps an obligation exactly if one of the two tables already tells of it. */
  lemma StopKeepsPromiseIff(s: State, o: PinRow)
    ensures Kept(Stopped(s), o) <==> Satisfied(s, o) || o in s.failed
  {
  }

  // ---- shares over several lives -----------------------------------------------------------------

  /** Only first attempts stand for the share, while the chain has a row for the cid. */
  ghost predicate StopDrops(s: State, k: Share) {
    HasRow(s.pinned, k.chain, k.cid) && !RowFor(s.pinned, k) && !RowFor(s.failed, k)
  }

  ghost predicate CoveredInLives(cfg: Config, s: State, lives: seq<seq<Action>>, k: Share)
    requires LegalLives(cfg, s, lives)
    decreases |lives|
  {
    if lives == [] then !Dropped(s, k)
    else Covered(cfg, s, lives[0], k) && CoveredInLives(cfg, Stopped(Exec(cfg, s, lives[0])), lives[1..], k)
  }

  ghost predicate NeverDropsInLives(cfg: Config, s: State, lives: seq<seq<Action>>, k: Share)
    requires LegalLives(cfg, s, lives)
    decreases |lives|
  {
    lives == [] || (&& NeverDrops(cfg, s, lives[0], k) && !StopDrops(Exec(cfg, s, lives[0]), k)
                    && NeverDropsInLives(cfg, Stopped(Exec(cfg, s, lives[0])), lives[1..], k))
  }

  /** Over any number of lives no share of a kept cid is dropped exactly if no step and no stop drops it. */
  lemma {:induction false} CoveredInLivesIff(cfg: Config, s: State, lives: seq<seq<Action>>, k: Share)
    requires LegalLives(cfg, s, lives) && !Dropped(s, k)
    ensures CoveredInLives(cfg, s, lives, k) <==> NeverDropsInLives(cfg, s, lives, k)
    decreases |lives|
  {
    if lives != [] {
      var end := Exec(cfg, s, lives[0]);
      CoveredFrom(cfg, s, lives[0], k);
      if StopDrops(end, k) {
        StartIsCovered(cfg, Stopped(end), lives[1..], k);
      } else {
        CoveredInLivesIff(cfg, Stopped(end), lives[1..], k);
      }
    }
  }

  lemma StartIsCovered(cfg: Config, s: State, lives: seq<seq<Action>>, k: Share)
    requires LegalLives(cfg, s, lives)
    ensures CoveredInLives(cfg, s, lives, k) ==> !Dropped(s, k)
  {
  }

  // ---- what the next life takes up ---------------------------------------------------------------

  /**
   * After a stop, one full pin tick at which the cid is actively wanted puts it back in hand on a configured
   * node, except exactly where the chain has a row for it but this node has neither row nor failure; there
   * the node is abandoned.
   */
  lemma StopThenPinTick(cfg: Config, s: State, bn: int, image: map<PinRow, PinRow>, v: seq<NewCid>,
                        k: Share, n: NewCid)
    requires k.node in cfg.nodes && k.cid == n.cid && IsActiveMax(n, s.events, k.chain, bn)
    requires Enabled(cfg, Stopped(s), Renew(k.chain, bn, image))
    requires Enabled(cfg, Apply(cfg, Stopped(s), Renew(k.chain, bn, image)), SelectNew(v))
    ensures var end := Apply(cfg, Apply(cfg, Stopped(s), Renew(k.chain, bn, image)), SelectNew(v));
            && (InHand(end, k) <==> !StopDrops(s, k))
            && (Abandoned(end, k) <==> StopDrops(s, k))
  {
    var renewed := Apply(cfg, Stopped(s), Renew(k.chain, bn, image));
    RenewKeepsShares(cfg, Stopped(s), Renew(k.chain, bn, image), k);
    RenewKeepsHolders(cfg, Stopped(s), Renew(k.chain, bn, image), k);
    SelectionAfterStop(cfg, renewed, v, k, n);
  }

  lemma SelectionAfterStop(cfg: Config, s: State, v: seq<NewCid>, k: Share, n: NewCid)
    requires s.tasks == multiset{} && Enabled(cfg, s, SelectNew(v)) && s.closure.chain == k.chain
    requires k.node in cfg.nodes && k.cid == n.cid && IsActiveMax(n, s.events, k.chain, s.closure.bn)
    ensures TaskFor(Apply(cfg, s, SelectNew(v)), FirstPin, k) <==> !HasRow(s.pinned, k.chain, k.cid)
    ensures !TaskFor(Apply(cfg, s, SelectNew(v)), RetryPin, k)
  {
    var end := Apply(cfg, s, SelectNew(v));
    assert end.tasks == multiset(FanOut(v, cfg.nodes, k.chain));
    forall t | t in end.tasks && For(t.row, k) ensures t.kind.FirstPin? && !HasRow(s.pinned, k.chain, k.cid) {
      FanOutSpec(v, cfg.nodes, k.chain, t);
      NewCidsSpec(s.events, s.pinned, k.chain, s.closure.bn, v, NewCid(t.row.cid, t.row.end));
    }
    if !HasRow(s.pinned, k.chain, k.cid) {
      var t := Task(FirstPin, PinRow(k.chain, k.node, n.cid, n.end), Request);
      NewCidsSpec(s.events, s.pinned, k.chain, s.closure.bn, v, n);
      FanOutSpec(v, cfg.nodes, k.chain, t);
      assert t in end.tasks;
    }
  }
}
