/** Concrete and general runs from the empty state: what can happen, beside what must. */
module Witness {
  import opened Tables
  import opened Logs
  import opened Renewal
  import opened Selection
  import opened PinMachine
  import opened Guarantees
  import opened Ledger
  import opened Coverage
  import opened Lives

  ghost predicate RunTo(cfg: Config, run: seq<Action>, s: State) {
    Legal(cfg, INITIAL, run) && Exec(cfg, INITIAL, run) == s
  }

  ghost predicate SerialTo(cfg: Config, run: seq<Action>, s: State) {
    Serial(cfg, INITIAL, run) && RunTo(cfg, run, s)
  }

  ghost predicate OrderlyTo(cfg: Config, run: seq<Action>, s: State) {
    Orderly(cfg, INITIAL, run) && RunTo(cfg, run, s)
  }

  lemma Next(cfg: Config, run: seq<Action>, s: State, a: Action)
    requires RunTo(cfg, run, s) && Enabled(cfg, s, a)
    ensures RunTo(cfg, run + [a], Apply(cfg, s, a))
  {
    ExecSnoc(cfg, INITIAL, run, a);
  }

  lemma {:induction false} SerialSnoc(cfg: Config, s: State, run: seq<Action>, a: Action)
    requires Serial(cfg, s, run) && Legal(cfg, s, run) && SerialStep(cfg, Exec(cfg, s, run), a)
    ensures Serial(cfg, s, run + [a])
    decreases |run|
  {
    if run == [] {
      assert run + [a] == [a];
      assert [a][1..] == [];
    } else {
      SerialSnoc(cfg, Apply(cfg, s, run[0]), run[1..], a);
      assert (run + [a])[1..] == run[1..] + [a];
    }
  }

  lemma SerialNext(cfg: Config, run: seq<Action>, s: State, a: Action)
    requires SerialTo(cfg, run, s) && SerialStep(cfg, s, a)
    ensures SerialTo(cfg, run + [a], Apply(cfg, s, a))
  {
    Next(cfg, run, s, a);
    SerialSnoc(cfg, INITIAL, run, a);
  }

  lemma {:induction false} OrderlySnoc(cfg: Config, s: State, run: seq<Action>, a: Action)
    requires Orderly(cfg, s, run) && Legal(cfg, s, run) && OrderlyStep(cfg, Exec(cfg, s, run), a)
    ensures Orderly(cfg, s, run + [a])
    decreases |run|
  {
    if run == [] {
      assert run + [a] == [a];
      assert [a][1..] == [];
    } else {
      OrderlySnoc(cfg, Apply(cfg, s, run[0]), run[1..], a);
      assert (run + [a])[1..] == run[1..] + [a];
    }
  }

  lemma OrderlyNext(cfg: Config, run: seq<Action>, s: State, a: Action)
    requires OrderlyTo(cfg, run, s) && OrderlyStep(cfg, s, a)
    ensures OrderlyTo(cfg, run + [a], Apply(cfg, s, a))
  {
    Next(cfg, run, s, a);
    OrderlySnoc(cfg, INITIAL, run, a);
  }

  lemma {:induction false} SerialIsOrderly(cfg: Config, s: State, run: seq<Action>)
    requires Serial(cfg, s, run)
    ensures Orderly(cfg, s, run)
    decreases |run|
  {
    if run != [] {
      SerialIsOrderly(cfg, Apply(cfg, s, run[0]), run[1..]);
    }
  }

  // ---- a log becomes rows ------------------------------------------------------------------------

  /** The rows of one cid on those configured nodes that are, or are not, up. */
  function NodeRows(n: NewCid, nodes: seq<string>, chain: int, up: set<string>, reached: bool): set<PinRow> {
    set node | node in nodes && (node in up <==> reached) :: PinRow(chain, node, n.cid, n.end)
  }

  /** The state once every first attempt for n has ended, on the nodes that are up with success. */
  function Attempted(s: State, n: NewCid, nodes: seq<string>, chain: int, up: set<string>): State {
    var rows := NodeRows(n, nodes, chain, up, true);
    s.(tasks := multiset{}, pinned := s.pinned + rows, held := s.held + Listed(rows),
       failed := s.failed + NodeRows(n, nodes, chain, up, false))
  }

  function EndOne(s: State, t: Task, ok: bool): State {
    var rest := s.(tasks := s.tasks - multiset{t});
    if ok then rest.(pinned := s.pinned + {t.row}, held := s.held + {CopyOf(t.row)})
    else rest.(failed := s.failed + {t.row})
  }

  lemma AttemptOne(cfg: Config, before: seq<Action>, s: State, t: Task, ok: bool) returns (run: seq<Action>)
    requires SerialTo(cfg, before, s) && s.closure.Free?
    requires t in s.tasks && t.kind.FirstPin? && t.stage.Request?
    ensures SerialTo(cfg, run, EndOne(s, t, ok))
  {
    var done := t.(stage := if ok then Commit else Report);
    var called := Apply(cfg, s, Call(t, ok, ok));
    SerialNext(cfg, before, s, Call(t, ok, ok));
    SerialNext(cfg, before + [Call(t, ok, ok)], called, Finish(done));
    run := before + [Call(t, ok, ok)] + [Finish(done)];
    assert called.tasks - multiset{done} == s.tasks - multiset{t};
  }

  lemma {:induction false} AttemptAll(cfg: Config, before: seq<Action>, s: State, n: NewCid, nodes: seq<string>,
                                      chain: int, up: set<string>) returns (run: seq<Action>)
    requires SerialTo(cfg, before, s) && s.closure.Free? && s.tasks == multiset(NodeTasks(n, nodes, chain))
    ensures SerialTo(cfg, run, Attempted(s, n, nodes, chain, up))
    decreases |nodes|
  {
    if nodes == [] {
      run := before;
      assert s == Attempted(s, n, nodes, chain, up);
    } else {
      var front, node := nodes[..|nodes| - 1], nodes[|nodes| - 1];
      var t := Task(FirstPin, PinRow(chain, node, n.cid, n.end), Request);
      assert NodeTasks(n, nodes, chain) == NodeTasks(n, front, chain) + [t];
      var next := EndOne(s, t, node in up);
      run := AttemptOne(cfg, before, s, t, node in up);
      assert next.tasks == multiset(NodeTasks(n, front, chain));
      run := AttemptAll(cfg, run, next, n, front, chain, up);
      LastAttempt(s, n, nodes, chain, up, t);
    }
  }

  lemma LastAttempt(s: State, n: NewCid, nodes: seq<string>, chain: int, up: set<string>, t: Task)
    requires nodes != [] && t == Task(FirstPin, PinRow(chain, nodes[|nodes| - 1], n.cid, n.end), Request)
    ensures Attempted(EndOne(s, t, nodes[|nodes| - 1] in up), n, nodes[..|nodes| - 1], chain, up)
            == Attempted(s, n, nodes, chain, up)
  {
    var front, node := nodes[..|nodes| - 1], nodes[|nodes| - 1];
    assert nodes == front + [node];
    assert NodeRows(n, nodes, chain, up, node in up) == NodeRows(n, front, chain, up, node in up) + {t.row};
    assert NodeRows(n, nodes, chain, up, node !in up) == NodeRows(n, front, chain, up, node !in up);
    assert Listed(NodeRows(n, nodes, chain, up, true))
        == Listed(NodeRows(n, front, chain, up, true)) + if node in up then {CopyOf(t.row)} else {};
  }

  /** Nothing is known of the chain yet, and no work or tick is under way. */
  ghost predicate Fresh(s: State, chain: int) {
    && s.closure.Free? && s.tasks == multiset{}
    && (forall e | e in s.events :: e.chain != chain) && (forall r | r in s.pinned :: r.chain != chain)
  }

  /** The state once the chain's first log has been scanned. */
  function Scanning(s: State, p: Provider, l: LogEntry): State {
    s.(scanned := s.scanned + {Scanned(p, l)}, events := s.events + RowsOf([l], p))
  }

  /** A chain's first log is scanned and fanned out ... */
  lemma SelectRound(cfg: Config, before: seq<Action>, s: State, p: Provider, l: LogEntry, bn: int)
    returns (run: seq<Action>)
    requires SerialTo(cfg, before, s) && Fresh(s, p.chain) && p in cfg.providers
    requires Handle(l, p).Accepted? && AsI64(l.endBlock) > bn
    ensures SerialTo(cfg, run, Scanning(s, p, l).(
                       tasks := multiset(NodeTasks(NewCid(l.cid, AsI64(l.endBlock)), cfg.nodes, p.chain))))
  {
    var n := NewCid(l.cid, AsI64(l.endBlock));
    var known := Scanning(s, p, l);
    SerialNext(cfg, before, s, Ingest(p, l));
    var image := map r | r in s.pinned :: r;
    IdentityRenews(known, p.chain, bn, image);
    SerialNext(cfg, before + [Ingest(p, l)], known, Renew(p.chain, bn, image));
    var renewed := known.(closure := Renewed(p.chain, bn));
    FirstSelection(s, p, l, bn);
    SerialNext(cfg, before + [Ingest(p, l)] + [Renew(p.chain, bn, image)], renewed, SelectNew([n]));
    run := before + [Ingest(p, l)] + [Renew(p.chain, bn, image)] + [SelectNew([n])];
    OneFanOut(n, cfg.nodes, p.chain);
  }

  /** ... and tried on every node; any set of nodes may be up. */
  lemma PinRound(cfg: Config, before: seq<Action>, s: State, p: Provider, l: LogEntry, bn: int, up: set<string>)
    returns (run: seq<Action>)
    requires SerialTo(cfg, before, s) && Fresh(s, p.chain) && p in cfg.providers
    requires Handle(l, p).Accepted? && AsI64(l.endBlock) > bn
    ensures SerialTo(cfg, run, Attempted(Scanning(s, p, l), NewCid(l.cid, AsI64(l.endBlock)), cfg.nodes, p.chain, up))
  {
    var n := NewCid(l.cid, AsI64(l.endBlock));
    run := SelectRound(cfg, before, s, p, l, bn);
    var selected := Scanning(s, p, l).(tasks := multiset(NodeTasks(n, cfg.nodes, p.chain)));
    run := AttemptAll(cfg, run, selected, n, cfg.nodes, p.chain, up);
  }

  /** A renewal finds nothing to change on a chain without rows. */
  lemma IdentityRenews(s: State, chain: int, bn: int, image: map<PinRow, PinRow>)
    requires (forall r | r in s.pinned :: r.chain != chain) && image == map r | r in s.pinned :: r
    ensures IsRenewal(image, s.pinned, s.events, chain, bn) && image.Values == s.pinned
  {
    assert forall r | r in s.pinned :: image[r] in image.Values;
    forall r | r in s.pinned ensures RenewsTo(r, image[r], s.events, chain, bn) {
      assert Choices(r, s.events, chain, bn) == {};
    }
  }

  lemma FirstSelection(s: State, p: Provider, l: LogEntry, bn: int)
    requires Fresh(s, p.chain) && Handle(l, p).Accepted? && AsI64(l.endBlock) > bn
    ensures Groups([NewCid(l.cid, AsI64(l.endBlock))],
                   UnpinnedEvents(Scanning(s, p, l).events, s.pinned, p.chain, bn))
  {
    var e := Stored(Handle(l, p).event);
    var events := Scanning(s, p, l).events;
    assert RowsOf([l], p) == {e};
    forall f ensures f in UnpinnedEvents(events, s.pinned, p.chain, bn) <==> f == e {
      UnpinnedEventsSpec(events, s.pinned, p.chain, bn, f);
    }
    OneGroup(e);
  }

  lemma OneGroup(e: EventRow)
    ensures Groups([NewCid(e.cid, e.end)], {e})
  {
    assert NewCid(e.cid, e.end) in [NewCid(e.cid, e.end)];
    assert IsGroupMax(NewCid(e.cid, e.end), {e});
  }

  lemma OneFanOut(n: NewCid, nodes: seq<string>, chain: int)
    ensures FanOut([n], nodes, chain) == NodeTasks(n, nodes, chain)
  {
    assert [n][..0] == [];
  }

  /**
   * The guarantees are not empty: with any nodes, of which any may be up, a log for a configured provider
   * ends as a true ledger row on each node that is up and as a failure on each of the others.
   */
  lemma FreshLogGetsPinned(cfg: Config, p: Provider, l: LogEntry, bn: int, up: set<string>)
    returns (run: seq<Action>)
    requires p in cfg.providers && Handle(l, p).Accepted? && AsI64(l.endBlock) > bn
    ensures Serial(cfg, INITIAL, run) && Legal(cfg, INITIAL, run) && Quiescent(Exec(cfg, INITIAL, run))
    ensures var end, wanted := Exec(cfg, INITIAL, run), NewCid(l.cid, AsI64(l.endBlock));
            forall r :: r in end.pinned + end.failed
                        <==> r.chain == p.chain && r.node in cfg.nodes && NewCid(r.cid, r.end) == wanted
    ensures var end := Exec(cfg, INITIAL, run);
            && (forall r | r in end.pinned :: r.node in up && CopyOf(r) in end.held)
            && (forall r | r in end.failed :: r.node !in up && CopyOf(r) !in end.held)
  {
    assert SerialTo(cfg, [], INITIAL);
    run := PinRound(cfg, [], INITIAL, p, l, bn, up);
    var wanted := NewCid(l.cid, AsI64(l.endBlock));
    AttemptedRows(Scanning(INITIAL, p, l), wanted, cfg.nodes, p.chain, up);
  }

  lemma AttemptedRows(s: State, n: NewCid, nodes: seq<string>, chain: int, up: set<string>)
    requires s.pinned == {} && s.failed == {} && s.held == {}
    ensures var end := Attempted(s, n, nodes, chain, up);
            && (forall r :: r in end.pinned + end.failed
                            <==> r.chain == chain && r.node in nodes && NewCid(r.cid, r.end) == n)
            && (forall r | r in end.pinned :: r.node in up && CopyOf(r) in end.held)
            && (forall r | r in end.failed :: r.node !in up && CopyOf(r) !in end.held)
  {
    var end := Attempted(s, n, nodes, chain, up);
    forall r: PinRow | r.chain == chain && r.node in nodes && NewCid(r.cid, r.end) == n
      ensures r in end.pinned + end.failed
    {
      assert r == PinRow(chain, r.node, n.cid, n.end);
      assert r in if r.node in up then end.pinned else end.failed;
    }
  }

  // ---- a multi-chain delete strands a copy -------------------------------------------------------

  const ON_1 := Provider(1, 7, 0, 10, Some(false))
  const ON_2 := Provider(2, 7, 0, 10, Some(false))
  const TWO_NODES := Config(["n1", "n2"], [ON_1, ON_2])
  const ONE_NODE := Config(["n1"], [ON_1])

  /** A log that wants cid x pinned until the given block. */
  function Until(end: U64): LogEntry {
    LogEntry(5, 0, 96, "aa", end, 7, "x")
  }

  function Row(chain: int, node: string, end: int): PinRow {
    PinRow(chain, node, "x", end)
  }

  function TwoRows(chain: int, end: int): set<PinRow> {
    {Row(chain, "n1", end), Row(chain, "n2", end)}
  }

  /** Chain 1 pins x on both nodes; chain 2, which wants it for longer, reaches only the first. */
  lemma PinnedOnTwoChains() returns (run: seq<Action>, s: State)
    ensures SerialTo(TWO_NODES, run, s) && Quiescent(s) && s.closure.Free?
    ensures s.pinned == TwoRows(1, 10) + {Row(2, "n1", 100)}
    ensures s.held == {Copy("n1", "x"), Copy("n2", "x")}
  {
    var x10, x100 := NewCid("x", 10), NewCid("x", 100);
    var nodes := TWO_NODES.nodes;
    assert SerialTo(TWO_NODES, [], INITIAL);
    run := PinRound(TWO_NODES, [], INITIAL, ON_1, Until(10), 5, {"n1", "n2"});
    var first := Attempted(Scanning(INITIAL, ON_1, Until(10)), x10, nodes, 1, {"n1", "n2"});
    BothUp(x10, 1);
    assert first.pinned == TwoRows(1, 10) && first.held == {Copy("n1", "x"), Copy("n2", "x")};
    assert forall e | e in first.events :: e.chain == 1;
    run := PinRound(TWO_NODES, run, first, ON_2, Until(100), 5, {"n1"});
    s := Attempted(Scanning(first, ON_2, Until(100)), x100, nodes, 2, {"n1"});
    FirstUp(x100, 2);
  }

  lemma BothUp(n: NewCid, chain: int)
    ensures NodeRows(n, TWO_NODES.nodes, chain, {"n1", "n2"}, true)
            == {PinRow(chain, "n1", n.cid, n.end), PinRow(chain, "n2", n.cid, n.end)}
    ensures NodeRows(n, TWO_NODES.nodes, chain, {"n1", "n2"}, false) == {}
    ensures Listed(NodeRows(n, TWO_NODES.nodes, chain, {"n1", "n2"}, true)) == {Copy("n1", n.cid), Copy("n2", n.cid)}
  {
    assert TWO_NODES.nodes[0] == "n1" && TWO_NODES.nodes[1] == "n2";
  }

  lemma FirstUp(n: NewCid, chain: int)
    ensures NodeRows(n, TWO_NODES.nodes, chain, {"n1"}, true) == {PinRow(chain, "n1", n.cid, n.end)}
    ensures NodeRows(n, TWO_NODES.nodes, chain, {"n1"}, false) == {PinRow(chain, "n2", n.cid, n.end)}
    ensures Listed(NodeRows(n, TWO_NODES.nodes, chain, {"n1"}, true)) == {Copy("n1", n.cid)}
  {
    assert TWO_NODES.nodes[0] == "n1" && TWO_NODES.nodes[1] == "n2";
    assert "n1" != "n2" by {
      assert "n1"[1] != "n2"[1];
    }
  }

  /** A serialised run at whose end the second node holds x although no row of the ledger says so. */
  lemma SweepCanStrandACopy() returns (run: seq<Action>)
    ensures Serial(TWO_NODES, INITIAL, run) && Legal(TWO_NODES, INITIAL, run)
    ensures !Sparing(TWO_NODES, INITIAL, run) && !Agreeing(TWO_NODES, INITIAL, run)
    ensures var end := Exec(TWO_NODES, INITIAL, run);
            Quiescent(end) && Copy("n2", "x") in end.held && forall p | p in end.pinned :: p.node != "n2"
  {
    var before, s := PinnedOnTwoChains();
    SerialNext(TWO_NODES, before, s, Sweep(1, 10));
    run := before + [Sweep(1, 10)];
    var end := Exec(TWO_NODES, INITIAL, run);
    DroppedOnChainOne(s.pinned);
    assert "n1"[1] != "n2"[1];
    assert Copy("n2", "x") in end.held && Copy("n2", "x") !in Listed(end.pinned);
    if Agreeing(TWO_NODES, INITIAL, run) {
      AgreeingAtEnd(TWO_NODES, INITIAL, run);
    }
    NodesDiffer();
    LedgerAgreesIffSparing(TWO_NODES, run);
  }

  lemma NodesDiffer()
    ensures NoDuplicates(TWO_NODES.nodes)
  {
    assert "n1"[1] != "n2"[1];
  }

  lemma DroppedOnChainOne(pinned: set<PinRow>)
    requires pinned == TwoRows(1, 10) + {Row(2, "n1", 100)}
    ensures pinned - MultichainExpired(pinned, 1, 10) == {Row(2, "n1", 100)}
  {
    assert Row(2, "n1", 100) in pinned;
    assert forall p | p in TwoRows(1, 10) :: HeldElsewhere(pinned, p);
  }

  // ---- a leftover unpin loses a fresh obligation -------------------------------------------------

  /**
   * Two unpin ticks at head 100 select the same row, the first rm call deletes it, the head falls back to 5
   * and the cid is selected again: the second rm call can then lose the new obligation.
   */
  lemma StaleUnpinLosesPromise() returns (history: seq<Action>, v: seq<NewCid>)
    ensures Legal(ONE_NODE, INITIAL, history)
    ensures FansOut(ONE_NODE, Exec(ONE_NODE, INITIAL, history), v, Row(1, "n1", 50))
    ensures exists run ::
              Loses(ONE_NODE, Apply(ONE_NODE, Exec(ONE_NODE, INITIAL, history), SelectNew(v)), run, Row(1, "n1", 50))
  {
    var cfg, row := ONE_NODE, Row(1, "n1", 50);
    var s: State;
    history, s := UnpinnedTwice();
    Next(cfg, history, s, Call(Task(Unpin, row, Request), true, true));
    var called := Apply(cfg, s, Call(Task(Unpin, row, Request), true, true));
    history := history + [Call(Task(Unpin, row, Request), true, true)];
    Next(cfg, history, called, Finish(Task(Unpin, row, Commit)));
    var deleted := Apply(cfg, called, Finish(Task(Unpin, row, Commit)));
    history := history + [Finish(Task(Unpin, row, Commit))];
    assert deleted.pinned == {};
    IdentityRenews(deleted, 1, 5, map[]);
    Next(cfg, history, deleted, Renew(1, 5, map[]));
    history := history + [Renew(1, 5, map[])];
    v := [NewCid("x", 50)];
    SelectedAgain(Exec(cfg, INITIAL, history), v);
    ReachedInOneLife(cfg, history);
    PromiseLostIff(cfg, Exec(cfg, INITIAL, history), v, row);
  }

  lemma SelectedAgain(s: State, v: seq<NewCid>)
    requires s.events == RowsOf([Until(50)], ON_1) && s.pinned == {} && s.closure == Renewed(1, 5)
    requires v == [NewCid("x", 50)]
    ensures FansOut(ONE_NODE, s, v, Row(1, "n1", 50))
  {
    FirstSelection(INITIAL, ON_1, Until(50), 5);
    assert Scanning(INITIAL, ON_1, Until(50)).events == s.events;
    assert ONE_NODE.nodes[0] == "n1" && v[0] == NewCid("x", 50);
    FanOutSpec(v, ONE_NODE.nodes, 1, Task(FirstPin, Row(1, "n1", 50), Request));
  }

  /** x is pinned until 50, and two unpin ticks at head 100 have each selected its row. */
  lemma UnpinnedTwice() returns (run: seq<Action>, s: State)
    ensures RunTo(ONE_NODE, run, s) && s.closure.Free?
    ensures s.events == RowsOf([Until(50)], ON_1) && s.failed == {} && s.pinned == {Row(1, "n1", 50)}
    ensures s.tasks == multiset{Task(Unpin, Row(1, "n1", 50), Request), Task(Unpin, Row(1, "n1", 50), Request)}
  {
    var row := Row(1, "n1", 50);
    assert SerialTo(ONE_NODE, [], INITIAL);
    run := PinRound(ONE_NODE, [], INITIAL, ON_1, Until(50), 5, {"n1"});
    s := Attempted(Scanning(INITIAL, ON_1, Until(50)), NewCid("x", 50), ONE_NODE.nodes, 1, {"n1"});
    OnlyNodeUp(NewCid("x", 50));
    run := UnpinTick(run, s);
    s := s.(tasks := multiset{Task(Unpin, row, Request)});
    run := UnpinTick(run, s);
    s := s.(tasks := multiset{Task(Unpin, row, Request), Task(Unpin, row, Request)});
  }

  lemma OnlyNodeUp(n: NewCid)
    ensures NodeRows(n, ONE_NODE.nodes, 1, {"n1"}, true) == {PinRow(1, "n1", n.cid, n.end)}
    ensures NodeRows(n, ONE_NODE.nodes, 1, {"n1"}, false) == {}
  {
    assert ONE_NODE.nodes[0] == "n1";
  }

  /** One unpin tick at head 100. */
  lemma UnpinTick(before: seq<Action>, s: State) returns (run: seq<Action>)
    requires RunTo(ONE_NODE, before, s) && s.closure.Free? && s.pinned == {Row(1, "n1", 50)}
    ensures RunTo(ONE_NODE, run, s.(tasks := s.tasks + multiset{Task(Unpin, Row(1, "n1", 50), Request)}))
  {
    var row := Row(1, "n1", 50);
    Next(ONE_NODE, before, s, Sweep(1, 100));
    var swept := s.(closure := Swept(1, 100));
    assert MultichainExpired(s.pinned, 1, 100) == {};
    JoinFiltersNothing(s.pinned, 1, 100);
    assert [row][0] == row;
    Next(ONE_NODE, before + [Sweep(1, 100)], swept, SelectExpired([row]));
    run := before + [Sweep(1, 100)] + [SelectExpired([row])];
    assert ONE_NODE.nodes[0] == "n1" && [row][..0] == [];
    assert UnpinTasks([row], ONE_NODE.nodes) == [Task(Unpin, row, Request)];
  }

  // ---- a stale insert exposes a live cid ---------------------------------------------------------

  /** The two events for cid x. */
  const E50 := Stored(Handle(Until(50), ON_1).event)
  const E200 := Stored(Handle(Until(200), ON_1).event)

  lemma LongerEventSelected()
    ensures Groups([NewCid("x", 200)], UnpinnedEvents({E50, E200}, {}, 1, 100))
    ensures RowsOf([Until(50)], ON_1) == {E50} && RowsOf([Until(200)], ON_1) == {E200}
  {
    forall e ensures e in UnpinnedEvents({E50, E200}, {}, 1, 100) <==> e == E200 {
      UnpinnedEventsSpec({E50, E200}, {}, 1, 100, e);
    }
    OneGroup(E200);
  }

  /** The call of a first attempt until block 50 has succeeded, its insert is still to come. */
  lemma InsertPending() returns (run: seq<Action>, s: State)
    ensures RunTo(ONE_NODE, run, s)
    ensures s.closure.Free? && s.events == {E50} && s.pinned == {} && s.failed == {}
    ensures s.tasks == multiset{Task(FirstPin, Row(1, "n1", 50), Commit)}
  {
    var t := Task(FirstPin, Row(1, "n1", 50), Request);
    var known := Scanning(INITIAL, ON_1, Until(50));
    LongerEventSelected();
    assert RunTo(ONE_NODE, [], INITIAL);
    Next(ONE_NODE, [], INITIAL, Ingest(ON_1, Until(50)));
    IdentityRenews(known, 1, 5, map[]);
    Next(ONE_NODE, [] + [Ingest(ON_1, Until(50))], known, Renew(1, 5, map[]));
    run := [] + [Ingest(ON_1, Until(50))] + [Renew(1, 5, map[])];
    FirstSelection(INITIAL, ON_1, Until(50), 5);
    Next(ONE_NODE, run, known.(closure := Renewed(1, 5)), SelectNew([NewCid("x", 50)]));
    run := run + [SelectNew([NewCid("x", 50)])];
    OneFanOut(NewCid("x", 50), ONE_NODE.nodes, 1);
    assert NodeTasks(NewCid("x", 50), ONE_NODE.nodes, 1) == [t];
    s := known.(tasks := multiset{t});
    Next(ONE_NODE, run, s, Call(t, true, true));
    s, run := Apply(ONE_NODE, s, Call(t, true, true)), run + [Call(t, true, true)];
  }

  /**
   * A renewal at head 100 sees an event until 200, yet the unpin tick at 100 selects the row that a first
   * attempt until 50 inserts in between.
   */
  lemma StaleInsertExposesLiveCid() returns (history: seq<Action>, run: seq<Action>, v: seq<PinRow>)
    ensures Legal(ONE_NODE, INITIAL, history)
    ensures var s, renew := Exec(ONE_NODE, INITIAL, history), Renew(1, 100, map[]);
            && Enabled(ONE_NODE, s, renew) && Legal(ONE_NODE, Apply(ONE_NODE, s, renew), run)
            && Enabled(ONE_NODE, Exec(ONE_NODE, Apply(ONE_NODE, s, renew), run), SelectExpired(v))
            && Exec(ONE_NODE, Apply(ONE_NODE, s, renew), run).closure == Swept(1, 100)
            && E200 in s.events && Row(1, "n1", 50) in v && E200.cid == "x" && E200.end > 100
  {
    var cfg, row := ONE_NODE, Row(1, "n1", 50);
    var s: State;
    history, s := InsertPending();
    Next(cfg, history, s, Ingest(ON_1, Until(200)));
    LongerEventSelected();
    s, history := Apply(cfg, s, Ingest(ON_1, Until(200))), history + [Ingest(ON_1, Until(200))];
    assert s.events == {E50, E200};
    IdentityRenews(s, 1, 100, map[]);
    run, v := StaleInsert(Apply(cfg, s, Renew(1, 100, map[])));
  }

  lemma StaleInsert(s: State) returns (run: seq<Action>, v: seq<PinRow>)
    requires s.closure == Renewed(1, 100) && s.events == {E50, E200} && s.pinned == {}
    requires Task(FirstPin, Row(1, "n1", 50), Commit) in s.tasks
    ensures Legal(ONE_NODE, s, run) && Exec(ONE_NODE, s, run).closure == Swept(1, 100)
    ensures Enabled(ONE_NODE, Exec(ONE_NODE, s, run), SelectExpired(v)) && Row(1, "n1", 50) in v
  {
    var cfg, t := ONE_NODE, Task(FirstPin, Row(1, "n1", 50), Commit);
    LongerEventSelected();
    run := [SelectNew([NewCid("x", 200)])];
    ExecOne(cfg, s, run[0]);
    OtherTasksStay(cfg, s, run[0], t);
    ExecSnoc(cfg, s, run, Finish(t));
    run := run + [Finish(t)];
    ExecSnoc(cfg, s, run, Sweep(1, 100));
    run, v := run + [Sweep(1, 100)], [t.row];
    StaleRowSelected(Exec(cfg, s, run).pinned, v);
  }

  lemma StaleRowSelected(pinned: set<PinRow>, v: seq<PinRow>)
    requires v == [Row(1, "n1", 50)]
    requires pinned == {Row(1, "n1", 50)} - MultichainExpired({Row(1, "n1", 50)}, 1, 100)
    ensures Lists(v, SingleChainExpired(pinned, 1, 100)) && Row(1, "n1", 50) in v
  {
    assert MultichainExpired({Row(1, "n1", 50)}, 1, 100) == {};
    JoinFiltersNothing(pinned, 1, 100);
    assert v[0] == Row(1, "n1", 50);
  }

  // ---- a renewed cid abandons a node -------------------------------------------------------------

  /**
   * x is pinned until 50 on the first node and fails on the second. An event until 200 renews the row, not the
   * failure, and the retry tick at head 100 drops the failure: the second node is abandoned, the event live.
   */
  lemma RenewalAbandonsFailedNode() returns (run: seq<Action>)
    ensures Legal(TWO_NODES, INITIAL, run)
    ensures var end := Exec(TWO_NODES, INITIAL, run);
            && Abandoned(end, Share(1, "n2", "x")) && end.closure == Purged(1, 100)
            && E200 in end.events && Row(1, "n1", 200) in end.pinned
    ensures !Covered(TWO_NODES, INITIAL, run, Share(1, "n2", "x"))
  {
    var cfg, n50 := TWO_NODES, NewCid("x", 50);
    assert SerialTo(cfg, [], INITIAL);
    run := PinRound(cfg, [], INITIAL, ON_1, Until(50), 5, {"n1"});
    var s := Attempted(Scanning(INITIAL, ON_1, Until(50)), n50, cfg.nodes, 1, {"n1"});
    FirstUp(n50, 1);
    LongerEventSelected();
    Next(cfg, run, s, Ingest(ON_1, Until(200)));
    run, s := run + [Ingest(ON_1, Until(200))], Apply(cfg, s, Ingest(ON_1, Until(200)));
    assert s.events == {E50, E200} && s.pinned == {Row(1, "n1", 50)} && s.failed == {Row(1, "n2", 50)};
    run, s := RenewedAndPurged(run, s);
    CoveredAtEnd(cfg, INITIAL, run, Share(1, "n2", "x"));
  }

  lemma RenewedAndPurged(before: seq<Action>, s: State) returns (run: seq<Action>, end: State)
    requires RunTo(TWO_NODES, before, s) && s.closure.Free? && s.tasks == multiset{}
    requires s.events == {E50, E200} && s.pinned == {Row(1, "n1", 50)} && s.failed == {Row(1, "n2", 50)}
    ensures RunTo(TWO_NODES, run, end) && Abandoned(end, Share(1, "n2", "x"))
    ensures end.closure == Purged(1, 100) && end.events == s.events && end.pinned == {Row(1, "n1", 200)}
  {
    var cfg, old50, new200 := TWO_NODES, Row(1, "n1", 50), Row(1, "n1", 200);
    var image := map[old50 := new200];
    assert Choices(old50, s.events, 1, 10) == {200} by {
      assert E200.end in Choices(old50, s.events, 1, 10);
    }
    Next(cfg, before, s, Renew(1, 10, image));
    run, end := before + [Renew(1, 10, image)], Apply(cfg, s, Renew(1, 10, image));
    assert image[old50] in image.Values;
    assert end.pinned == {new200};
    assert UnpinnedEvents(end.events, end.pinned, 1, 10) == {};
    Next(cfg, run, end, SelectNew([]));
    run, end := run + [SelectNew([])], Apply(cfg, end, SelectNew([]));
    Next(cfg, run, end, Purge(1, 100));
    run, end := run + [Purge(1, 100)], Apply(cfg, end, Purge(1, 100));
    assert "n1"[1] != "n2"[1];
    assert new200 in end.pinned;
  }

  // ---- a retry after a longer event --------------------------------------------------------------

  /** x is wanted until 50 and fails. */
  lemma FailedAlone() returns (run: seq<Action>, s: State)
    ensures SerialTo(ONE_NODE, run, s) && s.closure.Free? && s.tasks == multiset{} && s.events == {E50}
    ensures s.pinned == {} && s.failed == {Row(1, "n1", 50)} && s.held == {}
  {
    var cfg, n50 := ONE_NODE, NewCid("x", 50);
    assert SerialTo(cfg, [], INITIAL);
    run := PinRound(cfg, [], INITIAL, ON_1, Until(50), 5, {});
    s := Attempted(Scanning(INITIAL, ON_1, Until(50)), n50, cfg.nodes, 1, {});
    assert cfg.nodes[0] == "n1";
    assert NodeRows(n50, cfg.nodes, 1, {}, true) == {};
    assert NodeRows(n50, cfg.nodes, 1, {}, false) == {Row(1, "n1", 50)};
    LongerEventSelected();
  }

  /** An event until 200 then pins it. */
  lemma FailedThenPinned() returns (run: seq<Action>, s: State)
    ensures OrderlyTo(ONE_NODE, run, s) && s.closure.Free? && s.tasks == multiset{} && s.events == {E50, E200}
    ensures s.pinned == {Row(1, "n1", 200)} && s.failed == {Row(1, "n1", 50)} && s.held == {Copy("n1", "x")}
  {
    var n200 := NewCid("x", 200);
    run, s := FailedAlone();
    run, s := LongerEventArrives(run, s);
    run := AttemptAll(ONE_NODE, run, s, n200, ONE_NODE.nodes, 1, {"n1"});
    OnlyNodeUp(n200);
    SerialIsOrderly(ONE_NODE, INITIAL, run);
    s := Attempted(s, n200, ONE_NODE.nodes, 1, {"n1"});
  }

  lemma LongerEventArrives(before: seq<Action>, s: State) returns (run: seq<Action>, next: State)
    requires SerialTo(ONE_NODE, before, s) && s.closure.Free? && s.tasks == multiset{}
    requires s.events == {E50} && s.pinned == {}
    ensures SerialTo(ONE_NODE, run, next) && next.closure.Free? && next.events == {E50, E200}
    ensures next.tasks == multiset(NodeTasks(NewCid("x", 200), ONE_NODE.nodes, 1))
    ensures next.pinned == {} && next.failed == s.failed && next.held == s.held
  {
    var v, known := [NewCid("x", 200)], Apply(ONE_NODE, s, Ingest(ON_1, Until(200)));
    LongerEventSelected();
    SerialNext(ONE_NODE, before, s, Ingest(ON_1, Until(200)));
    assert known.events == {E50, E200};
    IdentityRenews(known, 1, 100, map[]);
    run := before + [Ingest(ON_1, Until(200))];
    SerialNext(ONE_NODE, run, known, Renew(1, 100, map[]));
    SerialNext(ONE_NODE, run + [Renew(1, 100, map[])], known.(closure := Renewed(1, 100)), SelectNew(v));
    run := run + [Renew(1, 100, map[])] + [SelectNew(v)];
    OneFanOut(v[0], ONE_NODE.nodes, 1);
    next := known.(tasks := multiset(NodeTasks(v[0], ONE_NODE.nodes, 1)));
  }

  /** The failure until 50 is retried at head 10 and gives the copy a second row. */
  lemma RetriedTwin() returns (run: seq<Action>, s: State)
    ensures OrderlyTo(ONE_NODE, run, s) && s.closure.Free? && s.tasks == multiset{} && s.events == {E50, E200}
    ensures s.pinned == {Row(1, "n1", 50), Row(1, "n1", 200)} && s.held == {Copy("n1", "x")}
  {
    var cfg, t := ONE_NODE, Task(RetryPin, Row(1, "n1", 50), Request);
    run, s := FailedThenPinned();
    run, s := FailureSelected(run, s);
    OrderlyNext(cfg, run, s, Call(t, true, true));
    run, s := run + [Call(t, true, true)], Apply(cfg, s, Call(t, true, true));
    OrderlyNext(cfg, run, s, Finish(t.(stage := Commit)));
    run, s := run + [Finish(t.(stage := Commit))], Apply(cfg, s, Finish(t.(stage := Commit)));
  }

  lemma FailureSelected(before: seq<Action>, s: State) returns (run: seq<Action>, next: State)
    requires OrderlyTo(ONE_NODE, before, s) && s.closure.Free? && s.tasks == multiset{}
    requires s.failed == {Row(1, "n1", 50)}
    ensures OrderlyTo(ONE_NODE, run, next)
    ensures next == s.(tasks := multiset{Task(RetryPin, Row(1, "n1", 50), Request)})
  {
    var row := Row(1, "n1", 50);
    OrderlyNext(ONE_NODE, before, s, Purge(1, 10));
    assert s.failed - PurgedFailures(s.failed, 1, 10) == s.failed;
    assert [row][0] == row;
    OrderlyNext(ONE_NODE, before + [Purge(1, 10)], s.(closure := Purged(1, 10)), SelectFailed([row]));
    run, next := before + [Purge(1, 10)] + [SelectFailed([row])], s.(tasks := multiset{Task(RetryPin, row, Request)});
    assert RetryTasks([row]) == [Task(RetryPin, row, Request)];
  }

  /** With two rows of one copy, the pin tick of the chain fails at every head below 200. */
  lemma RetryBlocksRenewal() returns (run: seq<Action>)
    ensures Legal(ONE_NODE, INITIAL, run) && Orderly(ONE_NODE, INITIAL, run) && Quiescent(Exec(ONE_NODE, INITIAL, run))
    ensures forall bn, image | bn < 200 :: !Enabled(ONE_NODE, Exec(ONE_NODE, INITIAL, run), Renew(1, bn, image))
    ensures forall bn | bn < 200 :: Enabled(ONE_NODE, Exec(ONE_NODE, INITIAL, run), RenewFails(1, bn))
  {
    var s: State;
    run, s := RetriedTwin();
    var p, q := Row(1, "n1", 50), Row(1, "n1", 200);
    forall bn: int, image: map<PinRow, PinRow> | bn < 200 ensures !Enabled(ONE_NODE, s, Renew(1, bn, image)) {
      OnlyChoice(bn);
      TwinBlocksRenewal(s.pinned, s.events, 1, bn, p, q, image);
    }
    forall bn: int | bn < 200 ensures Enabled(ONE_NODE, s, RenewFails(1, bn)) {
      OnlyChoice(bn);
      TwinBlocksRenewal(s.pinned, s.events, 1, bn, p, q, map[]);
    }
  }

  lemma OnlyChoice(bn: int)
    requires bn < 200
    ensures Choices(Row(1, "n1", 50), {E50, E200}, 1, bn) == {200}
  {
    assert E200.end in Choices(Row(1, "n1", 50), {E50, E200}, 1, bn);
  }

  /**
   * Even with every tick's work done before the next tick, one retry can cost a live cid its only copy: the
   * unpin tick removes the copy for the shorter row, and the longer row goes on claiming it.
   */
  lemma RetryUnpinsLiveCid() returns (run: seq<Action>)
    ensures Legal(ONE_NODE, INITIAL, run) && Orderly(ONE_NODE, INITIAL, run) && Quiescent(Exec(ONE_NODE, INITIAL, run))
    ensures var end := Exec(ONE_NODE, INITIAL, run);
            end.closure.Free? && end.pinned == {Row(1, "n1", 200)} && end.held == {} && E200 in end.events
  {
    var cfg, row := ONE_NODE, Row(1, "n1", 50);
    var s: State;
    run, s := RetriedTwin();
    run, s := ShorterRowSelected(run, s);
    var t := Task(Unpin, row, Request);
    OrderlyNext(cfg, run, s, Call(t, true, true));
    run, s := run + [Call(t, true, true)], Apply(cfg, s, Call(t, true, true));
    OrderlyNext(cfg, run, s, Finish(t.(stage := Commit)));
    run := run + [Finish(t.(stage := Commit))];
    assert row != Row(1, "n1", 200);
  }

  lemma ShorterRowSelected(before: seq<Action>, s: State) returns (run: seq<Action>, next: State)
    requires OrderlyTo(ONE_NODE, before, s) && s.closure.Free? && s.tasks == multiset{}
    requires s.pinned == {Row(1, "n1", 50), Row(1, "n1", 200)}
    ensures next == s.(tasks := multiset{Task(Unpin, Row(1, "n1", 50), Request)}) && OrderlyTo(ONE_NODE, run, next)
  {
    var cfg, row := ONE_NODE, Row(1, "n1", 50);
    assert MultichainExpired(s.pinned, 1, 100) == {};
    OrderlyNext(cfg, before, s, Sweep(1, 100));
    JoinFiltersNothing(s.pinned, 1, 100);
    assert [row][0] == row && [row][..0] == [] && cfg.nodes[0] == "n1";
    OrderlyNext(cfg, before + [Sweep(1, 100)], s.(closure := Swept(1, 100)), SelectExpired([row]));
    assert UnpinTasks([row], cfg.nodes) == [Task(Unpin, row, Request)];
    run, next := before + [Sweep(1, 100)] + [SelectExpired([row])], s.(tasks := multiset{Task(Unpin, row, Request)});
  }

  // ---- a stop abandons a node --------------------------------------------------------------------

  /**
   * The first node has pinned x and the second has not been called yet when the process stops: the second node
   * is abandoned, with the event still live.
   */
  lemma StopAbandonsNode() returns (run: seq<Action>)
    ensures Legal(TWO_NODES, INITIAL, run) && Orderly(TWO_NODES, INITIAL, run)
    ensures var s := Exec(TWO_NODES, INITIAL, run);
            && InHand(s, Share(1, "n2", "x")) && StopDrops(s, Share(1, "n2", "x"))
            && Abandoned(Stopped(s), Share(1, "n2", "x")) && E50 in s.events
  {
    var cfg, n := TWO_NODES, NewCid("x", 50);
    var t1, t2 := Task(FirstPin, Row(1, "n1", 50), Request), Task(FirstPin, Row(1, "n2", 50), Request);
    var s: State;
    run, s := BothSelected();
    assert t1 in s.tasks && t2 in s.tasks && "n1"[1] != "n2"[1];
    run := AttemptOne(cfg, run, s, t1, true);
    SerialIsOrderly(cfg, INITIAL, run);
    var end := EndOne(s, t1, true);
    assert t2 in end.tasks && end.pinned == {Row(1, "n1", 50)};
    assert Row(1, "n1", 50) in end.pinned;
  }

  lemma BothSelected() returns (run: seq<Action>, s: State)
    ensures SerialTo(TWO_NODES, run, s) && s.closure.Free? && s.pinned == {} && s.failed == {} && s.events == {E50}
    ensures s.tasks == multiset{Task(FirstPin, Row(1, "n1", 50), Request), Task(FirstPin, Row(1, "n2", 50), Request)}
  {
    var cfg, n := TWO_NODES, NewCid("x", 50);
    assert SerialTo(cfg, [], INITIAL);
    run := SelectRound(cfg, [], INITIAL, ON_1, Until(50), 5);
    s := Scanning(INITIAL, ON_1, Until(50)).(tasks := multiset(NodeTasks(n, cfg.nodes, 1)));
    LongerEventSelected();
    assert cfg.nodes[0] == "n1" && cfg.nodes[1] == "n2";
    assert NodeTasks(n, cfg.nodes, 1)
        == [Task(FirstPin, Row(1, "n1", 50), Request), Task(FirstPin, Row(1, "n2", 50), Request)];
  }
}
