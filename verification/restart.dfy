/** Crash safety of the event scan: lives that stop anywhere and resume from the table's own maximum. */
module Restart {
  import opened Tables
  import opened Logs
  import opened Scanner

  /** One life of the process: what its loop observes, and how many handler calls it completes. */
  datatype Life = Life(turns: seq<Turn>, handled: nat)

  function FedIn(p: Provider, chain: seq<LogEntry>, events: set<EventRow>, turns: seq<Turn>): seq<LogEntry> {
    Feed(chain, Scan(p, Resume(events, p), turns).attempts)
  }

  /** The event table when the life ends, between windows or in the middle of one. */
  function AfterLife(p: Provider, chain: seq<LogEntry>, events: set<EventRow>, life: Life): set<EventRow> {
    var fed := FedIn(p, chain, events, life.turns);
    events + RowsOf(if life.handled < |fed| then fed[..life.handled] else fed, p)
  }

  function AfterLives(p: Provider, chain: seq<LogEntry>, events: set<EventRow>, lives: seq<Life>): set<EventRow> {
    if lives == [] then events
    else AfterLife(p, chain, AfterLives(p, chain, events, lives[..|lives| - 1]), lives[|lives| - 1])
  }

  /** The rows of all matching logs with from <= block <= to. */
  function Expected(p: Provider, chain: seq<LogEntry>, from: int, to: int): set<EventRow> {
    RowsOf(Fetch(chain, from, to), p)
  }

  function OwnRows(events: set<EventRow>, p: Provider): set<EventRow> {
    set e | e in events && e.chain == p.chain
  }

  ghost predicate Ascending(logs: seq<LogEntry>) {
    forall i, j | 0 <= i < j < |logs| :: logs[i].block <= logs[j].block
  }

  predicate ScansForward(p: Provider) {
    0 <= p.startBlock && 0 < p.batchSize && !SkipsOld(p)
  }

  /** What every crash leaves: only expected rows, and all of them strictly below the resume block. */
  ghost predicate Resumable(p: Provider, chain: seq<LogEntry>, events: set<EventRow>) {
    && Resume(events, p) < TWO_TO_THE_63
    && OwnRows(events, p) <= Expected(p, chain, p.startBlock as int, Resume(events, p))
    && Expected(p, chain, p.startBlock as int, Resume(events, p) - 1) <= events
  }

  lemma ExpectedSpec(p: Provider, chain: seq<LogEntry>, from: int, to: int, row: EventRow)
    requires to < TWO_TO_THE_63
    ensures row in Expected(p, chain, from, to)
            <==> from <= row.updateBlock <= to && HasLog(p, chain, row)
  {
    if row in Expected(p, chain, from, to) {
      var l :| l in Fetch(chain, from, to) && Yields(l, p, row);
      assert Yields(l, p, row);
      FetchSpec(chain, from, to, l);
      RowBlock(l, p);
    }
    if from <= row.updateBlock <= to && HasLog(p, chain, row) {
      var l := LogOf(p, chain, row);
      FetchSpec(chain, from, to, l);
    }
  }

  ghost predicate HasLog(p: Provider, chain: seq<LogEntry>, row: EventRow) {
    exists l | l in chain :: l.block == row.updateBlock && Yields(l, p, row)
  }

  lemma LogOf(p: Provider, chain: seq<LogEntry>, row: EventRow) returns (l: LogEntry)
    requires HasLog(p, chain, row)
    ensures l in chain && l.block == row.updateBlock && Yields(l, p, row)
  {
    l :| l in chain && l.block == row.updateBlock && Yields(l, p, row);
    assert Yields(l, p, row);
  }

  predicate Yields(l: LogEntry, p: Provider, row: EventRow) {
    Handle(l, p).Accepted? && Stored(Handle(l, p).event) == row
  }

  lemma {:induction false} FetchAscending(chain: seq<LogEntry>, from: int, to: int)
    requires Ascending(chain)
    ensures Ascending(Fetch(chain, from, to))
    ensures forall l | l in Fetch(chain, from, to) :: from <= l.block <= to
  {
    if chain != [] {
      var front, l := chain[..|chain| - 1], chain[|chain| - 1];
      FetchAscending(front, from, to);
      forall m | m in Fetch(front, from, to) ensures m.block <= l.block {
        FetchSpec(front, from, to, m);
      }
    }
  }

  lemma {:induction false} WithoutAscending(logs: seq<LogEntry>, lost: set<LogEntry>)
    requires Ascending(logs)
    ensures Ascending(Without(logs, lost))
    ensures forall l | l in Without(logs, lost) :: l in logs
  {
    if logs != [] {
      var front, l := logs[..|logs| - 1], logs[|logs| - 1];
      WithoutAscending(front, lost);
      forall m | m in Without(front, lost) ensures m in logs && m.block <= l.block {
        var i :| 0 <= i < |front| && front[i] == m;
        assert logs[i] == m;
      }
    }
  }

  lemma WindowFeedAscending(chain: seq<LogEntry>, a: Attempt)
    requires Ascending(chain)
    ensures Ascending(WindowFeed(chain, a))
    ensures forall l | l in WindowFeed(chain, a) :: a.from <= l.block <= a.to
  {
    FetchAscending(chain, a.from, a.to);
    WithoutAscending(Fetch(chain, a.from, a.to), a.lost);
  }

  /** Inclusive windows repeat their borders, yet the handler sees blocks in ascending order. */
  lemma {:induction false} FeedAscending(p: Provider, chain: seq<LogEntry>, start: int, turns: seq<Turn>)
    requires Ascending(chain) && 0 < p.batchSize
    ensures Ascending(Feed(chain, Scan(p, start, turns).attempts))
    ensures forall l | l in Feed(chain, Scan(p, start, turns).attempts) :: l.block <= Scan(p, start, turns).cursor
  {
    if turns != [] {
      var before := Scan(p, start, turns[..|turns| - 1]);
      var after := Scan(p, start, turns);
      FeedAscending(p, chain, start, turns[..|turns| - 1]);
      WindowsTile(p, start, turns);
      if after.attempts != before.attempts {
        var a := after.attempts[|after.attempts| - 1];
        assert after.attempts[..|after.attempts| - 1] == before.attempts;
        WindowFeedAscending(chain, a);
      }
    }
  }

  /** Any cut of an ascending feed holds every log of a block below one it reached. */
  lemma CutIsComplete(p: Provider, chain: seq<LogEntry>, start: int, turns: seq<Turn>, cut: nat, j: nat, l: LogEntry)
    requires ScansForward(p) && Ascending(chain) && NoFailure(turns)
    requires var fed := Feed(chain, Scan(p, start, turns).attempts); j < cut <= |fed| && l.block < fed[j].block
    requires l in chain && start <= l.block
    ensures l in Feed(chain, Scan(p, start, turns).attempts)[..cut]
  {
    var fed := Feed(chain, Scan(p, start, turns).attempts);
    FeedAscending(p, chain, start, turns);
    assert fed[j] in fed;
    AllFedWithin(p, chain, start, turns, l);
    CutHolds(fed, cut, j, l);
  }

  lemma CutHolds(fed: seq<LogEntry>, cut: nat, j: nat, l: LogEntry)
    requires Ascending(fed) && j < cut <= |fed| && l in fed && l.block < fed[j].block
    ensures l in fed[..cut]
  {
    var i :| 0 <= i < |fed| && fed[i] == l;
    assert i < j;
    assert fed[..cut][i] == l;
  }

  lemma AllFedWithin(p: Provider, chain: seq<LogEntry>, start: int, turns: seq<Turn>, l: LogEntry)
    requires ScansForward(p) && NoFailure(turns)
    requires l in chain && start <= l.block <= Scan(p, start, turns).cursor
    requires Scan(p, start, turns).attempts != []
    ensures l in Feed(chain, Scan(p, start, turns).attempts)
  {
    FedIffInRange(p, chain, start, turns, l);
  }

  /** The rows a life adds lie between its resume block and its cursor. */
  lemma LifeRows(p: Provider, chain: seq<LogEntry>, events: set<EventRow>, life: Life, row: EventRow)
    requires ScansForward(p) && Resume(events, p) < TWO_TO_THE_63
    requires row in AfterLife(p, chain, events, life) && row !in events
    ensures row.chain == p.chain
    ensures Resume(events, p) <= row.updateBlock <= Scan(p, Resume(events, p), life.turns).cursor < TWO_TO_THE_63
    ensures HasLog(p, chain, row)
  {
    var fed := FedIn(p, chain, events, life.turns);
    assert row in RowsOf(fed, p) by {
      assert fed[..|fed|] == fed;
    }
    var l :| l in fed && Handle(l, p).Accepted? && Stored(Handle(l, p).event) == row;
    assert Yields(l, p, row);
    FedBlockBound(p, chain, Resume(events, p), life.turns, l);
    RowBlock(l, p);
  }

  /** A resumable table stays resumable through a life that ends anywhere. */
  lemma LifeKeepsResumable(p: Provider, chain: seq<LogEntry>, events: set<EventRow>, life: Life)
    requires ScansForward(p) && Ascending(chain) && NoFailure(life.turns)
    requires Resumable(p, chain, events)
    ensures Resumable(p, chain, AfterLife(p, chain, events, life))
    ensures Resume(events, p) <= Resume(AfterLife(p, chain, events, life), p)
  {
    ResumeGrows(p, chain, events, life);
    LifeAddsOnlyExpected(p, chain, events, life);
    LifePassesNothing(p, chain, events, life);
  }

  lemma LifeAddsOnlyExpected(p: Provider, chain: seq<LogEntry>, events: set<EventRow>, life: Life)
    requires ScansForward(p) && Resumable(p, chain, events)
    ensures var after := AfterLife(p, chain, events, life);
            OwnRows(after, p) <= Expected(p, chain, p.startBlock as int, Resume(after, p))
  {
    var after := AfterLife(p, chain, events, life);
    var start, r, r2 := p.startBlock as int, Resume(events, p), Resume(after, p);
    ResumeGrows(p, chain, events, life);
    forall row | row in OwnRows(after, p) ensures row in Expected(p, chain, start, r2) {
      if row in events {
        assert row in OwnRows(events, p);
        ExpectedSpec(p, chain, start, r, row);
      } else {
        LifeRows(p, chain, events, life, row);
      }
      ExpectedSpec(p, chain, start, r2, row);
    }
  }

  lemma LifePassesNothing(p: Provider, chain: seq<LogEntry>, events: set<EventRow>, life: Life)
    requires ScansForward(p) && Ascending(chain) && NoFailure(life.turns)
    requires Resumable(p, chain, events)
    ensures var after := AfterLife(p, chain, events, life);
            Expected(p, chain, p.startBlock as int, Resume(after, p) - 1) <= after
  {
    NothingPassed(p, chain, events, life, AfterLife(p, chain, events, life));
  }

  lemma NothingPassed(p: Provider, chain: seq<LogEntry>, events: set<EventRow>, life: Life, after: set<EventRow>)
    requires ScansForward(p) && Ascending(chain) && NoFailure(life.turns)
    requires Resumable(p, chain, events) && after == AfterLife(p, chain, events, life)
    ensures Expected(p, chain, p.startBlock as int, Resume(after, p) - 1) <= after
  {
    var next := Resume(after, p);
    forall row | row in Expected(p, chain, p.startBlock as int, next - 1) ensures row in after {
      RowNotPassed(p, chain, events, life, next, row);
    }
  }

  lemma RowNotPassed(p: Provider, chain: seq<LogEntry>, events: set<EventRow>, life: Life, next: int, row: EventRow)
    requires ScansForward(p) && Ascending(chain) && NoFailure(life.turns)
    requires Resumable(p, chain, events) && next == Resume(AfterLife(p, chain, events, life), p)
    requires row in Expected(p, chain, p.startBlock as int, next - 1)
    ensures row in AfterLife(p, chain, events, life)
  {
    ResumeGrows(p, chain, events, life);
    ExpectedSpec(p, chain, p.startBlock as int, next - 1, row);
    if row.updateBlock < Resume(events, p) {
      PassedRowStored(p, chain, events, row);
    } else {
      ReachedBelow(p, chain, events, life, row);
    }
  }

  lemma PassedRowStored(p: Provider, chain: seq<LogEntry>, events: set<EventRow>, row: EventRow)
    requires Resumable(p, chain, events) && HasLog(p, chain, row)
    requires p.startBlock as int <= row.updateBlock < Resume(events, p)
    ensures row in events
  {
    ExpectedSpec(p, chain, p.startBlock as int, Resume(events, p) - 1, row);
  }

  lemma ResumeGrows(p: Provider, chain: seq<LogEntry>, events: set<EventRow>, life: Life)
    requires ScansForward(p) && Resume(events, p) < TWO_TO_THE_63
    ensures Resume(events, p) <= Resume(AfterLife(p, chain, events, life), p) < TWO_TO_THE_63
  {
    var after := AfterLife(p, chain, events, life);
    var max := MaxUpdateBlock(after, p.chain);
    if max.Some? {
      var top :| top in after && top.chain == p.chain && top.updateBlock == max.value;
      if top !in events {
        LifeRows(p, chain, events, life, top);
      }
    }
  }

  /** Between the old and the new resume block nothing was passed over. */
  lemma ReachedBelow(p: Provider, chain: seq<LogEntry>, events: set<EventRow>, life: Life, row: EventRow)
    requires ScansForward(p) && Ascending(chain) && NoFailure(life.turns)
    requires Resume(events, p) < TWO_TO_THE_63
    requires var after := AfterLife(p, chain, events, life);
             Resume(events, p) <= row.updateBlock < Resume(after, p)
    requires HasLog(p, chain, row)
    ensures row in AfterLife(p, chain, events, life)
  {
    var r := Resume(events, p);
    var fed := FedIn(p, chain, events, life.turns);
    var cut := if life.handled < |fed| then life.handled else |fed|;
    assert fed[..|fed|] == fed;
    var j := TopLog(p, chain, events, life, cut);
    var l := LogOf(p, chain, row);
    CutIsComplete(p, chain, r, life.turns, cut, j, l);
  }

  /** If a life moved the resume block, some log it handled lies on the new one. */
  lemma TopLog(p: Provider, chain: seq<LogEntry>, events: set<EventRow>, life: Life, cut: nat) returns (j: nat)
    requires ScansForward(p) && Resume(events, p) < TWO_TO_THE_63
    requires cut <= |FedIn(p, chain, events, life.turns)|
    requires AfterLife(p, chain, events, life) == events + RowsOf(FedIn(p, chain, events, life.turns)[..cut], p)
    requires Resume(events, p) < Resume(AfterLife(p, chain, events, life), p)
    ensures j < cut && FedIn(p, chain, events, life.turns)[j].block == Resume(AfterLife(p, chain, events, life), p)
  {
    var after := AfterLife(p, chain, events, life);
    var fed := FedIn(p, chain, events, life.turns);
    var max := MaxUpdateBlock(after, p.chain);
    var top :| top in after && top.chain == p.chain && top.updateBlock == max.value;
    assert top !in events;
    var m :| m in fed[..cut] && Handle(m, p).Accepted? && Stored(Handle(m, p).event) == top;
    j :| 0 <= j < cut && fed[j] == m;
    assert m in fed;
    FedBlockBound(p, chain, Resume(events, p), life.turns, m);
    RowBlock(m, p);
  }

  lemma {:induction false} LivesKeepResumable(p: Provider, chain: seq<LogEntry>, events: set<EventRow>,
                                              lives: seq<Life>)
    requires ScansForward(p) && Ascending(chain)
    requires forall life | life in lives :: NoFailure(life.turns)
    requires OwnRows(events, p) == {}
    ensures Resumable(p, chain, AfterLives(p, chain, events, lives))
  {
    if lives == [] {
      NothingExpectedBelowStart(p, chain, events);
    } else {
      LivesKeepResumable(p, chain, events, lives[..|lives| - 1]);
      LifeKeepsResumable(p, chain, AfterLives(p, chain, events, lives[..|lives| - 1]), lives[|lives| - 1]);
    }
  }

  lemma NothingExpectedBelowStart(p: Provider, chain: seq<LogEntry>, events: set<EventRow>)
    requires ScansForward(p) && OwnRows(events, p) == {}
    ensures Resumable(p, chain, events)
  {
    assert forall e | e in events && e.chain == p.chain :: e in OwnRows(events, p);
    var below := Fetch(chain, p.startBlock as int, p.startBlock as int - 1);
    forall l ensures l !in below {
      FetchSpec(chain, p.startBlock as int, p.startBlock as int - 1, l);
    }
  }

  /** Whether a life fetches at all: some observed head lies beyond the block it resumed from. */
  lemma {:induction false} FetchesIffHeadBeyond(p: Provider, start: int, turns: seq<Turn>)
    requires 0 < p.batchSize
    ensures Scan(p, start, turns).attempts != []
            <==> exists t | t in turns :: t.head.Some? && t.head.value as int > start
  {
    if turns != [] {
      var front := turns[..|turns| - 1];
      FetchesIffHeadBeyond(p, start, front);
      WindowsTile(p, start, front);
      assert turns == front + [turns[|turns| - 1]];
    }
  }

  /**
   * After any number of crashes at any points, one life that sees a head beyond its resume block
   * brings the table to exactly the matching logs from the start block to its cursor.
   */
  lemma CrashSafeIngest(p: Provider, chain: seq<LogEntry>, events: set<EventRow>, lives: seq<Life>, last: Life)
    requires ScansForward(p) && Ascending(chain)
    requires forall life | life in lives + [last] :: NoFailure(life.turns)
    requires OwnRows(events, p) == {}
    requires var resumed := AfterLives(p, chain, events, lives);
             && |FedIn(p, chain, resumed, last.turns)| <= last.handled
             && exists t | t in last.turns :: t.head.Some? && t.head.value as int > Resume(resumed, p)
    ensures var resumed := AfterLives(p, chain, events, lives);
            var cursor := Scan(p, Resume(resumed, p), last.turns).cursor;
            OwnRows(AfterLives(p, chain, events, lives + [last]), p) == Expected(p, chain, p.startBlock as int, cursor)
  {
    assert (lives + [last])[..|lives + [last]| - 1] == lives;
    assert last in lives + [last];
    LivesKeepResumable(p, chain, events, lives);
    CatchingUpCompletes(p, chain, AfterLives(p, chain, events, lives), last);
  }

  ghost predicate CompletesCatchUp(p: Provider, chain: seq<LogEntry>, events: set<EventRow>, last: Life) {
    && ScansForward(p) && NoFailure(last.turns) && Resumable(p, chain, events)
    && |FedIn(p, chain, events, last.turns)| <= last.handled && SeesHeadBeyond(last, Resume(events, p))
  }

  lemma CatchingUpCompletes(p: Provider, chain: seq<LogEntry>, events: set<EventRow>, last: Life)
    requires CompletesCatchUp(p, chain, events, last)
    ensures OwnRows(AfterLife(p, chain, events, last), p)
            == Expected(p, chain, p.startBlock as int, Scan(p, Resume(events, p), last.turns).cursor)
  {
    CaughtUpIff(p, chain, events, last);
    OwnRowsWanted(p, chain, events, Scan(p, Resume(events, p), last.turns).cursor, last);
  }

  lemma OwnRowsWanted(p: Provider, chain: seq<LogEntry>, events: set<EventRow>, cursor: int, last: Life)
    requires 0 < p.batchSize && Resumable(p, chain, events)
    requires cursor == Scan(p, Resume(events, p), last.turns).cursor
    ensures OwnRows(events, p) <= Expected(p, chain, p.startBlock as int, cursor)
  {
    var start, r := p.startBlock as int, Resume(events, p);
    WindowsTile(p, r, last.turns);
    CursorBound(p, r, last.turns);
    forall row | row in OwnRows(events, p) ensures row in Expected(p, chain, start, cursor) {
      ExpectedSpec(p, chain, start, r, row);
      ExpectedSpec(p, chain, start, cursor, row);
    }
  }

  lemma RowChain(p: Provider, chain: seq<LogEntry>, row: EventRow)
    requires HasLog(p, chain, row)
    ensures row.chain == p.chain
  {
    var l := LogOf(p, chain, row);
  }

  lemma ReachedNow(p: Provider, chain: seq<LogEntry>, events: set<EventRow>, last: Life, row: EventRow)
    requires ScansForward(p) && NoFailure(last.turns) && |FedIn(p, chain, events, last.turns)| <= last.handled
    requires SeesHeadBeyond(last, Resume(events, p)) && HasLog(p, chain, row)
    requires Resume(events, p) <= row.updateBlock <= Scan(p, Resume(events, p), last.turns).cursor
    ensures row in AfterLife(p, chain, events, last)
  {
    var l := LogOf(p, chain, row);
    FetchesIffHeadBeyond(p, Resume(events, p), last.turns);
    AllFedWithin(p, chain, Resume(events, p), last.turns, l);
  }

  /** A life that sees no head beyond its resume block adds nothing ... */
  lemma NoFetchAddsNothing(p: Provider, chain: seq<LogEntry>, events: set<EventRow>, life: Life)
    requires 0 < p.batchSize
    requires !(exists t | t in life.turns :: t.head.Some? && t.head.value as int > Resume(events, p))
    ensures AfterLife(p, chain, events, life) == events
  {
    FetchesIffHeadBeyond(p, Resume(events, p), life.turns);
  }

  ghost predicate SeesHeadBeyond(life: Life, block: int) {
    exists t | t in life.turns :: t.head.Some? && t.head.value as int > block
  }

  /** All that has to be stored before a life for the table to be complete after it. */
  ghost predicate CanComplete(p: Provider, chain: seq<LogEntry>, events: set<EventRow>, last: Life) {
    var r := Resume(events, p);
    && Expected(p, chain, p.startBlock as int, r - 1) <= events
    && (SeesHeadBeyond(last, r) || Expected(p, chain, r, r) <= events)
  }

  /**
   * From any table, whatever left it so, be it crashes, failed fetches, failed inserts or another provider of
   * the chain: exactly when a complete life without failures ends with everything up to its cursor, and
   * exactly when with nothing else besides.
   */
  lemma CaughtUpIff(p: Provider, chain: seq<LogEntry>, events: set<EventRow>, last: Life)
    requires ScansForward(p) && NoFailure(last.turns) && Resume(events, p) < TWO_TO_THE_63
    requires |FedIn(p, chain, events, last.turns)| <= last.handled
    ensures var wanted := Expected(p, chain, p.startBlock as int, Scan(p, Resume(events, p), last.turns).cursor);
            var after := AfterLife(p, chain, events, last);
            && (wanted <= after <==> CanComplete(p, chain, events, last))
            && (OwnRows(after, p) == wanted <==> OwnRows(events, p) <= wanted && CanComplete(p, chain, events, last))
  {
    var r := Resume(events, p);
    var cursor := Scan(p, r, last.turns).cursor;
    var wanted, after := Expected(p, chain, p.startBlock as int, cursor), AfterLife(p, chain, events, last);
    WindowsTile(p, r, last.turns);
    CursorBound(p, r, last.turns);
    if CanComplete(p, chain, events, last) {
      forall row | row in wanted ensures row in after {
        WantedIsStored(p, chain, events, last, row);
      }
    }
    if wanted <= after {
      CompleteWasPrepared(p, chain, events, last, cursor);
    }
    forall row | row in after && row !in events ensures row in wanted {
      LifeRows(p, chain, events, last, row);
      ExpectedSpec(p, chain, p.startBlock as int, cursor, row);
    }
    forall row | row in wanted ensures row.chain == p.chain {
      ExpectedSpec(p, chain, p.startBlock as int, cursor, row);
      RowChain(p, chain, row);
    }
  }

  lemma WantedIsStored(p: Provider, chain: seq<LogEntry>, events: set<EventRow>, last: Life, row: EventRow)
    requires ScansForward(p) && NoFailure(last.turns) && Resume(events, p) < TWO_TO_THE_63
    requires |FedIn(p, chain, events, last.turns)| <= last.handled && CanComplete(p, chain, events, last)
    requires row in Expected(p, chain, p.startBlock as int, Scan(p, Resume(events, p), last.turns).cursor)
    ensures row in AfterLife(p, chain, events, last)
  {
    var start, r := p.startBlock as int, Resume(events, p);
    var cursor := Scan(p, r, last.turns).cursor;
    CursorBound(p, r, last.turns);
    ExpectedSpec(p, chain, start, cursor, row);
    if row.updateBlock < r {
      ExpectedSpec(p, chain, start, r - 1, row);
    } else if SeesHeadBeyond(last, r) {
      ReachedNow(p, chain, events, last, row);
    } else {
      FetchesIffHeadBeyond(p, r, last.turns);
      WindowsTile(p, r, last.turns);
      ExpectedSpec(p, chain, r, r, row);
    }
  }

  lemma CompleteWasPrepared(p: Provider, chain: seq<LogEntry>, events: set<EventRow>, last: Life, cursor: int)
    requires ScansForward(p) && Resume(events, p) < TWO_TO_THE_63 && Resume(events, p) <= cursor < TWO_TO_THE_63
    requires Expected(p, chain, p.startBlock as int, cursor) <= AfterLife(p, chain, events, last)
    ensures CanComplete(p, chain, events, last)
  {
    var start, r := p.startBlock as int, Resume(events, p);
    forall row | row in Expected(p, chain, start, r - 1) ensures row in events {
      ExpectedSpec(p, chain, start, r - 1, row);
      ExpectedSpec(p, chain, start, cursor, row);
      if row !in events {
        LifeRows(p, chain, events, last, row);
      }
    }
    if !SeesHeadBeyond(last, r) {
      NoFetchAddsNothing(p, chain, events, last);
      forall row | row in Expected(p, chain, r, r) ensures row in events {
        ExpectedSpec(p, chain, r, r, row);
        ExpectedSpec(p, chain, start, cursor, row);
      }
    }
  }

  // ---- which missing rows a restart can still bring ------------------------------------------------

  lemma {:induction false} BelowResumeStaysMissing(p: Provider, chain: seq<LogEntry>, events: set<EventRow>,
                                                   lives: seq<Life>, row: EventRow)
    requires ScansForward(p) && Resume(events, p) < TWO_TO_THE_63
    requires row !in events && (row.updateBlock < Resume(events, p) || !HasLog(p, chain, row))
    ensures row !in AfterLives(p, chain, events, lives)
    ensures Resume(events, p) <= Resume(AfterLives(p, chain, events, lives), p) < TWO_TO_THE_63
  {
    if lives != [] {
      var front, last := lives[..|lives| - 1], lives[|lives| - 1];
      BelowResumeStaysMissing(p, chain, events, front, row);
      var before := AfterLives(p, chain, events, front);
      ResumeGrows(p, chain, before, last);
      if row in AfterLife(p, chain, before, last) {
        LifeRows(p, chain, before, last, row);
      }
    }
  }

  /**
   * However it came to be missing, a row can still be stored by some later lives exactly if a log says it and
   * its block is not below the block the table makes the next life resume from.
   */
  lemma RecoverableIff(p: Provider, chain: seq<LogEntry>, events: set<EventRow>, row: EventRow)
    requires ScansForward(p) && Resume(events, p) < TWO_TO_THE_63 && row.updateBlock < TWO_TO_THE_63 - 1
    requires row !in events
    ensures (exists lives :: row in AfterLives(p, chain, events, lives))
            <==> HasLog(p, chain, row) && Resume(events, p) <= row.updateBlock
  {
    if HasLog(p, chain, row) && Resume(events, p) <= row.updateBlock {
      var life := RecoveringLife(p, chain, events, row);
      assert [life][..0] == [];
      assert AfterLives(p, chain, events, [life]) == AfterLife(p, chain, events, life);
    } else {
      forall lives ensures row !in AfterLives(p, chain, events, lives) {
        BelowResumeStaysMissing(p, chain, events, lives, row);
      }
    }
  }

  lemma RecoveringLife(p: Provider, chain: seq<LogEntry>, events: set<EventRow>, row: EventRow) returns (life: Life)
    requires ScansForward(p) && HasLog(p, chain, row)
    requires Resume(events, p) <= row.updateBlock < TWO_TO_THE_63 - 1
    ensures row in AfterLife(p, chain, events, life)
  {
    var r := Resume(events, p);
    var bn: Int64 := (row.updateBlock + 1) as Int64;
    CeilDivBounds(bn as int - r, p.batchSize as int, 0);
    var turns := seq(CeilDiv(bn as int - r, p.batchSize as int), _ => Turn(Some(bn), true, {}));
    ReachesHead(p, r, turns, bn);
    life := Life(turns, |FedIn(p, chain, events, turns)|);
    ReachedNow(p, chain, events, life, row);
  }

  /** After crashes, enough turns at a head beyond the resume block leave exactly the logs up to that head. */
  lemma CaughtUpAtHead(p: Provider, chain: seq<LogEntry>, events: set<EventRow>, lives: seq<Life>, last: Life,
                       bn: Int64)
    requires ScansForward(p) && Ascending(chain)
    requires forall life | life in lives + [last] :: NoFailure(life.turns)
    requires OwnRows(events, p) == {}
    requires var r := Resume(AfterLives(p, chain, events, lives), p);
             && r < bn as int && |last.turns| >= CeilDiv(bn as int - r, p.batchSize as int)
             && forall t | t in last.turns :: t.head == Some(bn)
    requires |FedIn(p, chain, AfterLives(p, chain, events, lives), last.turns)| <= last.handled
    ensures OwnRows(AfterLives(p, chain, events, lives + [last]), p)
            == Expected(p, chain, p.startBlock as int, bn as int)
  {
    var resumed := AfterLives(p, chain, events, lives);
    ReachesHead(p, Resume(resumed, p), last.turns, bn);
    assert last in lives + [last];
    assert AfterLives(p, chain, events, lives + [last]) == AfterLife(p, chain, resumed, last) by {
      assert (lives + [last])[..|lives + [last]| - 1] == lives;
    }
    LivesKeepResumable(p, chain, events, lives);
    CatchingUpCompletes(p, chain, resumed, last);
  }

  lemma ReachesHead(p: Provider, start: int, turns: seq<Turn>, bn: Int64)
    requires ScansForward(p) && start < bn as int && |turns| >= CeilDiv(bn as int - start, p.batchSize as int)
    requires forall t | t in turns :: t.head == Some(bn)
    ensures Scan(p, start, turns).cursor == bn as int
    ensures exists t | t in turns :: t.head.Some? && t.head.value as int > start
  {
    CatchUp(p, start, bn, turns);
    CeilDivBounds(bn as int - start, p.batchSize as int, 0);
    assert turns[0] in turns;
  }

  // Two logs of one block, and a head that stays on that block.
  const WATCHED := Provider(1, 7, 0, 10, Some(false))
  const FIRST_LOG := LogEntry(5, 0, 96, "aa", 100, 7, "x")
  const SECOND_LOG := LogEntry(5, 1, 96, "bb", 100, 7, "y")
  const ONE_TURN := [Turn(Some(5), true, {})]

  /** ... so after a crash between two logs of the newest block, a head that stays there loses the second. */
  lemma StandingHeadLosesTail()
    ensures var chain := [FIRST_LOG, SECOND_LOG];
            var after := AfterLives(WATCHED, chain, {}, [Life(ONE_TURN, 1), Life(ONE_TURN, 9)]);
            && ScansForward(WATCHED) && Ascending(chain) && Resume(after, WATCHED) == 5
            && Stored(Handle(SECOND_LOG, WATCHED).event) in Expected(WATCHED, chain, 0, 5) - after
  {
    var chain := [FIRST_LOG, SECOND_LOG];
    var once := CrashAfterFirstLog();
    assert AfterLives(WATCHED, chain, {}, [Life(ONE_TURN, 1), Life(ONE_TURN, 9)]) == once by {
      TwoLives(WATCHED, chain, {}, Life(ONE_TURN, 1), Life(ONE_TURN, 9));
      StandingHeadAddsNothing(chain, once);
    }
    SecondLogExpected(chain);
  }

  lemma StandingHeadAddsNothing(chain: seq<LogEntry>, events: set<EventRow>)
    requires Resume(events, WATCHED) == 5
    ensures AfterLife(WATCHED, chain, events, Life(ONE_TURN, 9)) == events
  {
    NoFetchAddsNothing(WATCHED, chain, events, Life(ONE_TURN, 9));
  }

  lemma TwoLives(p: Provider, chain: seq<LogEntry>, events: set<EventRow>, a: Life, b: Life)
    ensures AfterLives(p, chain, events, [a, b])
            == AfterLife(p, chain, AfterLife(p, chain, events, a), b)
  {
    assert [a, b][..1] == [a] && [a][..0] == [];
    assert AfterLives(p, chain, events, [a]) == AfterLife(p, chain, events, a);
  }

  lemma SecondLogExpected(chain: seq<LogEntry>)
    requires chain == [FIRST_LOG, SECOND_LOG]
    ensures Stored(Handle(SECOND_LOG, WATCHED).event) in Expected(WATCHED, chain, 0, 5)
  {
    assert chain[1] == SECOND_LOG;
    FetchSpec(chain, 0, 5, SECOND_LOG);
  }

  lemma CrashAfterFirstLog() returns (once: set<EventRow>)
    ensures once == AfterLife(WATCHED, [FIRST_LOG, SECOND_LOG], {}, Life(ONE_TURN, 1))
    ensures Resume(once, WATCHED) == 5
    ensures Stored(Handle(SECOND_LOG, WATCHED).event) !in once
  {
    var chain := [FIRST_LOG, SECOND_LOG];
    OneWindowFeed(WATCHED, chain, FIRST_LOG, SECOND_LOG, ONE_TURN);
    assert chain[..1] == [FIRST_LOG];
    once := AfterLife(WATCHED, chain, {}, Life(ONE_TURN, 1));
    var row := Stored(Handle(FIRST_LOG, WATCHED).event);
    assert row in once && once == RowsOf([FIRST_LOG], WATCHED);
    RowBlock(FIRST_LOG, WATCHED);
    assert forall e | e in once :: e == row;
    assert row.cid == "x";
  }

  lemma OneWindowFeed(p: Provider, chain: seq<LogEntry>, a: LogEntry, b: LogEntry, turns: seq<Turn>)
    requires p == Provider(1, 7, 0, 10, Some(false)) && chain == [a, b] && a.block == b.block == 5
    requires turns == [Turn(Some(5), true, {})]
    ensures FedIn(p, chain, {}, turns) == [a, b]
  {
    assert Resume({}, p) == 0;
    assert turns[..0] == [];
    var ws := [Attempt(0, 5, true, {}, 5)];
    assert Scan(p, 0, turns) == ScanState(5, ws);
    assert ws[..0] == [];
    assert chain[..1] == [a] && [a][..0] == [];
    assert Fetch([a], 0, 5) == [a];
    assert Fetch(chain, 0, 5) == [a, b];
    assert [a, b][..1] == [a];
    assert Without([a], {}) == [a] && Without([a, b], {}) == [a, b];
    assert WindowFeed(chain, ws[0]) == [a, b];
    assert Feed(chain, ws) == [a, b];
  }

  // A log whose insert fails in one life, and a second provider of the same chain.
  const REFUSED := Turn(Some(10), true, {INNER_LOG})
  const ACCEPTED := Turn(Some(10), true, {})
  const NEIGHBOUR := Provider(1, 8, 0, 10, Some(false))
  const NEIGHBOUR_LOG := LogEntry(9, 0, 96, "cc", 100, 8, "z")

  /** While nothing later is stored, the next life stores the log whose insert this life lost. */
  lemma RestartRecoversFailedInsert()
    ensures var row, chain := Stored(Handle(INNER_LOG, TEN_AT_A_TIME).event), [INNER_LOG];
            var first, second := Life([REFUSED], 9), Life([ACCEPTED], 9);
            && row !in AfterLives(TEN_AT_A_TIME, chain, {}, [first])
            && row in AfterLives(TEN_AT_A_TIME, chain, {}, [first, second])
  {
    var row, chain := Stored(Handle(INNER_LOG, TEN_AT_A_TIME).event), [INNER_LOG];
    var first, second := Life([REFUSED], 9), Life([ACCEPTED], 9);
    OneWindow(chain, REFUSED);
    OneWindow(chain, ACCEPTED);
    assert AfterLife(TEN_AT_A_TIME, chain, {}, first) == {};
    assert row in RowsOf([INNER_LOG], TEN_AT_A_TIME);
    TwoLives(TEN_AT_A_TIME, chain, {}, first, second);
    assert [first][..0] == [];
    assert AfterLives(TEN_AT_A_TIME, chain, {}, [first]) == {};
  }

  lemma OneWindow(chain: seq<LogEntry>, turn: Turn)
    requires chain == [INNER_LOG] && turn.head == Some(10) && turn.ok
    ensures FedIn(TEN_AT_A_TIME, chain, {}, [turn]) == if INNER_LOG in turn.lost then [] else [INNER_LOG]
  {
    assert Resume({}, TEN_AT_A_TIME) == 0;
    assert [turn][..0] == [];
    var a := Attempt(0, 10, true, turn.lost, 10);
    assert Scan(TEN_AT_A_TIME, 0, [turn]) == ScanState(10, [a]);
    assert [a][..0] == [] && chain[..0] == [];
    assert Fetch(chain, 0, 10) == chain;
    assert Without(chain, turn.lost) == if INNER_LOG in turn.lost then [] else [INNER_LOG];
    assert Feed(chain, [a]) == WindowFeed(chain, a);
  }

  /**
   * Two providers on one chain share the maximum: once one has stored a later block, no life of the other
   * stores an earlier log it has not scanned yet.
   */
  lemma OtherProviderHidesLog(lives: seq<Life>)
    ensures var chain := [INNER_LOG, NEIGHBOUR_LOG];
            var events := AfterLife(NEIGHBOUR, chain, {}, Life([ACCEPTED], 9));
            var row := Stored(Handle(INNER_LOG, TEN_AT_A_TIME).event);
            && row in Expected(TEN_AT_A_TIME, chain, TEN_AT_A_TIME.startBlock as int, 5)
            && row !in AfterLives(TEN_AT_A_TIME, chain, events, lives)
  {
    var chain, life := [INNER_LOG, NEIGHBOUR_LOG], Life([ACCEPTED], 9);
    var row, other := Stored(Handle(INNER_LOG, TEN_AT_A_TIME).event), Stored(Handle(NEIGHBOUR_LOG, NEIGHBOUR).event);
    var events := AfterLife(NEIGHBOUR, chain, {}, life);
    assert chain[0] == INNER_LOG && chain[1] == NEIGHBOUR_LOG;
    NeighbourStores(chain, life, other);
    assert row.cid == "x";
    FetchSpec(chain, 0, 5, INNER_LOG);
    BelowResumeStaysMissing(TEN_AT_A_TIME, chain, events, lives, row);
  }

  lemma NeighbourStores(chain: seq<LogEntry>, life: Life, other: EventRow)
    requires chain == [INNER_LOG, NEIGHBOUR_LOG] && life == Life([ACCEPTED], 9)
    requires other == Stored(Handle(NEIGHBOUR_LOG, NEIGHBOUR).event)
    ensures AfterLife(NEIGHBOUR, chain, {}, life) == {other} && other.cid == "z"
    ensures Resume({other}, TEN_AT_A_TIME) == 9
  {
    var a := Attempt(0, 10, true, {}, 10);
    assert Resume({}, NEIGHBOUR) == 0;
    assert [ACCEPTED][..0] == [];
    assert Scan(NEIGHBOUR, 0, [ACCEPTED]) == ScanState(10, [a]);
    assert chain[..1] == [INNER_LOG] && [INNER_LOG][..0] == [];
    assert Fetch([INNER_LOG], 0, 10) == [INNER_LOG];
    assert Fetch(chain, 0, 10) == chain;
    assert Without([INNER_LOG], {}) == [INNER_LOG];
    assert Without(chain, {}) == chain;
    assert [a][..0] == [];
    assert Feed(chain, [a]) == WindowFeed(chain, a);
    assert other in RowsOf(chain, NEIGHBOUR) by {
      assert chain[1] == NEIGHBOUR_LOG;
    }
    assert MaxUpdateBlock({other}, 1).Some?;
  }
}
