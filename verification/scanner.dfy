/** The log scanner: a cursor that pages a chain in inclusive windows against a moving head. */
module Scanner {
  import opened Tables
  import opened Logs
  import opened Db

  /** What one turn of the loop meets: the latest block, if known, whether the fetch succeeds, failing inserts. */
  datatype Turn = Turn(head: Option<Int64>, ok: bool, lost: set<LogEntry>)

  /** One fetch: its window, its outcome, the logs whose insert failed and the head it was made against. */
  datatype Attempt = Attempt(from: int, to: int, ok: bool, lost: set<LogEntry>, head: int)

  datatype ScanState = ScanState(cursor: int, attempts: seq<Attempt>)

  predicate SkipsOld(p: Provider) {
    p.skipOld == Some(true)
  }

  function Step(p: Provider, st: ScanState, turn: Turn): ScanState {
    if turn.head.None? then st
    else
      var bn, batch := turn.head.value as int, p.batchSize as int;
      var from := if SkipsOld(p) && bn - st.cursor > batch then bn - batch else st.cursor;
      if from >= bn then st.(cursor := from)
      else
        var to := if bn - from > batch then from + batch else bn;
        ScanState(to, st.attempts + [Attempt(from, to, turn.ok, turn.lost, bn)])
  }

  function Scan(p: Provider, start: int, turns: seq<Turn>): ScanState {
    if turns == [] then ScanState(start, [])
    else Step(p, Scan(p, start, turns[..|turns| - 1]), turns[|turns| - 1])
  }

  /** The node's answer to a log query over an inclusive window. */
  function Fetch(chain: seq<LogEntry>, from: int, to: int): seq<LogEntry> {
    if chain == [] then []
    else
      var l := chain[|chain| - 1];
      Fetch(chain[..|chain| - 1], from, to) + if from <= l.block <= to then [l] else []
  }

  function Without(logs: seq<LogEntry>, lost: set<LogEntry>): seq<LogEntry> {
    if logs == [] then []
    else
      var l := logs[|logs| - 1];
      Without(logs[..|logs| - 1], lost) + if l in lost then [] else [l]
  }

  /** The logs of one window that get past their insert. */
  function WindowFeed(chain: seq<LogEntry>, a: Attempt): seq<LogEntry> {
    if a.ok then Without(Fetch(chain, a.from, a.to), a.lost) else []
  }

  /** Every log that gets past its insert, in order: the windows one after the other. */
  function Feed(chain: seq<LogEntry>, attempts: seq<Attempt>): seq<LogEntry> {
    if attempts == [] then []
    else Feed(chain, attempts[..|attempts| - 1]) + WindowFeed(chain, attempts[|attempts| - 1])
  }

  /** The event handler; refused says that the database rejects the insert. ok is false for Err. */
  method UpdateValidBlock(client: Client, l: LogEntry, p: Provider, refused: bool) returns (ok: bool)
    modifies client`events
    ensures ok <==> l.dataLen >= 96 && (AsI64(l.providerId) == p.providerId ==> !refused)
    ensures forall e :: e in client.events <==> e in old(client.events) || (!refused && Describes(e, l, p))
    ensures client.events == old(client.events) + RowsOf(if refused then [] else [l], p)
  {
    forall e {
      HandleSpec(l, p, e);
    }
    var r := Handle(l, p);
    if r.ShortData? || (r.Accepted? && refused) {
      return false;
    }
    if r.Accepted? {
      var _ := client.AddValidBlock(r.event);
    }
    return true;
  }

  /** One window's logs, in order; a log whose handler fails is passed over. */
  method InsertLogs(client: Client, logs: seq<LogEntry>, lost: set<LogEntry>, p: Provider)
    modifies client`events
    ensures client.events == old(client.events) + RowsOf(Without(logs, lost), p)
  {
    for k := 0 to |logs|
      invariant client.events == old(client.events) + RowsOf(Without(logs[..k], lost), p)
    {
      assert logs[..k + 1][..k] == logs[..k];
      RowsOfAppend(Without(logs[..k], lost), if logs[k] in lost then [] else [logs[k]], p);
      var ok := UpdateValidBlock(client, logs[k], p, logs[k] in lost);
      if !ok {
        continue;
      }
    }
    assert logs[..|logs|] == logs;
  }

  /** One turn of the loop; Int64 arithmetic must not overflow anywhere. */
  method TakeTurn(client: Client, p: Provider, chain: seq<LogEntry>, start: Int64, attempts: seq<Attempt>, turn: Turn)
    returns (cursor: Int64, tried: seq<Attempt>)
    requires 0 <= start && 0 < p.batchSize && (turn.head.Some? ==> 0 <= turn.head.value)
    modifies client`events
    ensures 0 <= cursor
    ensures ScanState(cursor as int, tried) == Step(p, ScanState(start as int, attempts), turn)
    ensures client.events == old(client.events)
                             + RowsOf(if |tried| > |attempts| then Feed(chain, tried[|attempts|..]) else [], p)
    ensures !turn.ok ==> client.events == old(client.events)
  {
    cursor, tried := start, attempts;
    if turn.head.None? {
      return;
    }
    var bn := turn.head.value;
    if p.skipOld == Some(true) && bn - cursor > p.batchSize {
      cursor := bn - p.batchSize;
    }
    if cursor >= bn {
      return;
    }
    var from := cursor;
    if bn - cursor > p.batchSize {
      cursor := cursor + p.batchSize;
    } else {
      cursor := bn;
    }
    var a := Attempt(from as int, cursor as int, turn.ok, turn.lost, bn as int);
    tried := attempts + [a];
    assert tried[|attempts|..] == [a] && [a][..0] == [];
    assert Feed(chain, [a]) == WindowFeed(chain, a);
    if !turn.ok {
      return;
    }
    var logs := Fetch(chain, from as int, cursor as int);
    InsertLogs(client, logs, turn.lost, p);
  }

  lemma FeedExtend(chain: seq<LogEntry>, before: seq<Attempt>, a: Attempt, p: Provider)
    ensures RowsOf(Feed(chain, before + [a]), p) == RowsOf(Feed(chain, before), p) + RowsOf(Feed(chain, [a]), p)
  {
    assert (before + [a])[..|before + [a]| - 1] == before;
    assert [a][..0] == [];
    RowsOfAppend(Feed(chain, before), Feed(chain, [a]), p);
  }

  /** The scanning loop over a finite stretch of turns. */
  method GetLogs(client: Client, p: Provider, chain: seq<LogEntry>, start: Int64, turns: seq<Turn>)
    returns (cursor: Int64, attempts: seq<Attempt>)
    requires 0 <= start && 0 < p.batchSize
    requires forall t | t in turns && t.head.Some? :: 0 <= t.head.value
    modifies client`events
    ensures ScanState(cursor as int, attempts) == Scan(p, start as int, turns)
    ensures client.events == old(client.events) + RowsOf(Feed(chain, attempts), p)
  {
    cursor, attempts := start, [];
    for i := 0 to |turns|
      invariant 0 <= cursor
      invariant ScanState(cursor as int, attempts) == Scan(p, start as int, turns[..i])
      invariant client.events == old(client.events) + RowsOf(Feed(chain, attempts), p)
    {
      ghost var before := attempts;
      assert turns[..i + 1][..i] == turns[..i];
      cursor, attempts := TakeTurn(client, p, chain, cursor, attempts, turns[i]);
      if |attempts| > |before| {
        assert attempts == before + attempts[|before|..];
        FeedExtend(chain, before, attempts[|before|], p);
      }
    }
    assert turns[..|turns|] == turns;
  }

  /** A watcher's start: resume from the table's own maximum, but not before the configured block. */
  method WatchEvent(client: Client, p: Provider, chain: seq<LogEntry>, turns: seq<Turn>)
    returns (attempts: seq<Attempt>)
    requires 0 <= p.startBlock && 0 < p.batchSize
    requires forall t | t in turns && t.head.Some? :: 0 <= t.head.value
    requires forall e | e in client.events && e.chain == p.chain :: e.updateBlock < TWO_TO_THE_63
    modifies client`events
    ensures attempts == Scan(p, Resume(old(client.events), p), turns).attempts
    ensures client.events == old(client.events) + RowsOf(Feed(chain, attempts), p)
  {
    var max := client.GetMaxUpdateBlock(p.chain);
    var block := p.startBlock;
    if max.Some? && max.value > p.startBlock as int {
      block := max.value as Int64;
    }
    var _, tried := GetLogs(client, p, chain, block, turns);
    attempts := tried;
  }

  function Resume(events: set<EventRow>, p: Provider): int {
    var max := MaxUpdateBlock(events, p.chain);
    if max.Some? && max.value > p.startBlock as int then max.value else p.startBlock as int
  }

  // ---- what one turn fetches and stores ------------------------------------------------------

  function Max(a: int, b: int): int {
    if a < b then b else a
  }

  function Min(a: int, b: int): int {
    if a < b then a else b
  }

  /** The blocks a turn asks for: the next batch, or, skipping old blocks, the last one before the head. */
  predicate AsksFor(p: Provider, cursor: int, bn: int, b: int) {
    && cursor < bn
    && if p.skipOld == Some(true) then Max(cursor, bn - p.batchSize as int) <= b <= bn
       else cursor <= b <= Min(cursor + p.batchSize as int, bn)
  }

  /** The attempt reports what the turn met: its head, the outcome of its fetch and of its inserts. */
  predicate Reports(a: Attempt, turn: Turn) {
    a.ok == turn.ok && a.lost == turn.lost && turn.head.Some? && a.head == turn.head.value as int
  }

  /** One turn, whatever the cursor: where it leaves it, and the window it adds. */
  lemma TurnSpec(p: Provider, st: ScanState, turn: Turn)
    requires p.batchSize > 0
    ensures var next := Step(p, st, turn);
            if turn.head.None? || turn.head.value as int <= st.cursor then next == st
            else
              var bn := turn.head.value as int;
              && next.cursor == (if p.skipOld == Some(true) then bn else Min(st.cursor + p.batchSize as int, bn))
              && |next.attempts| == |st.attempts| + 1 && next.attempts[..|st.attempts|] == st.attempts
              && var a := next.attempts[|st.attempts|];
                 Reports(a, turn) && forall b :: Contains(a, b) <==> AsksFor(p, st.cursor, bn, b)
  {
  }

  /** The turn fetches the log's window, and the database takes the log. */
  predicate TurnStores(p: Provider, cursor: int, turn: Turn, l: LogEntry) {
    && turn.ok && l !in turn.lost
    && turn.head.Some? && AsksFor(p, cursor, turn.head.value as int, l.block)
  }

  lemma TurnFeeds(p: Provider, chain: seq<LogEntry>, st: ScanState, turn: Turn, l: LogEntry)
    requires p.batchSize > 0
    ensures l in Feed(chain, Step(p, st, turn).attempts)
            <==> l in Feed(chain, st.attempts) || (l in chain && TurnStores(p, st.cursor, turn, l))
  {
    TurnSpec(p, st, turn);
    var next := Step(p, st, turn);
    if next.attempts != st.attempts {
      var a := next.attempts[|st.attempts|];
      assert next.attempts[..|next.attempts| - 1] == st.attempts;
      WindowFeedSpec(chain, a, l);
    }
  }

  lemma {:induction false} FedIffTurn(p: Provider, chain: seq<LogEntry>, start: int, turns: seq<Turn>, l: LogEntry)
    requires p.batchSize > 0
    ensures l in Feed(chain, Scan(p, start, turns).attempts)
            <==> l in chain && exists i | 0 <= i < |turns| :: StoresAt(p, start, turns, i, l)
  {
    if turns != [] {
      var front, n := turns[..|turns| - 1], |turns| - 1;
      FedIffTurn(p, chain, start, front, l);
      TurnFeeds(p, chain, Scan(p, start, front), turns[n], l);
      forall i | 0 <= i < n ensures StoresAt(p, start, turns, i, l) <==> StoresAt(p, start, front, i, l) {
        assert front[..i] == turns[..i];
      }
      assert StoresAt(p, start, turns, n, l) <==> TurnStores(p, Scan(p, start, front).cursor, turns[n], l);
    }
  }

  predicate StoresAt(p: Provider, start: int, turns: seq<Turn>, i: nat, l: LogEntry)
    requires i < |turns|
  {
    TurnStores(p, Scan(p, start, turns[..i]).cursor, turns[i], l)
  }

  /**
   * Over any turns: a row is stored exactly if, in some turn whose fetch succeeds, the blocks asked for hold a
   * log that describes it and whose insert does not fail.
   */
  lemma RowStoredIffTurn(p: Provider, chain: seq<LogEntry>, start: int, turns: seq<Turn>, e: EventRow)
    requires p.batchSize > 0
    ensures e in RowsOf(Feed(chain, Scan(p, start, turns).attempts), p)
            <==> exists l, i | l in chain && 0 <= i < |turns| :: Describes(e, l, p) && StoresAt(p, start, turns, i, l)
  {
    var fed := Feed(chain, Scan(p, start, turns).attempts);
    RowsOfSpec(fed, p, e);
    if l :| l in fed && Describes(e, l, p) {
      FedIffTurn(p, chain, start, turns, l);
    }
    if l, i :| l in chain && 0 <= i < |turns| && Describes(e, l, p) && StoresAt(p, start, turns, i, l) {
      FedIffTurn(p, chain, start, turns, l);
    }
  }

  // ---- where the windows lie ----------------------------------------------------------------

  predicate Contains(a: Attempt, b: int) {
    a.from <= b <= a.to
  }

  ghost predicate WellPlaced(p: Provider, a: Attempt) {
    a.from < a.to <= a.head && a.to - a.from <= p.batchSize as int
  }

  /** How a window may start, given where the previous one (or the scan) stood. */
  ghost predicate Follows(p: Provider, stop: int, a: Attempt) {
    if p.skipOld == Some(true) then
      a.to == a.head && (a.from == stop || (a.from > stop && a.from == a.head - p.batchSize as int))
    else a.from == stop
  }

  /** The attempts, in order, from the scan's start to its cursor. */
  ghost predicate Tiling(p: Provider, start: int, st: ScanState) {
    var ws := st.attempts;
    && (forall i | 0 <= i < |ws| :: WellPlaced(p, ws[i]))
    && (forall i | 0 < i < |ws| :: Follows(p, ws[i - 1].to, ws[i]))
    && (if ws == [] then st.cursor == start else Follows(p, start, ws[0]) && st.cursor == ws[|ws| - 1].to)
  }

  /**
   * Whatever heads are observed, the windows never exceed head or batch size and follow one another:
   * sharing exactly one endpoint, or, when old blocks are skipped, each reaching its head after a gap.
   */
  lemma {:induction false} WindowsTile(p: Provider, start: int, turns: seq<Turn>)
    requires p.batchSize > 0
    ensures Tiling(p, start, Scan(p, start, turns))
    ensures start <= Scan(p, start, turns).cursor
    ensures turns != [] ==> Scan(p, start, turns[..|turns| - 1]).cursor <= Scan(p, start, turns).cursor
  {
    if turns != [] {
      WindowsTile(p, start, turns[..|turns| - 1]);
    }
  }

  lemma {:induction false} WindowsOrdered(p: Provider, start: int, st: ScanState, i: nat, j: nat)
    requires Tiling(p, start, st) && i < j < |st.attempts|
    ensures st.attempts[i].to <= st.attempts[j].from
    decreases j - i
  {
    assert Follows(p, st.attempts[j - 1].to, st.attempts[j]);
    if i + 1 < j {
      WindowsOrdered(p, start, st, i, j - 1);
      assert WellPlaced(p, st.attempts[j - 1]);
    }
  }

  /** A block before window 0 or strictly between two windows. */
  ghost predicate InGap(start: int, ws: seq<Attempt>, b: int) {
    (|ws| > 0 && start <= b < ws[0].from) || exists i | 0 < i < |ws| :: ws[i - 1].to < b < ws[i].from
  }

  /** The blocks never attempted between start and cursor are exactly those in the gaps. */
  lemma UnattemptedIsGaps(p: Provider, start: int, turns: seq<Turn>, b: int)
    requires p.batchSize > 0
    requires Scan(p, start, turns).attempts != [] && start <= b <= Scan(p, start, turns).cursor
    ensures var ws := Scan(p, start, turns).attempts;
            !(exists a | a in ws :: Contains(a, b)) <==> InGap(start, ws, b)
    ensures !SkipsOld(p) ==> !InGap(start, Scan(p, start, turns).attempts, b)
  {
    var st := Scan(p, start, turns);
    WindowsTile(p, start, turns);
    if InGap(start, st.attempts, b) {
      forall j | 0 <= j < |st.attempts| ensures !Contains(st.attempts[j], b) {
        GapOutside(p, start, st, b, j);
      }
    } else {
      var i := LastStarted(p, start, st, b, |st.attempts| - 1);
      assert Contains(st.attempts[i], b);
    }
  }

  lemma GapOutside(p: Provider, start: int, st: ScanState, b: int, j: nat)
    requires Tiling(p, start, st) && InGap(start, st.attempts, b) && j < |st.attempts|
    ensures !Contains(st.attempts[j], b)
  {
    if start <= b < st.attempts[0].from {
      if j > 0 {
        WindowsOrdered(p, start, st, 0, j);
        assert WellPlaced(p, st.attempts[0]);
      }
    } else {
      var i :| 0 < i < |st.attempts| && st.attempts[i - 1].to < b < st.attempts[i].from;
      BeforeOrAfter(p, start, st, i, j);
    }
  }

  lemma BeforeOrAfter(p: Provider, start: int, st: ScanState, i: nat, j: nat)
    requires Tiling(p, start, st) && 0 < i < |st.attempts| && j < |st.attempts|
    ensures j < i ==> st.attempts[j].to <= st.attempts[i - 1].to
    ensures j >= i ==> st.attempts[i].from <= st.attempts[j].from
  {
    if j < i - 1 {
      WindowsOrdered(p, start, st, j, i - 1);
      assert WellPlaced(p, st.attempts[i - 1]);
    } else if j > i {
      WindowsOrdered(p, start, st, i, j);
      assert WellPlaced(p, st.attempts[i]);
    }
  }

  /** The last window among the first i + 1 that starts at or before b. */
  lemma {:induction false} LastStarted(p: Provider, start: int, st: ScanState, b: int, i: nat) returns (k: nat)
    requires Tiling(p, start, st) && i < |st.attempts| && start <= b && !InGap(start, st.attempts, b)
    requires b <= st.attempts[i].to
    ensures k <= i && Contains(st.attempts[k], b)
  {
    if st.attempts[i].from <= b {
      return i;
    }
    assert i > 0;
    k := LastStarted(p, start, st, b, i - 1);
  }

  /** Two windows meet, if at all, in one block, and then they are neighbours. */
  lemma BlockInAtMostTwoWindows(p: Provider, start: int, turns: seq<Turn>, b: int, i: nat, j: nat)
    requires p.batchSize > 0 && i < j < |Scan(p, start, turns).attempts|
    requires Contains(Scan(p, start, turns).attempts[i], b) && Contains(Scan(p, start, turns).attempts[j], b)
    ensures j == i + 1 && b == Scan(p, start, turns).attempts[i].to == Scan(p, start, turns).attempts[j].from
  {
    var st := Scan(p, start, turns);
    WindowsTile(p, start, turns);
    WindowsOrdered(p, start, st, i, j);
    if i + 1 < j {
      assert WellPlaced(p, st.attempts[i + 1]);
      WindowsOrdered(p, start, st, i + 1, j);
      WindowsOrdered(p, start, st, i, i + 1);
    }
  }

  // ---- what reaches the event table ---------------------------------------------------------

  lemma {:induction false} FetchSpec(chain: seq<LogEntry>, from: int, to: int, l: LogEntry)
    ensures l in Fetch(chain, from, to) <==> l in chain && from <= l.block <= to
  {
    if chain != [] {
      FetchSpec(chain[..|chain| - 1], from, to, l);
      assert chain == chain[..|chain| - 1] + [chain[|chain| - 1]];
    }
  }

  lemma {:induction false} WithoutSpec(logs: seq<LogEntry>, lost: set<LogEntry>, l: LogEntry)
    ensures l in Without(logs, lost) <==> l in logs && l !in lost
  {
    if logs != [] {
      WithoutSpec(logs[..|logs| - 1], lost, l);
      assert logs == logs[..|logs| - 1] + [logs[|logs| - 1]];
    }
  }

  /** The window was fetched, holds the log's block, and the log's insert succeeded. */
  predicate Inserts(a: Attempt, l: LogEntry) {
    a.ok && Contains(a, l.block) && l !in a.lost
  }

  lemma WindowFeedSpec(chain: seq<LogEntry>, a: Attempt, l: LogEntry)
    ensures l in WindowFeed(chain, a) <==> l in chain && Inserts(a, l)
  {
    if a.ok {
      var logs := Fetch(chain, a.from, a.to);
      assert WindowFeed(chain, a) == Without(logs, a.lost);
      WithoutSpec(logs, a.lost, l);
      assert l in logs <==> l in chain && Contains(a, l.block) by {
        FetchSpec(chain, a.from, a.to, l);
      }
    }
  }

  lemma {:induction false} FeedSpec(chain: seq<LogEntry>, ws: seq<Attempt>, l: LogEntry)
    ensures l in Feed(chain, ws) <==> l in chain && exists a | a in ws :: Inserts(a, l)
  {
    if ws != [] {
      var front, a := ws[..|ws| - 1], ws[|ws| - 1];
      FeedSpec(chain, front, l);
      WindowFeedSpec(chain, a, l);
      assert ws == front + [a];
    }
  }

  /** The block a stored row names, for blocks an i64 head can reach. */
  lemma RowBlock(l: LogEntry, p: Provider)
    requires Handle(l, p).Accepted? && l.block < TWO_TO_THE_63
    ensures Stored(Handle(l, p).event).updateBlock == l.block
    ensures Stored(Handle(l, p).event).chain == p.chain
  {
  }

  /** A head, and so a cursor, stays within i64. */
  lemma {:induction false} CursorBound(p: Provider, start: int, turns: seq<Turn>)
    requires p.batchSize > 0 && start < TWO_TO_THE_63
    ensures Scan(p, start, turns).cursor < TWO_TO_THE_63
  {
    if turns != [] {
      CursorBound(p, start, turns[..|turns| - 1]);
    }
  }

  predicate SameRow(m: LogEntry, l: LogEntry, p: Provider) {
    && Handle(m, p).Accepted? && Handle(l, p).Accepted?
    && Stored(Handle(m, p).event) == Stored(Handle(l, p).event)
  }

  /** A matching log's row is stored exactly when, in some fetched window, an insert of that row succeeded. */
  lemma StoredIffSomeInsertSucceeded(p: Provider, chain: seq<LogEntry>, ws: seq<Attempt>, l: LogEntry)
    requires l in chain && Handle(l, p).Accepted?
    ensures Stored(Handle(l, p).event) in RowsOf(Feed(chain, ws), p)
            <==> exists m, a | m in chain && a in ws :: SameRow(m, l, p) && m.block == l.block && Inserts(a, m)
  {
    var row := Stored(Handle(l, p).event);
    if row in RowsOf(Feed(chain, ws), p) {
      var m :| m in Feed(chain, ws) && Handle(m, p).Accepted? && Stored(Handle(m, p).event) == row;
      FeedSpec(chain, ws, m);
      AsI64Spec(m.block, l.block);
      assert SameRow(m, l, p);
      var a :| a in ws && Inserts(a, m);
      assert Inserts(a, m);
    }
    if m, a :| m in chain && a in ws && SameRow(m, l, p) && m.block == l.block && Inserts(a, m) {
      assert SameRow(m, l, p) && Inserts(a, m);
      FeedSpec(chain, ws, m);
    }
  }

  lemma FedBlockBound(p: Provider, chain: seq<LogEntry>, start: int, turns: seq<Turn>, m: LogEntry)
    requires p.batchSize > 0 && start < TWO_TO_THE_63
    requires m in Feed(chain, Scan(p, start, turns).attempts)
    ensures start <= m.block <= Scan(p, start, turns).cursor < TWO_TO_THE_63
    ensures m in chain
  {
    WindowsTile(p, start, turns);
    CursorBound(p, start, turns);
    FedBetween(p, chain, start, Scan(p, start, turns), m);
  }

  lemma FedBetween(p: Provider, chain: seq<LogEntry>, start: int, st: ScanState, m: LogEntry)
    requires Tiling(p, start, st) && m in Feed(chain, st.attempts)
    ensures start <= m.block <= st.cursor
    ensures m in chain
  {
    FeedSpec(chain, st.attempts, m);
    var a :| a in st.attempts && Inserts(a, m);
    assert Inserts(a, m);
    AttemptWithin(p, start, st, a);
  }

  /** Only the window itself and, on a border, its neighbour hold a block. */
  lemma WindowsHolding(p: Provider, start: int, turns: seq<Turn>, b: int, i: nat, j: nat)
    requires p.batchSize > 0 && i < |Scan(p, start, turns).attempts| && j < |Scan(p, start, turns).attempts|
    requires Contains(Scan(p, start, turns).attempts[i], b) && Contains(Scan(p, start, turns).attempts[j], b)
    ensures var ws := Scan(p, start, turns).attempts;
            j == i || (j == i + 1 && b == ws[i].to) || (j == i - 1 && b == ws[i].from)
  {
    if j < i {
      BlockInAtMostTwoWindows(p, start, turns, b, j, i);
    } else if i < j {
      BlockInAtMostTwoWindows(p, start, turns, b, i, j);
    }
  }

  lemma BordersShared(p: Provider, start: int, turns: seq<Turn>, i: nat)
    requires p.batchSize > 0 && !SkipsOld(p) && i < |Scan(p, start, turns).attempts|
    ensures var ws := Scan(p, start, turns).attempts;
            && (i + 1 < |ws| ==> Contains(ws[i + 1], ws[i].to))
            && (i > 0 ==> Contains(ws[i - 1], ws[i].from))
  {
    var ws := Scan(p, start, turns).attempts;
    WindowsTile(p, start, turns);
    if i + 1 < |ws| {
      assert Follows(p, ws[i].to, ws[i + 1]) && WellPlaced(p, ws[i + 1]);
    }
    if i > 0 {
      assert Follows(p, ws[i - 1].to, ws[i]) && WellPlaced(p, ws[i - 1]);
    }
  }

  /**
   * Exact loss of blocks without skipping: inside window i a block is fetched iff window i succeeded,
   * on the border of windows i and i + 1 iff either did.
   */
  lemma LossIsPerWindow(p: Provider, start: int, turns: seq<Turn>, i: nat, b: int)
    requires p.batchSize > 0 && !SkipsOld(p) && i < |Scan(p, start, turns).attempts|
    requires Contains(Scan(p, start, turns).attempts[i], b)
    ensures var ws := Scan(p, start, turns).attempts;
            (exists a | a in ws :: a.ok && Contains(a, b))
            <==> || ws[i].ok
                 || (b == ws[i].to && i + 1 < |ws| && ws[i + 1].ok)
                 || (b == ws[i].from && i > 0 && ws[i - 1].ok)
  {
    var ws := Scan(p, start, turns).attempts;
    BordersShared(p, start, turns, i);
    if a :| a in ws && a.ok && Contains(a, b) {
      var k :| 0 <= k < |ws| && ws[k] == a;
      assert Contains(ws[k], b);
      WindowsHolding(p, start, turns, b, i, k);
    }
  }

  /** Exact loss of logs: the same with the outcome of the log's own insert in each window. */
  lemma InsertedPerWindow(p: Provider, start: int, turns: seq<Turn>, i: nat, l: LogEntry)
    requires p.batchSize > 0 && !SkipsOld(p) && i < |Scan(p, start, turns).attempts|
    requires Contains(Scan(p, start, turns).attempts[i], l.block)
    ensures var ws := Scan(p, start, turns).attempts;
            (exists a | a in ws :: Inserts(a, l))
            <==> || (ws[i].ok && l !in ws[i].lost)
                 || (l.block == ws[i].to && i + 1 < |ws| && ws[i + 1].ok && l !in ws[i + 1].lost)
                 || (l.block == ws[i].from && i > 0 && ws[i - 1].ok && l !in ws[i - 1].lost)
  {
    var ws := Scan(p, start, turns).attempts;
    BordersShared(p, start, turns, i);
    assert ws[i].ok && l !in ws[i].lost ==> Inserts(ws[i], l);
    if a :| a in ws && Inserts(a, l) {
      var k :| 0 <= k < |ws| && ws[k] == a;
      assert Inserts(ws[k], l);
      WindowsHolding(p, start, turns, l.block, i, k);
    }
    if l.block == ws[i].to && i + 1 < |ws| && ws[i + 1].ok && l !in ws[i + 1].lost {
      assert Inserts(ws[i + 1], l);
    }
    if l.block == ws[i].from && i > 0 && ws[i - 1].ok && l !in ws[i - 1].lost {
      assert Inserts(ws[i - 1], l);
    }
  }

  /**
   * When a log of window i is handed to the handler again: only by the next window, only from their
   * common border, and, without skipping, always from there once that window is fetched.
   */
  lemma RetriedIffOnBorder(p: Provider, start: int, turns: seq<Turn>, i: nat, l: LogEntry)
    requires p.batchSize > 0 && i < |Scan(p, start, turns).attempts|
    requires Contains(Scan(p, start, turns).attempts[i], l.block)
    ensures var ws := Scan(p, start, turns).attempts;
            (exists j | i < j < |ws| :: ws[j].ok && Contains(ws[j], l.block))
            <==> && l.block == ws[i].to && i + 1 < |ws| && ws[i + 1].ok
                 && (SkipsOld(p) ==> ws[i + 1].from == ws[i].to)
  {
    var ws := Scan(p, start, turns).attempts;
    WindowsTile(p, start, turns);
    if j :| i < j < |ws| && ws[j].ok && Contains(ws[j], l.block) {
      assert Contains(ws[j], l.block);
      BlockInAtMostTwoWindows(p, start, turns, l.block, i, j);
    }
    if i + 1 < |ws| {
      assert Follows(p, ws[i].to, ws[i + 1]) && WellPlaced(p, ws[i + 1]);
    }
  }

  const TEN_AT_A_TIME := Provider(1, 7, 0, 10, Some(false))
  const INNER_LOG := LogEntry(5, 0, 96, "aa", 100, 7, "x")
  const BORDER_LOG := LogEntry(10, 0, 96, "aa", 100, 7, "y")
  const BOTH_REFUSED := Turn(Some(20), true, {INNER_LOG, BORDER_LOG})
  const ALL_WELL := Turn(Some(20), true, {})

  /** Of two logs whose inserts fail in one window, the next window stores the border one, never the other. */
  lemma FailedInsertLosesInnerLog()
    ensures var ws := Scan(TEN_AT_A_TIME, 0, [BOTH_REFUSED, ALL_WELL]).attempts;
            var stored := RowsOf(Feed([INNER_LOG, BORDER_LOG], ws), TEN_AT_A_TIME);
            && stored == {Stored(Handle(BORDER_LOG, TEN_AT_A_TIME).event)}
            && Stored(Handle(INNER_LOG, TEN_AT_A_TIME).event) !in stored
  {
    var chain := [INNER_LOG, BORDER_LOG];
    var a, b := TwoWindows();
    forall l ensures l in Feed(chain, [a, b]) <==> l == BORDER_LOG {
      FeedSpec(chain, [a, b], l);
      assert Inserts(a, l) ==> l !in chain;
      assert Inserts(b, l) && l in chain <==> l == BORDER_LOG;
      assert b in [a, b];
    }
    assert Handle(BORDER_LOG, TEN_AT_A_TIME).event.cid == "y";
    assert Handle(INNER_LOG, TEN_AT_A_TIME).event.cid == "x";
  }

  lemma TwoWindows() returns (a: Attempt, b: Attempt)
    ensures a == Attempt(0, 10, true, {INNER_LOG, BORDER_LOG}, 20) && b == Attempt(10, 20, true, {}, 20)
    ensures Scan(TEN_AT_A_TIME, 0, [BOTH_REFUSED, ALL_WELL]) == ScanState(20, [a, b])
  {
    a, b := Attempt(0, 10, true, {INNER_LOG, BORDER_LOG}, 20), Attempt(10, 20, true, {}, 20);
    var turns := [BOTH_REFUSED, ALL_WELL];
    assert turns[..1] == [BOTH_REFUSED] && [BOTH_REFUSED][..0] == [];
    assert Scan(TEN_AT_A_TIME, 0, [BOTH_REFUSED]) == ScanState(10, [a]);
    assert [a] + [b] == [a, b];
  }

  ghost predicate NoFailure(turns: seq<Turn>) {
    forall t | t in turns :: t.ok && t.lost == {}
  }

  /** Without failures and skipping, paging stores what one query from start to cursor would. */
  lemma PagedScanRefinesOnePass(p: Provider, chain: seq<LogEntry>, start: int, turns: seq<Turn>)
    requires p.batchSize > 0 && !SkipsOld(p) && NoFailure(turns)
    requires Scan(p, start, turns).attempts != []
    ensures var st := Scan(p, start, turns);
            RowsOf(Feed(chain, st.attempts), p) == RowsOf(Fetch(chain, start, st.cursor), p)
  {
    var st := Scan(p, start, turns);
    forall l ensures l in Feed(chain, st.attempts) <==> l in Fetch(chain, start, st.cursor) {
      FedIffInRange(p, chain, start, turns, l);
      FetchSpec(chain, start, st.cursor, l);
    }
  }

  lemma FedIffInRange(p: Provider, chain: seq<LogEntry>, start: int, turns: seq<Turn>, l: LogEntry)
    requires p.batchSize > 0 && !SkipsOld(p) && NoFailure(turns)
    requires Scan(p, start, turns).attempts != []
    ensures l in Feed(chain, Scan(p, start, turns).attempts)
            <==> l in chain && start <= l.block <= Scan(p, start, turns).cursor
  {
    var st := Scan(p, start, turns);
    AllSucceed(p, start, turns);
    WindowsTile(p, start, turns);
    FeedSpec(chain, st.attempts, l);
    if l in chain && start <= l.block <= st.cursor {
      UnattemptedIsGaps(p, start, turns, l.block);
      var a :| a in st.attempts && Contains(a, l.block);
      assert Inserts(a, l);
    }
    if l in Feed(chain, st.attempts) {
      FedBetween(p, chain, start, st, l);
    }
  }

  lemma AttemptWithin(p: Provider, start: int, st: ScanState, a: Attempt)
    requires Tiling(p, start, st) && a in st.attempts
    ensures start <= a.from && a.to <= st.cursor
  {
    var i :| 0 <= i < |st.attempts| && st.attempts[i] == a;
    WindowWithin(p, start, st, i);
  }

  lemma WindowWithin(p: Provider, start: int, st: ScanState, i: nat)
    requires Tiling(p, start, st) && i < |st.attempts|
    ensures start <= st.attempts[i].from && st.attempts[i].to <= st.cursor
  {
    var last := |st.attempts| - 1;
    assert WellPlaced(p, st.attempts[0]) && WellPlaced(p, st.attempts[last]);
    if i > 0 {
      WindowsOrdered(p, start, st, 0, i);
    }
    if i < last {
      WindowsOrdered(p, start, st, i, last);
    }
  }

  lemma {:induction false} AllSucceed(p: Provider, start: int, turns: seq<Turn>)
    requires NoFailure(turns)
    ensures forall a | a in Scan(p, start, turns).attempts :: a.ok && a.lost == {}
  {
    if turns != [] {
      AllSucceed(p, start, turns[..|turns| - 1]);
    }
  }

  // ---- catching up --------------------------------------------------------------------------

  function CeilDiv(a: int, b: int): int
    requires b > 0
  {
    (a + b - 1) / b
  }

  function Times(k: int, b: int): int {
    k * b
  }

  lemma TimesStep(k: int, b: int)
    ensures Times(k, b) == Times(k - 1, b) + b
  {
  }

  lemma CeilDivBounds(a: int, b: int, k: int)
    requires b > 0
    ensures Times(k, b) < a <==> k < CeilDiv(a, b)
  {
    var q := CeilDiv(a, b);
    assert q * b < a + b <= (q + 1) * b;
    if k < q {
      assert k * b <= (q - 1) * b;
    } else {
      assert k * b >= q * b;
    }
  }

  lemma FixedHeadStep(p: Provider, st: ScanState, turn: Turn)
    requires p.batchSize > 0 && !SkipsOld(p) && turn.head.Some? && st.cursor <= turn.head.value as int
    ensures var next, bn := Step(p, st, turn), turn.head.value as int;
            && next.cursor == (if st.cursor + p.batchSize as int < bn then st.cursor + p.batchSize as int else bn)
            && |next.attempts| == |st.attempts| + (if st.cursor < bn then 1 else 0)
  {
  }

  /** Against a fixed head the cursor moves one batch a fetch and needs exactly ceil(distance / batch). */
  lemma {:induction false} CatchUp(p: Provider, start: int, bn: Int64, turns: seq<Turn>)
    requires p.batchSize > 0 && !SkipsOld(p) && start < bn as int
    requires forall t | t in turns :: t.head == Some(bn)
    ensures var st, need := Scan(p, start, turns), CeilDiv(bn as int - start, p.batchSize as int);
            && |st.attempts| == (if |turns| < need then |turns| else need)
            && st.cursor == (if |turns| < need then start + Times(|turns|, p.batchSize as int) else bn as int)
  {
    var batch, k := p.batchSize as int, |turns|;
    CeilDivBounds(bn as int - start, batch, 0);
    if turns != [] {
      assert turns[k - 1] in turns;
      CatchUp(p, start, bn, turns[..k - 1]);
      CeilDivBounds(bn as int - start, batch, k - 1);
      CeilDivBounds(bn as int - start, batch, k);
      TimesStep(k, batch);
      FixedHeadStep(p, Scan(p, start, turns[..k - 1]), turns[k - 1]);
    }
  }
}
