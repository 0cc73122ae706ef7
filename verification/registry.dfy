/** The provider registry: four event streams writing one row behind a single update_block guard. */
module Registry {
  import opened Tables

  datatype ProviderRow = ProviderRow(
    chain: int, updateBlock: int, owner: string, providerId: int, price: int, apiUrl: string, name: string)

  datatype Column = Price(price: int) | ApiUrl(apiUrl: string) | Owner(owner: string) | Name(name: string)

  datatype Update = Update(block: int, column: Column)

  /** The SET list of the four statements. */
  function Write(r: ProviderRow, u: Update): ProviderRow {
    var stamped := r.(updateBlock := u.block);
    match u.column
    case Price(price) => stamped.(price := price)
    case ApiUrl(apiUrl) => stamped.(apiUrl := apiUrl)
    case Owner(owner) => stamped.(owner := owner)
    case Name(name) => stamped.(name := name)
  }

  predicate Matched(r: ProviderRow, chain: int, providerId: int, u: Update) {
    r.updateBlock < u.block && r.providerId == providerId && r.chain == chain
  }

  /** The table after the UPDATE. */
  function Updated(table: set<ProviderRow>, chain: int, providerId: int, u: Update): set<ProviderRow> {
    set r | r in table :: if Matched(r, chain, providerId, u) then Write(r, u) else r
  }

  /** Every column is in the key: two rows must not become one. */
  predicate UpdateConflict(table: set<ProviderRow>, chain: int, providerId: int, u: Update) {
    exists r, s | r in table && s in table :: Merges(r, s, chain, providerId, u)
  }

  predicate Merges(r: ProviderRow, s: ProviderRow, chain: int, providerId: int, u: Update) {
    && r != s && Matched(r, chain, providerId, u)
    && Write(r, u) == (if Matched(s, chain, providerId, u) then Write(s, u) else s)
  }

  /** The statement cannot be carried out exactly if two rows of the table would end up equal. */
  lemma UpdateConflictIff(table: set<ProviderRow>, chain: int, providerId: int, u: Update)
    ensures UpdateConflict(table, chain, providerId, u)
            <==> exists r, s | r in table && s in table ::
                   r != s && After(r, chain, providerId, u) == After(s, chain, providerId, u)
  {
    if r, s :| r in table && s in table && r != s && After(r, chain, providerId, u) == After(s, chain, providerId, u) {
      assert Merges(r, s, chain, providerId, u) || Merges(s, r, chain, providerId, u);
    }
    if r, s :| r in table && s in table && Merges(r, s, chain, providerId, u) {
      assert Merges(r, s, chain, providerId, u);
      assert After(r, chain, providerId, u) == After(s, chain, providerId, u);
    }
  }

  /** What the statement makes of one row: later updates of this provider on this chain are written to it. */
  function After(r: ProviderRow, chain: int, providerId: int, u: Update): ProviderRow {
    if r.chain == chain && r.providerId == providerId && r.updateBlock < u.block then
      match u.column
      case Price(price) => r.(updateBlock := u.block, price := price)
      case ApiUrl(apiUrl) => r.(updateBlock := u.block, apiUrl := apiUrl)
      case Owner(owner) => r.(updateBlock := u.block, owner := owner)
      case Name(name) => r.(updateBlock := u.block, name := name)
    else r
  }

  /** Otherwise it puts what it makes of each row in that row's place. */
  lemma UpdatedSpec(table: set<ProviderRow>, chain: int, providerId: int, u: Update, q: ProviderRow)
    ensures q in Updated(table, chain, providerId, u)
            <==> exists r | r in table :: q == After(r, chain, providerId, u)
  {
    if r :| r in table && q == After(r, chain, providerId, u) {
      assert q == if Matched(r, chain, providerId, u) then Write(r, u) else r;
    }
  }

  /** What an update statement answers and leaves behind. */
  ghost predicate ProviderStatement(before: set<ProviderRow>, after: set<ProviderRow>,
                                    chain: int, providerId: int, u: Update, r: Outcome)
  {
    if UpdateConflict(before, chain, providerId, u) then r == KeyConflict && after == before
    else && after == Updated(before, chain, providerId, u)
         && r == Done(|set p | p in before && Matched(p, chain, providerId, u)|)
  }

  /** It fails, changing nothing, exactly if two rows would meet, and else treats every row on its own. */
  lemma StatementSpec(before: set<ProviderRow>, after: set<ProviderRow>,
                      chain: int, providerId: int, u: Update, r: Outcome)
    requires ProviderStatement(before, after, chain, providerId, u, r)
    ensures r.KeyConflict? <==> exists p, q | p in before && q in before ::
                                  p != q && After(p, chain, providerId, u) == After(q, chain, providerId, u)
    ensures r.KeyConflict? ==> after == before
    ensures r.Done? ==> forall q :: q in after <==> exists p | p in before :: q == After(p, chain, providerId, u)
    ensures r.Done? ==> r.rows == |set p | p in before && After(p, chain, providerId, u) != p|
  {
    UpdateConflictIff(before, chain, providerId, u);
    forall q {
      UpdatedSpec(before, chain, providerId, u, q);
    }
    assert (set p | p in before && After(p, chain, providerId, u) != p)
        == set p | p in before && Matched(p, chain, providerId, u);
  }

  /** r is the only row of this chain and provider. */
  ghost predicate OnlyRow(table: set<ProviderRow>, chain: int, providerId: int, r: ProviderRow) {
    r in table && forall s | s in table :: s.chain == chain && s.providerId == providerId <==> s == r
  }

  ghost function DeliverAll(table: set<ProviderRow>, chain: int, providerId: int, us: seq<Update>)
    : set<ProviderRow>
  {
    if us == [] then table
    else Updated(DeliverAll(table, chain, providerId, us[..|us| - 1]), chain, providerId, us[|us| - 1])
  }

  /** What one row becomes under a sequence of guarded updates. */
  function Deliver(r: ProviderRow, us: seq<Update>): ProviderRow {
    if us == [] then r
    else
      var before := Deliver(r, us[..|us| - 1]);
      if before.updateBlock < us[|us| - 1].block then Write(before, us[|us| - 1]) else before
  }

  /** Unguarded writes, in order. */
  function WriteAll(r: ProviderRow, us: seq<Update>): ProviderRow {
    if us == [] then r else Write(WriteAll(r, us[..|us| - 1]), us[|us| - 1])
  }

  /** Update i is later than the starting block and than everything delivered before it. */
  predicate IsRecord(start: int, us: seq<Update>, i: nat)
    requires i < |us|
  {
    start < us[i].block && forall j | 0 <= j < i :: us[j].block < us[i].block
  }

  /** The strict left-to-right maxima of the delivered block numbers. */
  function Records(start: int, us: seq<Update>): seq<Update> {
    if us == [] then []
    else
      Records(start, us[..|us| - 1]) + if IsRecord(start, us, |us| - 1) then [us[|us| - 1]] else []
  }

  /** With one row for the provider a statement acts on that row alone and does not break the key. */
  lemma OneUpdate(table: set<ProviderRow>, chain: int, providerId: int, r: ProviderRow, u: Update)
    requires OnlyRow(table, chain, providerId, r)
    ensures Updated(table, chain, providerId, u)
            == table - {r} + {if r.updateBlock < u.block then Write(r, u) else r}
    ensures !UpdateConflict(table, chain, providerId, u)
  {
    assert forall s | s in table && s != r :: !Matched(s, chain, providerId, u);
    assert table == table - {r} + {r};
  }

  lemma ReplaceOnlyRow(table: set<ProviderRow>, chain: int, providerId: int, r: ProviderRow, s: ProviderRow)
    requires OnlyRow(table, chain, providerId, r) && s.chain == chain && s.providerId == providerId
    ensures OnlyRow(table - {r} + {s}, chain, providerId, s)
    ensures table - {r} + {s} - {s} == table - {r}
  {
    assert s !in table - {r};
  }

  /** So a whole delivery changes that row as Deliver says, and no other. */
  lemma {:induction false} DeliveryTouchesOneRow(table: set<ProviderRow>, chain: int, providerId: int,
                                                 r: ProviderRow, us: seq<Update>)
    requires OnlyRow(table, chain, providerId, r)
    ensures DeliverAll(table, chain, providerId, us) == table - {r} + {Deliver(r, us)}
    ensures OnlyRow(DeliverAll(table, chain, providerId, us), chain, providerId, Deliver(r, us))
  {
    KeepsIdentity(r, us);
    ReplaceOnlyRow(table, chain, providerId, r, Deliver(r, us));
    if us == [] {
      assert table == table - {r} + {r};
    } else {
      var front := us[..|us| - 1];
      DeliveryTouchesOneRow(table, chain, providerId, r, front);
      KeepsIdentity(r, front);
      ReplaceOnlyRow(table, chain, providerId, r, Deliver(r, front));
      OneUpdate(DeliverAll(table, chain, providerId, front), chain, providerId, Deliver(r, front), us[|us| - 1]);
    }
  }

  lemma {:induction false} HighestBlock(r: ProviderRow, us: seq<Update>)
    ensures r.updateBlock <= Deliver(r, us).updateBlock
    ensures forall u | u in us :: u.block <= Deliver(r, us).updateBlock
    ensures Deliver(r, us).updateBlock == r.updateBlock
            || exists u | u in us :: u.block == Deliver(r, us).updateBlock
  {
    if us != [] {
      HighestBlock(r, us[..|us| - 1]);
      assert us == us[..|us| - 1] + [us[|us| - 1]];
    }
  }

  /** An update passes its guard exactly when it is a strict left-to-right maximum. */
  lemma AppliedIffRecord(r: ProviderRow, us: seq<Update>, i: nat)
    requires i < |us|
    ensures Matched(Deliver(r, us[..i]), r.chain, r.providerId, us[i]) <==> IsRecord(r.updateBlock, us, i)
  {
    HighestBlock(r, us[..i]);
    KeepsIdentity(r, us[..i]);
    var seen := Deliver(r, us[..i]).updateBlock;
    assert forall j | 0 <= j < i :: us[j] in us[..i];
  }

  lemma {:induction false} KeepsIdentity(r: ProviderRow, us: seq<Update>)
    ensures Deliver(r, us).chain == r.chain && Deliver(r, us).providerId == r.providerId
  {
    if us != [] {
      KeepsIdentity(r, us[..|us| - 1]);
    }
  }

  /** The row ends up as if only the strict left-to-right maxima had been sent, unguarded. */
  lemma {:induction false} DeliverWritesRecords(r: ProviderRow, us: seq<Update>)
    ensures Deliver(r, us) == WriteAll(r, Records(r.updateBlock, us))
  {
    if us != [] {
      var n := |us| - 1;
      DeliverWritesRecords(r, us[..n]);
      AppliedIffRecord(r, us, n);
      KeepsIdentity(r, us[..n]);
      var records := Records(r.updateBlock, us);
      if IsRecord(r.updateBlock, us, n) {
        assert records[..|records| - 1] == Records(r.updateBlock, us[..n]);
      } else {
        assert records == Records(r.updateBlock, us[..n]);
      }
    }
  }

  /** In strictly increasing delivery every update counts. */
  lemma {:induction false} IncreasingDeliveryFoldsLog(r: ProviderRow, us: seq<Update>)
    requires forall i | 0 <= i < |us| :: r.updateBlock < us[i].block
    requires forall i, j | 0 <= i < j < |us| :: us[i].block < us[j].block
    ensures Records(r.updateBlock, us) == us
    ensures Deliver(r, us) == WriteAll(r, us)
  {
    if us != [] {
      IncreasingDeliveryFoldsLog(r, us[..|us| - 1]);
      assert us == us[..|us| - 1] + [us[|us| - 1]];
      assert IsRecord(r.updateBlock, us, |us| - 1);
    }
    DeliverWritesRecords(r, us);
  }

  /** Sending anything already delivered again, in any order and number, changes nothing. */
  lemma {:induction false} RedeliveryIsIdempotent(r: ProviderRow, us: seq<Update>, again: seq<Update>)
    requires forall u | u in again :: u in us
    ensures Deliver(r, us + again) == Deliver(r, us)
  {
    if again == [] {
      assert us + again == us;
    } else {
      var n := |again| - 1;
      assert again[n] in again;
      RedeliveryIsIdempotent(r, us, again[..n]);
      assert (us + again)[..|us + again| - 1] == us + again[..n];
      HighestBlock(r, us);
    }
  }

  predicate SameColumn(c: Column, d: Column) {
    (c.Price? && d.Price?) || (c.ApiUrl? && d.ApiUrl?) || (c.Owner? && d.Owner?) || (c.Name? && d.Name?)
  }

  predicate Holds(r: ProviderRow, c: Column) {
    match c
    case Price(price) => r.price == price
    case ApiUrl(apiUrl) => r.apiUrl == apiUrl
    case Owner(owner) => r.owner == owner
    case Name(name) => r.name == name
  }

  /** Each column ends up with its last applied write, or as it was if none was applied. */
  lemma {:induction false} LastWriterPerColumn(r: ProviderRow, us: seq<Update>, c: Column, last: int)
    requires -1 <= last < |us|
    requires last >= 0 ==> IsRecord(r.updateBlock, us, last) && us[last].column == c
    requires forall j | last < j < |us| && IsRecord(r.updateBlock, us, j) :: !SameColumn(us[j].column, c)
    ensures Holds(Deliver(r, us), c) <==> (last >= 0 || Holds(r, c))
  {
    if us != [] {
      var n := |us| - 1;
      AppliedIffRecord(r, us, n);
      KeepsIdentity(r, us[..n]);
      if last < n {
        var front := us[..n];
        forall j | 0 <= j < n ensures IsRecord(r.updateBlock, front, j) <==> IsRecord(r.updateBlock, us, j) {
        }
        LastWriterPerColumn(r, front, c, last);
      }
    }
  }
}
