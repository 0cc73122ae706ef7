/** Contract logs, the providers they are meant for, and the UpdateValidBlock handler. */
module Logs {
  import opened Tables

  newtype Int64 = x: int | -0x8000_0000_0000_0000 <= x < 0x8000_0000_0000_0000

  const TWO_TO_THE_63: int := 0x8000_0000_0000_0000
  const TWO_TO_THE_64: int := 0x1_0000_0000_0000_0000

  /** What as_u64() returns; larger numbers make it panic and are not part of this model. */
  type U64 = x: int | 0 <= x < TWO_TO_THE_64

  /** A log with its ABI fields already decoded; index tells logs of one block apart. */
  datatype LogEntry = LogEntry(
    block: U64, index: nat, dataLen: nat, donor: string, endBlock: U64, providerId: U64, cid: string)

  datatype Provider = Provider(
    chain: int, providerId: int, startBlock: Int64, batchSize: Int64, skipOld: Option<bool>)

  /** The cast from u64 to i64: large values wrap, the largest one to the permanent mark. */
  function AsI64(x: U64): int {
    if x < TWO_TO_THE_63 then x else x - TWO_TO_THE_64
  }

  /** The cast keeps all 64 bits, so it is one to one onto the i64 range. */
  lemma AsI64Spec(x: U64, y: U64)
    ensures -TWO_TO_THE_63 <= AsI64(x) < TWO_TO_THE_63
    ensures (x - AsI64(x)) % TWO_TO_THE_64 == 0
    ensures AsI64(x) == AsI64(y) <==> x == y
    ensures AsI64(x) == PERMANENT <==> x == TWO_TO_THE_64 - 1
  {
  }

  datatype Handled = ShortData | OtherProvider | Accepted(event: EventRow)

  function Handle(l: LogEntry, p: Provider): Handled {
    if l.dataLen < 96 then ShortData
    else if AsI64(l.providerId) != p.providerId then OtherProvider
    else Accepted(EventRow(p.chain, l.cid, "0x" + l.donor, AsI64(l.block), AsI64(l.endBlock), false))
  }

  /** Event e says, column by column, what log l says to provider p. */
  predicate Describes(e: EventRow, l: LogEntry, p: Provider) {
    && l.dataLen >= 96 && AsI64(l.providerId) == p.providerId
    && e.chain == p.chain && e.cid == l.cid && e.donor == Lower("0x" + l.donor)
    && e.updateBlock == AsI64(l.block) && e.end == AsI64(l.endBlock) && !e.manualAdd
  }

  /** What becomes of a log, in terms of its fields alone. */
  lemma HandleSpec(l: LogEntry, p: Provider, e: EventRow)
    ensures Handle(l, p).ShortData? <==> l.dataLen < 96
    ensures Handle(l, p).OtherProvider? <==> l.dataLen >= 96 && AsI64(l.providerId) != p.providerId
    ensures e in RowsOf([l], p) <==> Describes(e, l, p)
  {
    assert [l][0] == l;
    assert Handle(l, p).Accepted? ==> Stored(Handle(l, p).event) in RowsOf([l], p);
  }

  /** The rows a sequence of logs leaves in the event table. */
  function RowsOf(logs: seq<LogEntry>, p: Provider): set<EventRow> {
    set l | l in logs && Handle(l, p).Accepted? :: Stored(Handle(l, p).event)
  }

  /** They are exactly the rows that some log describes. */
  lemma RowsOfSpec(logs: seq<LogEntry>, p: Provider, e: EventRow)
    ensures e in RowsOf(logs, p) <==> exists l | l in logs :: Describes(e, l, p)
  {
    if l :| l in logs && Describes(e, l, p) {
      assert Handle(l, p).Accepted? && Stored(Handle(l, p).event) == e;
    }
  }

  lemma RowsOfAppend(a: seq<LogEntry>, b: seq<LogEntry>, p: Provider)
    ensures RowsOf(a + b, p) == RowsOf(a, p) + RowsOf(b, p)
  {
  }
}
