/** The rows of the service's tables and, statement by statement, what each SQL query selects. */
module Tables {
  datatype Option<+T> = None | Some(value: T)

  /** Outcome of an SQL statement that can break a primary key. */
  datatype Outcome = Done(rows: nat) | KeyConflict

  // Every column of these three tables belongs to the primary key, so a table is a set of rows.
  datatype EventRow = EventRow(
    chain: int, cid: string, donor: string, updateBlock: int, end: int, manualAdd: bool)

  datatype PinRow = PinRow(chain: int, node: string, cid: string, end: int)

  /** One row of the new-CID query. */
  datatype NewCid = NewCid(cid: string, end: int)

  /** The end block that some predicates read as "for ever". */
  const PERMANENT := -1

  predicate SameCopy(p: PinRow, q: PinRow) {
    p.chain == q.chain && p.node == q.node && p.cid == q.cid
  }

  predicate NoDuplicates<T(==)>(v: seq<T>) {
    forall i, j | 0 <= i < j < |v| :: v[i] != v[j]
  }

  /** A query result: the rows of a set, each once, in some order. */
  predicate Lists<T(==)>(v: seq<T>, s: set<T>) {
    && NoDuplicates(v)
    && (forall x | x in v :: x in s)
    && (forall x | x in s :: x in v)
  }

  /** SQL's LOWER on the ASCII hex digits of an address. */
  function Lower(s: string): string {
    seq(|s|, i requires 0 <= i < |s| => if 'A' <= s[i] <= 'Z' then (s[i] as int + 32) as char else s[i])
  }

  /** t is s with every letter from A to Z replaced by its small form, 32 places on, and nothing else changed. */
  predicate SmallForm(s: string, t: string) {
    && |t| == |s|
    && (forall i | 0 <= i < |s| :: if 'A' <= s[i] <= 'Z' then t[i] as int == s[i] as int + 32 else t[i] == s[i])
  }

  /** The lower-casing leaves no capital letter and is idempotent. */
  lemma LowerSpec(s: string)
    ensures SmallForm(s, Lower(s))
    ensures forall c | c in Lower(s) :: !('A' <= c <= 'Z')
    ensures Lower(Lower(s)) == Lower(s)
  {
    assert forall i | 0 <= i < |s| :: !('A' <= Lower(s)[i] <= 'Z');
  }

  /** The row an insert stores for an event. */
  function Stored(e: EventRow): EventRow {
    e.(donor := Lower(e.donor))
  }

  function MaxOf(s: set<int>): (m: int)
    requires s != {}
    ensures m in s && forall x | x in s :: x <= m
  {
    MaxExists(s);
    var m :| m in s && forall x | x in s :: x <= m;
    m
  }

  lemma Inhabited(s: set<int>)
    ensures s == {} || exists x :: x in s
  {
    if forall x :: x !in s {
      assert s == {};
    }
  }

  lemma {:induction false} MaxWitness(s: set<int>) returns (m: int)
    requires s != {}
    ensures m in s && forall x | x in s :: x <= m
    decreases |s|
  {
    Inhabited(s);
    m :| m in s;
    var rest := s - {m};
    assert s == rest + {m};
    if rest != {} {
      var n := MaxWitness(rest);
      if m < n {
        m := n;
      }
    }
  }

  lemma MaxExists(s: set<int>)
    requires s != {}
    ensures exists m | m in s :: forall x | x in s :: x <= m
  {
    var m := MaxWitness(s);
  }

  /** SELECT MAX(update_block): NULL, read as an error by the caller, for a chain without events. */
  function MaxUpdateBlock(events: set<EventRow>, chain: int): (r: Option<int>)
    ensures r.None? <==> forall e | e in events :: e.chain != chain
    ensures forall e | e in events && e.chain == chain :: r.Some? && e.updateBlock <= r.value
    ensures r.Some? ==> exists e | e in events :: e.chain == chain && e.updateBlock == r.value
  {
    var blocks := set e | e in events && e.chain == chain :: e.updateBlock;
    assert forall e | e in events && e.chain == chain :: e.updateBlock in blocks;
    if blocks == {} then None else Some(MaxOf(blocks))
  }

  // ---- unpin tick -------------------------------------------------------------------------

  predicate Expired(p: PinRow, chain: int, bn: int) {
    p.chain == chain && p.end <= bn && p.end != PERMANENT
  }

  predicate HeldElsewhere(pinned: set<PinRow>, p: PinRow) {
    exists p2 | p2 in pinned :: p.chain != p2.chain && p.cid == p2.cid
  }

  /** The rows DELETE ... USING drops: expired here, and the cid has a row of another chain. */
  function MultichainExpired(pinned: set<PinRow>, chain: int, bn: int): set<PinRow> {
    set p | p in pinned && Expired(p, chain, bn) && HeldElsewhere(pinned, p)
  }

  datatype PinJoin = PinJoin(left: PinRow, right: Option<PinRow>)

  /** pinned_cids LEFT JOIN pinned_cids on another chain and another cid. */
  function PinSelfJoin(pinned: set<PinRow>): set<PinJoin> {
    (set p1, p2 | p1 in pinned && p2 in pinned && p1.chain != p2.chain && p1.cid != p2.cid
      :: PinJoin(p1, Some(p2)))
    + (set p1 | p1 in pinned && (forall p2 | p2 in pinned :: p1.chain == p2.chain || p1.cid == p2.cid)
      :: PinJoin(p1, None))
  }

  function SingleChainExpired(pinned: set<PinRow>, chain: int, bn: int): set<PinRow> {
    set j | j in PinSelfJoin(pinned) && Expired(j.left, chain, bn) :: j.left
  }

  // ---- pin tick ---------------------------------------------------------------------------

  /** The end blocks the renewal UPDATE may write into row p. */
  function Choices(p: PinRow, events: set<EventRow>, chain: int, bn: int): set<int> {
    set e | e in events && e.chain == p.chain && p.cid == e.cid && p.end < e.end
            && e.end > bn && e.chain == chain :: e.end
  }

  predicate RenewsTo(p: PinRow, q: PinRow, events: set<EventRow>, chain: int, bn: int) {
    var choices := Choices(p, events, chain, bn);
    if choices == {} then q == p else SameCopy(p, q) && q.end in choices
  }

  ghost predicate Injective<X, Y>(m: map<X, Y>) {
    forall x, y | x in m && y in m && m[x] == m[y] :: x == y
  }

  /** A successful UPDATE ... FROM: each matched row takes one of its matches, keys stay unique. */
  ghost predicate IsRenewal(image: map<PinRow, PinRow>, pinned: set<PinRow>,
                            events: set<EventRow>, chain: int, bn: int) {
    && image.Keys == pinned
    && Injective(image)
    && (forall p | p in pinned :: RenewsTo(p, image[p], events, chain, bn))
  }

  /** Two rows of one copy can meet while the UPDATE runs, so it can break the key. */
  predicate RenewalConflict(pinned: set<PinRow>, events: set<EventRow>, chain: int, bn: int) {
    exists p, q | p in pinned && q in pinned :: Collide(p, q, events, chain, bn)
  }

  predicate Collide(p: PinRow, q: PinRow, events: set<EventRow>, chain: int, bn: int) {
    && p != q && SameCopy(p, q)
    && (exists e | e in Choices(p, events, chain, bn) :: e == q.end || e in Choices(q, events, chain, bn))
  }

  datatype EventJoin = EventJoin(event: EventRow, pin: Option<PinRow>)

  /** event_update_valid_block LEFT JOIN pinned_cids on chain and cid. */
  function EventPinJoin(events: set<EventRow>, pinned: set<PinRow>): set<EventJoin> {
    (set e, p | e in events && p in pinned && e.chain == p.chain && e.cid == p.cid
      :: EventJoin(e, Some(p)))
    + (set e | e in events && (forall p | p in pinned :: e.chain != p.chain || e.cid != p.cid)
      :: EventJoin(e, None))
  }

  predicate Active(e: EventRow, chain: int, bn: int) {
    e.chain == chain && (e.end > bn || e.end == PERMANENT)
  }

  /** The rows of the anti-join before grouping. */
  function UnpinnedEvents(events: set<EventRow>, pinned: set<PinRow>, chain: int, bn: int): set<EventRow> {
    set j | j in EventPinJoin(events, pinned) && Active(j.event, chain, bn) && j.pin.None? :: j.event
  }

  predicate IsGroupMax(n: NewCid, rows: set<EventRow>) {
    && (exists e | e in rows :: e.cid == n.cid && e.end == n.end)
    && (forall e | e in rows && e.cid == n.cid :: e.end <= n.end)
  }

  function GroupMax(rows: set<EventRow>, cid: string): (n: NewCid)
    requires cid in GroupedCids(rows)
    ensures n.cid == cid && IsGroupMax(n, rows)
  {
    var ends := set e | e in rows && e.cid == cid :: e.end;
    assert forall e | e in rows && e.cid == cid :: e.end in ends;
    NewCid(cid, MaxOf(ends))
  }

  /** GROUP BY cid with MAX(end_block), in any order. */
  predicate Groups(v: seq<NewCid>, rows: set<EventRow>) {
    && (forall i, j | 0 <= i < j < |v| :: v[i].cid != v[j].cid)
    && (forall n | n in v :: IsGroupMax(n, rows))
    && GroupedCids(rows) <= ListedCids(v)
  }

  function GroupedCids(rows: set<EventRow>): set<string> {
    set e | e in rows :: e.cid
  }

  function ListedCids(v: seq<NewCid>): set<string> {
    set n | n in v :: n.cid
  }

  // ---- retry tick -------------------------------------------------------------------------

  // Unlike Expired, these two predicates give the permanent mark no special meaning.
  function PurgedFailures(failed: set<PinRow>, chain: int, bn: int): set<PinRow> {
    set p | p in failed && p.end <= bn && p.chain == chain
  }

  function LiveFailures(failed: set<PinRow>, chain: int, bn: int): set<PinRow> {
    set p | p in failed && p.end > bn && p.chain == chain
  }
}
