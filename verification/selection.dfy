/** What the queries of the unpin and pin ticks select, stated without their joins. */
module Selection {
  import opened Tables

  /** The LEFT JOIN of the second unpin query filters nothing. */
  lemma JoinFiltersNothing(pinned: set<PinRow>, chain: int, bn: int)
    ensures SingleChainExpired(pinned, chain, bn)
            == set p | p in pinned && p.chain == chain && p.end <= bn && p.end != -1
  {
    forall p | p in pinned && Expired(p, chain, bn) ensures p in SingleChainExpired(pinned, chain, bn) {
      if p2 :| p2 in pinned && p.chain != p2.chain && p.cid != p2.cid {
        assert PinJoin(p, Some(p2)) in PinSelfJoin(pinned);
      } else {
        assert PinJoin(p, None) in PinSelfJoin(pinned);
      }
    }
  }

  /**
   * The two unpin statements split the chain's rows that are past their end and not permanent: dropped if
   * another chain has a row for the cid, returned once each if not. All other rows stay.
   */
  lemma UnpinPartition(pinned: set<PinRow>, chain: int, bn: int, v: seq<PinRow>)
    requires Lists(v, SingleChainExpired(pinned - MultichainExpired(pinned, chain, bn), chain, bn))
    ensures forall p :: p in v
              <==> && p in pinned && p.chain == chain && p.end <= bn && p.end != -1
                   && (forall q | q in pinned && q.cid == p.cid :: q.chain == chain)
    ensures forall p :: p in MultichainExpired(pinned, chain, bn)
              <==> && p in pinned && p.chain == chain && p.end <= bn && p.end != -1
                   && (exists q | q in pinned :: q.cid == p.cid && q.chain != chain)
    ensures NoDuplicates(v) && |v| == |SingleChainExpired(pinned, chain, bn)| - |MultichainExpired(pinned, chain, bn)|
  {
    var rest := pinned - MultichainExpired(pinned, chain, bn);
    JoinFiltersNothing(rest, chain, bn);
    JoinFiltersNothing(pinned, chain, bn);
    var selected := SingleChainExpired(rest, chain, bn);
    assert selected == SingleChainExpired(pinned, chain, bn) - MultichainExpired(pinned, chain, bn);
    assert MultichainExpired(pinned, chain, bn) <= SingleChainExpired(pinned, chain, bn);
    ListSize(v, selected);
    forall p | p in pinned && p.chain == chain
      ensures HeldElsewhere(pinned, p) <==> exists q | q in pinned :: q.cid == p.cid && q.chain != chain
    {
      if q :| q in pinned && q.cid == p.cid && q.chain != chain {
        assert p.chain != q.chain && p.cid == q.cid;
      }
    }
  }

  lemma {:induction false} ListSize<T>(v: seq<T>, s: set<T>)
    requires Lists(v, s)
    ensures |v| == |s|
  {
    if v == [] {
      assert s == {};
    } else {
      var x := v[|v| - 1];
      var w := v[..|v| - 1];
      assert v == w + [x];
      ListSize(w, s - {x});
    }
  }

  /** The multi-chain delete leaves a row of another chain for every cid it touches. */
  lemma MultichainKeepsAHolder(pinned: set<PinRow>, chain: int, bn: int, p: PinRow)
    requires p in MultichainExpired(pinned, chain, bn)
    ensures exists q | q in pinned - MultichainExpired(pinned, chain, bn) :: q.cid == p.cid && q.chain != chain
  {
    var q :| q in pinned && p.chain != q.chain && p.cid == q.cid;
    assert q !in MultichainExpired(pinned, chain, bn);
  }

  ghost predicate HasRow(pinned: set<PinRow>, chain: int, cid: string) {
    exists p | p in pinned :: p.chain == chain && p.cid == cid
  }

  /** n carries the largest end block among the chain's events for its cid that are ahead of bn or permanent. */
  ghost predicate IsActiveMax(n: NewCid, events: set<EventRow>, chain: int, bn: int) {
    && (exists e | e in events ::
          e.chain == chain && (e.end > bn || e.end == -1) && e.cid == n.cid && e.end == n.end)
    && (forall e | e in events && e.chain == chain && (e.end > bn || e.end == -1) && e.cid == n.cid :: e.end <= n.end)
  }

  lemma UnpinnedEventsSpec(events: set<EventRow>, pinned: set<PinRow>, chain: int, bn: int, e: EventRow)
    ensures e in UnpinnedEvents(events, pinned, chain, bn)
            <==> e in events && Active(e, chain, bn) && !HasRow(pinned, chain, e.cid)
  {
    if e in events && Active(e, chain, bn) && !HasRow(pinned, chain, e.cid) {
      assert EventJoin(e, None) in EventPinJoin(events, pinned);
    }
  }

  lemma GroupMaxSpec(events: set<EventRow>, pinned: set<PinRow>, chain: int, bn: int, n: NewCid)
    ensures IsGroupMax(n, UnpinnedEvents(events, pinned, chain, bn))
            <==> !HasRow(pinned, chain, n.cid) && IsActiveMax(n, events, chain, bn)
  {
    forall e {
      UnpinnedEventsSpec(events, pinned, chain, bn, e);
    }
  }

  /** A cid comes back exactly once, with its largest active end block, iff the chain has no row for it. */
  lemma NewCidsSpec(events: set<EventRow>, pinned: set<PinRow>, chain: int, bn: int, v: seq<NewCid>, n: NewCid)
    requires Groups(v, UnpinnedEvents(events, pinned, chain, bn))
    ensures n in v <==> !HasRow(pinned, chain, n.cid) && IsActiveMax(n, events, chain, bn)
    ensures NoDuplicates(v)
  {
    GroupMaxSpec(events, pinned, chain, bn, n);
    GroupsListMaxima(v, UnpinnedEvents(events, pinned, chain, bn), n);
  }

  lemma GroupsListMaxima(v: seq<NewCid>, rows: set<EventRow>, n: NewCid)
    requires Groups(v, rows)
    ensures n in v <==> IsGroupMax(n, rows)
  {
    if IsGroupMax(n, rows) {
      var e :| e in rows && e.cid == n.cid && e.end == n.end;
      assert e.cid in GroupedCids(rows);
      var m :| m in v && m.cid == e.cid;
      assert IsGroupMax(m, rows);
    }
  }
}
