/** What repeated renewal of the pinned rows achieves, whichever matching event each row takes. */
module Renewal {
  import opened Tables

  ghost predicate OneRowPerCopy(pinned: set<PinRow>) {
    forall p, q | p in pinned && q in pinned && SameCopy(p, q) :: p == q
  }

  /** The distinct end blocks still ahead of the head on this chain. */
  function LiveEnds(events: set<EventRow>, chain: int, bn: int): set<int> {
    set e | e in events && e.chain == chain && e.end > bn :: e.end
  }

  ghost predicate Settled(pinned: set<PinRow>, events: set<EventRow>, chain: int, bn: int) {
    forall p | p in pinned :: Choices(p, events, chain, bn) == {}
  }

  /** No pinned row stands alone: each end block was written from an event of the same chain and cid. */
  ghost predicate FromEvents(pinned: set<PinRow>, events: set<EventRow>) {
    forall p | p in pinned :: exists e | e in events :: e.chain == p.chain && e.cid == p.cid && e.end == p.end
  }

  /** With one row per copy the UPDATE cannot break the key, and it keeps one row per copy. */
  lemma RenewalKeepsKey(pinned: set<PinRow>, events: set<EventRow>, chain: int, bn: int,
                        image: map<PinRow, PinRow>)
    requires OneRowPerCopy(pinned)
    ensures !RenewalConflict(pinned, events, chain, bn)
    ensures IsRenewal(image, pinned, events, chain, bn) ==> OneRowPerCopy(image.Values)
    ensures image.Keys == pinned && (forall p | p in pinned :: RenewsTo(p, image[p], events, chain, bn))
            ==> IsRenewal(image, pinned, events, chain, bn)
  {
    if image.Keys == pinned && forall p | p in pinned :: RenewsTo(p, image[p], events, chain, bn) {
      forall p, q | p in pinned && q in pinned && SameCopy(image[p], image[q]) ensures p == q {
        assert SameCopy(p, q);
      }
    }
  }

  ghost predicate Twins(pinned: set<PinRow>, chain: int, p: PinRow, q: PinRow) {
    p in pinned && q in pinned && SameCopy(p, q) && p.chain == chain && p.end < q.end
  }

  /** Exactly when the UPDATE can fail: a copy has two rows and a live event ending at or past the longer one. */
  lemma ConflictIff(pinned: set<PinRow>, events: set<EventRow>, chain: int, bn: int)
    ensures RenewalConflict(pinned, events, chain, bn)
            <==> exists p, q, e | e in events :: Twins(pinned, chain, p, q)
                   && e.chain == chain && e.cid == q.cid && q.end <= e.end && bn < e.end
  {
    if RenewalConflict(pinned, events, chain, bn) {
      var p, q :| p in pinned && q in pinned && Collide(p, q, events, chain, bn);
      assert Collide(p, q, events, chain, bn);
      var end :| end in Choices(p, events, chain, bn) && (end == q.end || end in Choices(q, events, chain, bn));
      var e :| e in events && e.chain == chain && e.cid == p.cid && e.end == end && bn < end;
      assert Twins(pinned, chain, p, q) || Twins(pinned, chain, q, p);
    }
    if p, q, e :| e in events && Twins(pinned, chain, p, q)
                  && e.chain == chain && e.cid == q.cid && q.end <= e.end && bn < e.end {
      assert Twins(pinned, chain, p, q);
      assert e.end in Choices(p, events, chain, bn);
      assert e.end > q.end ==> e.end in Choices(q, events, chain, bn);
      assert Collide(p, q, events, chain, bn);
    }
  }

  /** So there is a head at which it can fail exactly when some copy of the chain has two rows. */
  lemma ConflictAtSomeHeadIff(pinned: set<PinRow>, events: set<EventRow>, chain: int)
    requires FromEvents(pinned, events)
    ensures (exists bn :: RenewalConflict(pinned, events, chain, bn)) <==> exists p, q :: Twins(pinned, chain, p, q)
  {
    if bn :| RenewalConflict(pinned, events, chain, bn) {
      ConflictIff(pinned, events, chain, bn);
    }
    if p, q :| Twins(pinned, chain, p, q) {
      assert Twins(pinned, chain, p, q);
      var e :| e in events && e.chain == q.chain && e.cid == q.cid && e.end == q.end;
      ConflictIff(pinned, events, chain, q.end - 1);
      assert RenewalConflict(pinned, events, chain, q.end - 1);
    }
  }

  /** A row whose only live end block is that of another row of its copy makes every renewal fail. */
  lemma TwinBlocksRenewal(pinned: set<PinRow>, events: set<EventRow>, chain: int, bn: int,
                          p: PinRow, q: PinRow, image: map<PinRow, PinRow>)
    requires p in pinned && q in pinned && p != q && SameCopy(p, q) && Choices(p, events, chain, bn) == {q.end}
    ensures RenewalConflict(pinned, events, chain, bn) && !IsRenewal(image, pinned, events, chain, bn)
  {
    assert q.end in Choices(p, events, chain, bn);
    assert Collide(p, q, events, chain, bn);
    assert Choices(q, events, chain, bn) <= Choices(p, events, chain, bn);
    if image.Keys == pinned && forall r | r in pinned :: RenewsTo(r, image[r], events, chain, bn) {
      assert RenewsTo(p, image[p], events, chain, bn) && RenewsTo(q, image[q], events, chain, bn);
      assert image[p] == q == image[q];
      assert !Injective(image);
    }
  }

  /** A renewed row has strictly fewer live end blocks above it than the row it replaces. */
  lemma RenewalShrinksChoices(p: PinRow, q: PinRow, events: set<EventRow>, chain: int, bn: int)
    requires RenewsTo(p, q, events, chain, bn)
    ensures p != q ==> Choices(q, events, chain, bn) < Choices(p, events, chain, bn)
    ensures p != q ==> |Choices(q, events, chain, bn)| < |Choices(p, events, chain, bn)|
    ensures p == q <==> Choices(p, events, chain, bn) == {}
  {
    if p != q {
      var before, after := Choices(p, events, chain, bn), Choices(q, events, chain, bn);
      assert q.end in before && q.end !in after;
      assert after <= before;
      ProperSubsetSmaller(after, before);
    }
  }

  lemma ProperSubsetSmaller(a: set<int>, b: set<int>)
    requires a < b
    ensures |a| < |b|
  {
    assert b == a + (b - a);
    assert b - a != {} by {
      assert b - a == {} ==> b == a + {} == a;
    }
  }

  lemma SubsetSize(a: set<int>, b: set<int>)
    requires a <= b
    ensures |a| <= |b|
  {
    assert b == a + (b - a);
  }

  /** Tables before, between and after a sequence of renewals over fixed events and head. */
  ghost predicate Renewals(tables: seq<set<PinRow>>, events: set<EventRow>, chain: int, bn: int) {
    && |tables| > 0
    && (forall i | 0 < i < |tables| :: Renewed(tables[i - 1], tables[i], events, chain, bn))
  }

  ghost predicate Renewed(before: set<PinRow>, after: set<PinRow>, events: set<EventRow>, chain: int, bn: int) {
    exists image :: IsRenewal(image, before, events, chain, bn) && after == image.Values
  }

  lemma Origin(before: set<PinRow>, after: set<PinRow>, events: set<EventRow>, chain: int, bn: int, p: PinRow)
    returns (o: PinRow)
    requires Renewed(before, after, events, chain, bn) && p in after
    ensures o in before && RenewsTo(o, p, events, chain, bn)
  {
    var image :| IsRenewal(image, before, events, chain, bn) && after == image.Values;
    o :| o in image && image[o] == p;
  }

  /** After k renewals no row has more than |live ends| - k choices left. */
  lemma {:induction false} ChoicesRunOut(tables: seq<set<PinRow>>, events: set<EventRow>,
                                         chain: int, bn: int, p: PinRow)
    requires Renewals(tables, events, chain, bn)
    requires p in tables[|tables| - 1]
    ensures Choices(p, events, chain, bn) != {} ==>
              |Choices(p, events, chain, bn)| + (|tables| - 1) <= |LiveEnds(events, chain, bn)|
  {
    if |tables| == 1 {
      SubsetSize(Choices(p, events, chain, bn), LiveEnds(events, chain, bn));
    } else {
      var prev := tables[..|tables| - 1];
      var k := |tables| - 2;
      assert Renewed(tables[k], tables[k + 1], events, chain, bn);
      var o := Origin(tables[k], tables[k + 1], events, chain, bn, p);
      ChoicesRunOut(prev, events, chain, bn, o);
      RenewalShrinksChoices(o, p, events, chain, bn);
    }
  }

  /** Repeating the UPDATE as often as there are live end blocks always settles the table ... */
  lemma RenewalConverges(tables: seq<set<PinRow>>, events: set<EventRow>, chain: int, bn: int)
    requires Renewals(tables, events, chain, bn)
    requires |tables| > |LiveEnds(events, chain, bn)|
    ensures Settled(tables[|tables| - 1], events, chain, bn)
  {
    forall p | p in tables[|tables| - 1] ensures Choices(p, events, chain, bn) == {} {
      ChoicesRunOut(tables, events, chain, bn, p);
    }
  }

  /** ... a settled table is exactly one the UPDATE leaves alone ... */
  lemma SettledIsFixedPoint(pinned: set<PinRow>, events: set<EventRow>, chain: int, bn: int,
                            image: map<PinRow, PinRow>)
    requires IsRenewal(image, pinned, events, chain, bn)
    ensures Settled(pinned, events, chain, bn) <==> (forall p | p in pinned :: image[p] == p)
  {
    forall p | p in pinned ensures Choices(p, events, chain, bn) == {} <==> image[p] == p {
      RenewalShrinksChoices(p, image[p], events, chain, bn);
    }
  }

  /** ... and there every row whose cid has a live event carries the largest live end block. */
  lemma SettledCarriesMaximum(pinned: set<PinRow>, events: set<EventRow>, chain: int, bn: int,
                              p: PinRow, live: EventRow)
    requires Settled(pinned, events, chain, bn) && FromEvents(pinned, events)
    requires p in pinned && p.chain == chain
    requires live in events && live.chain == chain && live.cid == p.cid && live.end > bn
    ensures live.end <= p.end
    ensures exists e | e in events :: e.chain == chain && e.cid == p.cid && e.end == p.end && e.end > bn
  {
    assert p.end < live.end ==> live.end in Choices(p, events, chain, bn);
  }

  /** Renewal only moves end blocks, and every written one comes from an event. */
  lemma RenewalKeepsProvenance(pinned: set<PinRow>, events: set<EventRow>, chain: int, bn: int,
                               image: map<PinRow, PinRow>)
    requires IsRenewal(image, pinned, events, chain, bn) && FromEvents(pinned, events)
    ensures FromEvents(image.Values, events)
  {
    forall q | q in image.Values
      ensures exists e | e in events :: e.chain == q.chain && e.cid == q.cid && e.end == q.end
    {
      var p :| p in image && image[p] == q;
      if q != p {
        assert q.end in Choices(p, events, chain, bn);
      }
    }
  }

  lemma {:induction false} RenewalsKeepProvenance(tables: seq<set<PinRow>>, events: set<EventRow>,
                                                  chain: int, bn: int)
    requires Renewals(tables, events, chain, bn) && FromEvents(tables[0], events)
    ensures FromEvents(tables[|tables| - 1], events)
  {
    var k := |tables| - 1;
    if k > 0 {
      RenewalsKeepProvenance(tables[..k], events, chain, bn);
      assert Renewed(tables[k - 1], tables[k], events, chain, bn);
      var image :| IsRenewal(image, tables[k - 1], events, chain, bn) && tables[k] == image.Values;
      RenewalKeepsProvenance(tables[k - 1], events, chain, bn, image);
    }
  }

  /**
   * Whichever matches the rows take: as many renewals as there are live end blocks give every row whose cid
   * has a live event the largest end block any event of the chain has for that cid.
   */
  lemma RenewalReachesMaximum(tables: seq<set<PinRow>>, events: set<EventRow>, chain: int, bn: int,
                              p: PinRow, live: EventRow)
    requires Renewals(tables, events, chain, bn) && |tables| > |LiveEnds(events, chain, bn)|
    requires FromEvents(tables[0], events) && p in tables[|tables| - 1] && p.chain == chain
    requires live in events && live.chain == chain && live.cid == p.cid && live.end > bn
    ensures exists e | e in events :: e.chain == chain && e.cid == p.cid && e.end == p.end && e.end > bn
    ensures forall e | e in events && e.chain == chain && e.cid == p.cid :: e.end <= p.end
  {
    var last := tables[|tables| - 1];
    RenewalConverges(tables, events, chain, bn);
    RenewalsKeepProvenance(tables, events, chain, bn);
    SettledCarriesMaximum(last, events, chain, bn, p, live);
    forall e | e in events && e.chain == chain && e.cid == p.cid ensures e.end <= p.end {
      if e.end > bn {
        SettledCarriesMaximum(last, events, chain, bn, p, e);
      }
    }
  }

  /** No row of the chain has an event ending after bn and yet counts as expired at bn. */
  ghost predicate LiveProtected(pinned: set<PinRow>, events: set<EventRow>, chain: int, bn: int) {
    forall p, e | p in pinned && e in events && e.chain == chain && e.cid == p.cid && e.end > bn
                  && p.chain == chain :: p.end > bn
  }

  /** A renewal at bn keeps every cid with a live event out of an unpin tick at bn. */
  lemma RenewalProtectsLive(pinned: set<PinRow>, events: set<EventRow>, chain: int, bn: int,
                            image: map<PinRow, PinRow>)
    requires IsRenewal(image, pinned, events, chain, bn)
    ensures LiveProtected(image.Values, events, chain, bn)
  {
    forall q, e | q in image.Values && e in events && e.chain == chain && e.cid == q.cid && e.end > bn
                  && q.chain == chain
      ensures q.end > bn
    {
      var p :| p in image && image[p] == q;
      assert SameCopy(p, q);
      if p.end < e.end {
        assert e.end in Choices(p, events, chain, bn);
      }
    }
  }

  /** A permanent row leaves the table exactly when its cid has a live event on the chain. */
  lemma PermanentSurvivesRenewal(pinned: set<PinRow>, events: set<EventRow>, chain: int, bn: int,
                                 image: map<PinRow, PinRow>, p: PinRow)
    requires IsRenewal(image, pinned, events, chain, bn)
    requires p in pinned && p.end == PERMANENT && bn >= PERMANENT
    ensures p in image.Values
            <==> !(p.chain == chain && exists e | e in events :: e.chain == chain && e.cid == p.cid && e.end > bn)
  {
    RenewalShrinksChoices(p, image[p], events, chain, bn);
    if p.chain == chain {
      if e :| e in events && e.chain == chain && e.cid == p.cid && e.end > bn {
        assert e.end in Choices(p, events, chain, bn);
      }
    }
    assert image[p] in image.Values;
    forall q | q in image && image[q] == p ensures q == p {
      assert RenewsTo(q, p, events, chain, bn);
    }
  }
}
