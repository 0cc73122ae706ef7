/** The database connection: one method per statement of db.rs, acting on the tables in place. */
module Db {
  import opened Tables
  import opened Registry
  import opened Selection

  class Client {
    var events: set<EventRow>
    var providers: set<ProviderRow>
    var pinned: set<PinRow>
    var failed: set<PinRow>

    constructor ()
      ensures events == {} && providers == {} && pinned == {} && failed == {}
    {
      events, providers, pinned, failed := {}, {}, {}, {};
    }

    method AddValidBlock(event: EventRow) returns (rows: nat)
      modifies `events
      ensures events == old(events) + {Stored(event)}
      ensures rows == if Stored(event) in old(events) then 0 else 1
      ensures Stored(event) == event.(donor := Stored(event).donor) && SmallForm(event.donor, Stored(event).donor)
    {
      var row := Stored(event);
      rows := if row in events then 0 else 1;
      events := events + {row};
    }

    method AddProvider(event: ProviderRow) returns (rows: nat)
      modifies `providers
      ensures providers == old(providers) + {event.(owner := Lower(event.owner))}
      ensures rows == if event.(owner := Lower(event.owner)) in old(providers) then 0 else 1
      ensures SmallForm(event.owner, Lower(event.owner))
    {
      var row := event.(owner := Lower(event.owner));
      rows := if row in providers then 0 else 1;
      providers := providers + {row};
    }

    method UpdateProviderBlockPrice(chain: int, updateBlock: int, providerId: int, price: int)
      returns (r: Outcome)
      modifies `providers
      ensures ProviderStatement(old(providers), providers, chain, providerId, Update(updateBlock, Price(price)), r)
    {
      r := UpdateProvider(chain, providerId, Update(updateBlock, Price(price)));
    }

    method UpdateProviderApiUrl(chain: int, updateBlock: int, providerId: int, apiUrl: string)
      returns (r: Outcome)
      modifies `providers
      ensures ProviderStatement(old(providers), providers, chain, providerId, Update(updateBlock, ApiUrl(apiUrl)), r)
    {
      r := UpdateProvider(chain, providerId, Update(updateBlock, ApiUrl(apiUrl)));
    }

    method UpdateProviderOwner(chain: int, updateBlock: int, providerId: int, owner: string)
      returns (r: Outcome)
      modifies `providers
      ensures ProviderStatement(old(providers), providers, chain, providerId, Update(updateBlock, Owner(owner)), r)
    {
      r := UpdateProvider(chain, providerId, Update(updateBlock, Owner(owner)));
    }

    method UpdateProviderName(chain: int, updateBlock: int, providerId: int, name: string)
      returns (r: Outcome)
      modifies `providers
      ensures ProviderStatement(old(providers), providers, chain, providerId, Update(updateBlock, Name(name)), r)
    {
      r := UpdateProvider(chain, providerId, Update(updateBlock, Name(name)));
    }

    /** The WHERE clause and key check the four updates share. */
    method UpdateProvider(chain: int, providerId: int, u: Update) returns (r: Outcome)
      modifies `providers
      ensures ProviderStatement(old(providers), providers, chain, providerId, u, r)
    {
      if UpdateConflict(providers, chain, providerId, u) {
        return KeyConflict;
      }
      var matched := set p | p in providers && Matched(p, chain, providerId, u);
      providers := providers - matched + set p | p in matched :: Write(p, u);
      return Done(|matched|);
    }

    method GetMaxUpdateBlock(chain: int) returns (r: Option<int>)
      ensures r == MaxUpdateBlock(events, chain)
    {
      r := MaxUpdateBlock(events, chain);
    }

    method DeleteCid(row: PinRow) returns (rows: nat)
      modifies `pinned
      ensures pinned == old(pinned) - {row}
      ensures rows == if row in old(pinned) then 1 else 0
    {
      rows := if row in pinned then 1 else 0;
      pinned := pinned - {row};
    }

    method AddCid(row: PinRow) returns (r: Outcome)
      modifies `pinned
      ensures r == if row in old(pinned) then KeyConflict else Done(1)
      ensures pinned == old(pinned) + {row}
    {
      if row in pinned {
        return KeyConflict;
      }
      pinned := pinned + {row};
      return Done(1);
    }

    method AddFailedPin(row: PinRow) returns (rows: nat)
      modifies `failed
      ensures failed == old(failed) + {row}
      ensures rows == if row in old(failed) then 0 else 1
    {
      rows := if row in failed then 0 else 1;
      failed := failed + {row};
    }

    method DeleteMultichainExpiredCids(chain: int, bn: int) returns (rows: nat)
      modifies `pinned
      ensures pinned == old(pinned) - MultichainExpired(old(pinned), chain, bn)
      ensures rows == |old(pinned)| - |pinned|
      ensures forall p :: p in pinned
                <==> && p in old(pinned)
                     && !(&& p.chain == chain && p.end <= bn && p.end != -1
                          && exists q | q in old(pinned) :: q.cid == p.cid && q.chain != chain)
    {
      var dropped := MultichainExpired(pinned, chain, bn);
      pinned := pinned - dropped;
      rows := |dropped|;
    }

    method GetSingleChainExpiredCids(chain: int, bn: int) returns (v: seq<PinRow>)
      ensures Lists(v, SingleChainExpired(pinned, chain, bn))
      ensures forall p :: p in v <==> p in pinned && p.chain == chain && p.end <= bn && p.end != -1
    {
      JoinFiltersNothing(pinned, chain, bn);
      v := Rows(SingleChainExpired(pinned, chain, bn));
    }

    method GetFailedCids(chain: int, bn: int) returns (v: seq<PinRow>)
      ensures Lists(v, LiveFailures(failed, chain, bn))
      ensures forall p :: p in v <==> p in failed && p.chain == chain && p.end > bn
    {
      v := Rows(LiveFailures(failed, chain, bn));
    }

    method DeleteExpiredFailedCids(chain: int, bn: int) returns (rows: nat)
      modifies `failed
      ensures failed == old(failed) - PurgedFailures(old(failed), chain, bn)
      ensures rows == |old(failed)| - |failed|
      ensures forall p :: p in failed <==> p in old(failed) && !(p.chain == chain && p.end <= bn)
    {
      var dropped := PurgedFailures(failed, chain, bn);
      failed := failed - dropped;
      rows := |dropped|;
    }

    /** The loop that turns the rows of a result set into a list. */
    static method Rows(result: set<PinRow>) returns (v: seq<PinRow>)
      ensures Lists(v, result)
    {
      v := [];
      var todo := result;
      while todo != {}
        invariant todo <= result
        invariant NoDuplicates(v)
        invariant forall p | p in v :: p in result && p !in todo
        invariant forall p | p in result :: p in todo || p in v
        decreases todo
      {
        var p :| p in todo;
        v := v + [p];
        todo := todo - {p};
      }
    }

    /** Rows are visited in no fixed order and each takes any of its matching events. */
    method UpdateExistingCidsEndBlock(chain: int, bn: int)
      returns (r: Outcome, ghost image: map<PinRow, PinRow>)
      modifies `pinned
      ensures r.Done? ==> IsRenewal(image, old(pinned), old(events), chain, bn) && pinned == image.Values
      ensures r.KeyConflict? ==> RenewalConflict(old(pinned), old(events), chain, bn) && pinned == old(pinned)
    {
      image := map[];
      var table := pinned;
      var todo := pinned;
      var changed := 0;
      while todo != {}
        invariant pinned == old(pinned)
        invariant image.Keys !! todo && image.Keys + todo == pinned
        invariant table == todo + image.Values && todo !! image.Values
        invariant Injective(image)
        invariant forall p | p in image :: RenewsTo(p, image[p], events, chain, bn)
        decreases todo
      {
        var p :| p in todo;
        var choices := Choices(p, events, chain, bn);
        var q := p;
        if choices != {} {
          var end :| end in choices;
          q := p.(end := end);
          if q in table {
            ghost var o := if q in todo then q else var o :| o in image && image[o] == q; o;
            assert Collide(p, o, events, chain, bn);
            return KeyConflict, image;
          }
          changed := changed + 1;
        }
        table := table - {p} + {q};
        todo := todo - {p};
        image := image[p := q];
      }
      pinned := table;
      r := Done(changed);
    }

    method GetNewCids(chain: int, bn: int) returns (v: seq<NewCid>)
      ensures Groups(v, UnpinnedEvents(events, pinned, chain, bn))
      ensures forall n :: n in v <==> !HasRow(pinned, chain, n.cid) && IsActiveMax(n, events, chain, bn)
    {
      var rows := UnpinnedEvents(events, pinned, chain, bn);
      var todo := GroupedCids(rows);
      v := [];
      while todo != {}
        invariant todo <= GroupedCids(rows)
        invariant forall i, j | 0 <= i < j < |v| :: v[i].cid != v[j].cid
        invariant forall n | n in v :: IsGroupMax(n, rows) && n.cid !in todo
        invariant GroupedCids(rows) <= ListedCids(v) + todo
        decreases todo
      {
        var cid :| cid in todo;
        var n := GroupMax(rows, cid);
        assert ListedCids(v + [n]) == ListedCids(v) + {cid};
        v := v + [n];
        todo := todo - {cid};
      }
      forall n {
        NewCidsSpec(events, pinned, chain, bn, v, n);
      }
    }
  }
}
