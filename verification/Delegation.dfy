/** Delegated vesting shares and the totals that accounts cache about them. */
module Delegation {
  import opened Config
  import opened Sums
  import opened Payments

  datatype Pair = Pair(delegator: string, delegatee: string)

  datatype Expiration = Expiration(delegator: string, shares: int, time: nat)

  type Live = map<Pair, int>
  type Expiring = map<nat, Expiration>

  ghost function From(live: Live, x: string): map<Pair, int> {
    map p | p in live && p.delegator == x :: live[p]
  }

  ghost function To(live: Live, x: string): map<Pair, int> {
    map p | p in live && p.delegatee == x :: live[p]
  }

  ghost function Returning(expiring: Expiring, x: string): map<nat, int> {
    map e: nat | e in expiring && expiring[e].delegator == x :: expiring[e].shares
  }

  /** What `x` delegated: live delegations and those on their way back. */
  ghost function Delegated(live: Live, expiring: Expiring, x: string): int {
    Sum(From(live, x)) + Sum(Returning(expiring, x))
  }

  ghost function Received(live: Live, x: string): int {
    Sum(To(live, x))
  }

  function Get(live: Live, p: Pair): int {
    if p in live then live[p] else 0
  }

  lemma FromUpdate(live: Live, p: Pair, v: int, x: string)
    ensures Sum(From(live[p := v], x)) == Sum(From(live, x)) + (if p.delegator == x then v - Get(live, p) else 0)
  {
    hide Sum;
    if p.delegator == x {
      assert From(live[p := v], x) == From(live, x)[p := v];
      SumUpdate(From(live, x), p, v);
    } else {
      assert From(live[p := v], x) == From(live, x);
    }
  }

  lemma ToUpdate(live: Live, p: Pair, v: int, x: string)
    ensures Sum(To(live[p := v], x)) == Sum(To(live, x)) + (if p.delegatee == x then v - Get(live, p) else 0)
  {
    hide Sum;
    if p.delegatee == x {
      assert To(live[p := v], x) == To(live, x)[p := v];
      SumUpdate(To(live, x), p, v);
    } else {
      assert To(live[p := v], x) == To(live, x);
    }
  }

  lemma PairRemove(live: Live, p: Pair, x: string)
    requires p in live
    ensures Sum(From(live - {p}, x)) == Sum(From(live, x)) - (if p.delegator == x then live[p] else 0)
    ensures Sum(To(live - {p}, x)) == Sum(To(live, x)) - (if p.delegatee == x then live[p] else 0)
  {
    hide Sum;
    if p.delegator == x {
      assert From(live - {p}, x) == From(live, x) - {p};
      SumRemove(From(live, x), p);
    } else {
      assert From(live - {p}, x) == From(live, x);
    }
    if p.delegatee == x {
      assert To(live - {p}, x) == To(live, x) - {p};
      SumRemove(To(live, x), p);
    } else {
      assert To(live - {p}, x) == To(live, x);
    }
  }

  lemma ReturningAdd(expiring: Expiring, id: nat, e: Expiration, x: string)
    requires id !in expiring
    ensures Sum(Returning(expiring[id := e], x)) ==
      Sum(Returning(expiring, x)) + (if e.delegator == x then e.shares else 0)
  {
    hide Sum;
    if e.delegator == x {
      assert Returning(expiring[id := e], x) == Returning(expiring, x)[id := e.shares];
      SumUpdate(Returning(expiring, x), id, e.shares);
    } else {
      assert Returning(expiring[id := e], x) == Returning(expiring, x);
    }
  }

  lemma ReturningRemove(expiring: Expiring, id: nat, x: string)
    requires id in expiring
    ensures Sum(Returning(expiring - {id}, x)) ==
      Sum(Returning(expiring, x)) - (if expiring[id].delegator == x then expiring[id].shares else 0)
  {
    assert expiring == (expiring - {id})[id := expiring[id]];
    ReturningAdd(expiring - {id}, id, expiring[id], x);
  }

  // ---------------------------------------------------------------------------
  // Exactness
  // ---------------------------------------------------------------------------

  /** All parties have accounts, live delegations are positive and returning ones are not negative. */
  ghost predicate Parties(names: set<string>, live: Live, expiring: Expiring) {
    && (forall p :: p in live ==> p.delegator in names && p.delegatee in names && live[p] > 0)
    && (forall e :: e in expiring ==> expiring[e].delegator in names && expiring[e].shares >= 0)
  }

  ghost predicate Exact(delegated: Column, received: Column, live: Live, expiring: Expiring) {
    && delegated.Keys == received.Keys
    && (forall x :: x in delegated ==> delegated[x] == Delegated(live, expiring, x))
    && (forall x :: x in received ==> received[x] == Received(live, x))
  }

  /** More is delegated by `p.delegator` to `p.delegatee`. */
  lemma RaiseExact(delegated: Column, received: Column, live: Live, expiring: Expiring, p: Pair, v: int)
    requires Exact(delegated, received, live, expiring) && p.delegator in delegated && p.delegatee in delegated
    ensures var d := v - Get(live, p);
      Exact(Added(delegated, p.delegator, d), Added(received, p.delegatee, d), live[p := v], expiring)
  {
    hide Sum, From, To, Returning;
    forall x | x in delegated
      ensures Delegated(live[p := v], expiring, x) ==
        Delegated(live, expiring, x) + (if p.delegator == x then v - Get(live, p) else 0)
      ensures Received(live[p := v], x) == Received(live, x) + (if p.delegatee == x then v - Get(live, p) else 0)
    {
      FromUpdate(live, p, v, x);
      ToUpdate(live, p, v, x);
    }
  }

  /** Less is delegated; the difference is on its way back. */
  lemma ReduceExact(delegated: Column, received: Column, live: Live, expiring: Expiring, p: Pair, v: int, id: nat,
                    e: Expiration)
    requires Exact(delegated, received, live, expiring) && p in live && p.delegator in delegated
    requires p.delegatee in delegated
    requires id !in expiring && e.delegator == p.delegator && e.shares == live[p] - v
    ensures Exact(delegated, Added(received, p.delegatee, v - live[p]), live[p := v], expiring[id := e])
    ensures v == 0 ==> Exact(delegated, Added(received, p.delegatee, v - live[p]), live - {p}, expiring[id := e])
  {
    hide Sum, From, To, Returning;
    forall x | x in delegated
      ensures Delegated(live[p := v], expiring[id := e], x) == Delegated(live, expiring, x)
      ensures v == 0 ==> Delegated(live - {p}, expiring[id := e], x) == Delegated(live, expiring, x)
      ensures Received(live[p := v], x) == Received(live, x) + (if p.delegatee == x then v - live[p] else 0)
      ensures v == 0 ==> Received(live - {p}, x) == Received(live, x) - (if p.delegatee == x then live[p] else 0)
    {
      FromUpdate(live, p, v, x);
      ToUpdate(live, p, v, x);
      PairRemove(live, p, x);
      ReturningAdd(expiring, id, e, x);
    }
    hide Delegated, Received;
  }

  lemma ReturnExact(delegated: Column, received: Column, live: Live, expiring: Expiring, id: nat)
    requires Exact(delegated, received, live, expiring) && id in expiring && expiring[id].delegator in delegated
    ensures Exact(Added(delegated, expiring[id].delegator, -expiring[id].shares), received, live, expiring - {id})
  {
    hide Sum, From, To, Returning;
    forall x | x in delegated
      ensures Delegated(live, expiring - {id}, x) ==
        Delegated(live, expiring, x) - (if expiring[id].delegator == x then expiring[id].shares else 0)
    {
      ReturningRemove(expiring, id, x);
    }
    hide Delegated, Received;
  }

  lemma NothingRecorded(names: set<string>, live: Live, expiring: Expiring, name: string)
    requires Parties(names, live, expiring) && name !in names
    ensures Delegated(live, expiring, name) == 0 && Received(live, name) == 0
  {
    hide Sum;
    assert From(live, name) == map[] && To(live, name) == map[] && Returning(expiring, name) == map[];
    SumZero(From(live, name));
    SumZero(To(live, name));
    SumZero(Returning(expiring, name));
  }

  /** An account nobody delegated to or from has nothing cached. */
  lemma OpenExact(delegated: Column, received: Column, live: Live, expiring: Expiring, name: string)
    requires Exact(delegated, received, live, expiring) && Parties(delegated.Keys, live, expiring) && name !in delegated
    ensures Exact(delegated[name := 0], received[name := 0], live, expiring)
    ensures forall other :: Pair(other, name) !in live
  {
    hide Delegated, Received;
    NothingRecorded(delegated.Keys, live, expiring, name);
  }

  lemma PartiesAdd(names: set<string>, live: Live, expiring: Expiring, name: string)
    requires Parties(names, live, expiring)
    ensures Parties(names + {name}, live, expiring)
  {
  }

  lemma PartiesSet(names: set<string>, live: Live, expiring: Expiring, p: Pair, v: int)
    requires Parties(names, live, expiring) && p.delegator in names && p.delegatee in names
    ensures v > 0 ==> Parties(names, live[p := v], expiring)
    ensures Parties(names, live - {p}, expiring)
    ensures p in live ==> live[p] > 0
  {
  }

  lemma PartiesReturn(names: set<string>, live: Live, expiring: Expiring, id: nat, e: Expiration)
    requires Parties(names, live, expiring)
    ensures e.delegator in names && e.shares >= 0 ==> Parties(names, live, expiring[id := e])
    ensures Parties(names, live, expiring - {id})
    ensures id in expiring ==> expiring[id].delegator in names
  {
  }

  lemma PartiesReduced(names: set<string>, live: Live, expiring: Expiring, p: Pair, v: nat, id: nat, e: Expiration)
    requires Parties(names, live, expiring) && p.delegator in names && p.delegatee in names
    requires e.delegator in names && e.shares >= 0
    ensures Parties(names, if v > 0 then live[p := v] else live - {p}, expiring[id := e])
  {
  }

  lemma PartyNames(names: set<string>, live: Live, expiring: Expiring)
    requires Parties(names, live, expiring)
    ensures forall p :: p in live ==> p.delegator in names && p.delegatee in names
  {
  }

  ghost predicate Numbered(expiring: Expiring, next: nat) {
    forall e :: e in expiring ==> e < next
  }

  lemma NumberedNext(expiring: Expiring, next: nat, e: Expiration)
    requires Numbered(expiring, next)
    ensures next !in expiring && Numbered(expiring[next := e], next + 1)
  {
  }

  class Delegations {
    var delegated: Column
    var received: Column
    var live: Live
    /** When what a delegation gives up may come back at the earliest. */
    var earliest: map<Pair, nat>
    var expiring: Expiring
    var nextId: nat

    /** The records are in order; nothing is said about the caches. */
    ghost predicate Recorded()
      reads this
    {
      && delegated.Keys == received.Keys && Parties(delegated.Keys, live, expiring) && earliest.Keys == live.Keys
      && Numbered(expiring, nextId)
    }

    ghost predicate Valid()
      reads this
    {
      Recorded() && Exact(delegated, received, live, expiring)
    }

    constructor (names: set<string>)
      ensures Valid() && delegated.Keys == names && live == map[] && expiring == map[]
    {
      hide Exact;
      delegated, received := map x | x in names :: 0, map x | x in names :: 0;
      live, earliest, expiring, nextId := map[], map[], map[], 0;
      new;
      NothingYet(delegated, received);
    }

    /** A new account with a delegation from its creator, who cannot have it back before `lock` has passed. */
    method CreateAccount(creator: string, name: string, shares: nat, available: int, now: nat,
                         lock: nat) returns (ok: bool)
      requires Valid()
      modifies this
      ensures Valid() && (ok <==> creator in old(delegated) && name !in old(delegated) && available >= shares)
      ensures ok ==>
        && live == (if shares > 0 then old(live)[Pair(creator, name) := shares] else old(live))
        && earliest == (if shares > 0 then old(earliest)[Pair(creator, name) := now + lock] else old(earliest))
        && delegated == Added(old(delegated), creator, shares)[name := 0] && received == old(received)[name := shares]
        && expiring == old(expiring)
      ensures !ok ==>
        && delegated == old(delegated) && received == old(received) && live == old(live)
        && earliest == old(earliest) && expiring == old(expiring)
    {
      hide Valid;
      Facts(Pair(creator, name));
      if creator !in delegated || name in delegated || available < shares {
        return false;
      }
      Open(name);
      if shares > 0 {
        Raise(Pair(creator, name), shares, now + lock);
      }
      assert delegated == Added(old(delegated), creator, shares)[name := 0];
      assert received == old(received)[name := shares];
      return true;
    }

    method Open(name: string)
      requires Valid() && name !in delegated
      modifies this`delegated, this`received
      ensures Valid() && delegated == old(delegated)[name := 0] && received == old(received)[name := 0]
    {
      hide Exact, Parties, Numbered;
      OpenExact(delegated, received, live, expiring, name);
      PartiesAdd(delegated.Keys, live, expiring, name);
      delegated := delegated[name := 0];
      received := received[name := 0];
      assert delegated.Keys == old(delegated).Keys + {name};
    }

    /** Delegates more. */
    method Raise(p: Pair, shares: nat, now: nat)
      requires Valid() && p.delegator in delegated && p.delegatee in delegated && shares > Get(live, p) && shares > 0
      modifies this
      ensures
        var delta := shares - Get(old(live), p);
        && live == old(live)[p := shares] && expiring == old(expiring)
        && p.delegator in old(delegated) && delegated == Added(old(delegated), p.delegator, delta)
        && p.delegatee in old(received) && received == Added(old(received), p.delegatee, delta)
        && earliest == if p in old(live) then old(earliest) else old(earliest)[p := now]
      ensures Valid()
    {
      hide Exact, Parties, Numbered, Get;
      var delta := shares - Get(live, p);
      PartiesSet(delegated.Keys, live, expiring, p, shares);
      RaiseExact(delegated, received, live, expiring, p, shares);
      delegated := delegated[p.delegator := delegated[p.delegator] + delta];
      received := received[p.delegatee := received[p.delegatee] + delta];
      if p !in live {
        earliest := earliest[p := now];
      }
      live := live[p := shares];
      assert delegated.Keys == old(delegated).Keys;
    }

    /** Delegates less; the difference comes back later. */
    method Reduce(p: Pair, shares: nat, now: nat)
      requires Valid() && p in live && p.delegator in delegated && p.delegatee in delegated && shares <= live[p]
      modifies this
      ensures
        var delta := shares - Get(old(live), p);
        && live == (if shares > 0 then old(live)[p := shares] else old(live) - {p}) && delegated == old(delegated)
        && p.delegatee in old(received) && received == Added(old(received), p.delegatee, delta)
        && p in old(earliest) && earliest == (if shares == 0 then old(earliest) - {p} else old(earliest))
        && expiring == Queued(old(expiring), old(nextId), p, -delta, now, old(earliest)[p])
      ensures Valid()
    {
      hide Exact, Parties, Numbered;
      var delta := shares - Get(live, p);
      var e := Expiration(p.delegator, -delta, Later(now + REGENERATION, earliest[p]));
      NumberedNext(expiring, nextId, e);
      ReduceExact(delegated, received, live, expiring, p, shares, nextId, e);
      PartiesReduced(delegated.Keys, live, expiring, p, shares, nextId, e);
      expiring := expiring[nextId := e];
      nextId := nextId + 1;
      received := received[p.delegatee := received[p.delegatee] + delta];
      if shares == 0 {
        live, earliest := live - {p}, earliest - {p};
      } else {
        live := live[p := shares];
      }
    }

    lemma Facts(p: Pair)
      requires Valid()
      ensures p.delegatee in delegated <==> p.delegatee in received
      ensures p in live <==> p in earliest
      ensures p in live ==> live[p] > 0 && p.delegatee in delegated
    {
    }

    /** Sets what `p.delegator` delegates to `p.delegatee`. `energyOk` tells that the delegator's energy is not
        negative. */
    method Delegate(p: Pair, shares: nat, available: int, minimum: nat, energyOk: bool, now: nat) returns (ok: bool)
      requires Valid()
      modifies this
      ensures Valid()
      ensures
        var delta := shares - Get(old(live), p);
        ok <==>
          && p.delegator in old(delegated) && p.delegatee in old(delegated)
          && (p !in old(live) ==> shares != 0)
          && (if delta > 0 then available >= delta && energyOk && (p !in old(live) ==> shares >= minimum)
              else shares == 0 || shares >= minimum)
      ensures ok ==>
        var delta := shares - Get(old(live), p);
        && live == (if shares > 0 then old(live)[p := shares] else old(live) - {p})
        && received == Added(old(received), p.delegatee, delta)
        && (delta > 0 ==> delegated == Added(old(delegated), p.delegator, delta) && expiring == old(expiring))
        && earliest == (if shares == 0 then old(earliest) - {p} else if p in old(live) then old(earliest)
                        else old(earliest)[p := now])
        && (delta <= 0 ==>
          && p in old(earliest) && delegated == old(delegated)
          && expiring == Queued(old(expiring), old(nextId), p, -delta, now, old(earliest)[p]))
      ensures !ok ==>
        && delegated == old(delegated) && received == old(received) && live == old(live)
        && earliest == old(earliest) && expiring == old(expiring)
    {
      hide Valid, Added, Queued;
      Facts(p);
      if p.delegator !in delegated || p.delegatee !in delegated {
        return false;
      }
      if p !in live && shares == 0 {
        return false;
      }
      var delta := shares - Get(live, p);
      if delta > 0 {
        if available < delta || !energyOk || (p !in live && shares < minimum) {
          return false;
        }
        Raise(p, shares, now);
      } else {
        if shares != 0 && shares < minimum {
          return false;
        }
        Reduce(p, shares, now);
      }
      return true;
    }

    /** Returns the delegations whose time has come. */
    method ClearExpired(now: nat)
      requires Valid()
      modifies this
      ensures Valid() && live == old(live) && received == old(received)
      ensures expiring == map e: nat | e in old(expiring) && old(expiring)[e].time >= now :: old(expiring)[e]
    {
      hide Exact, Parties;
      while exists e: nat :: e in expiring && expiring[e].time < now
        invariant Valid() && live == old(live) && received == old(received)
        invariant expiring.Keys <= old(expiring).Keys
        invariant forall e :: e in old(expiring) && old(expiring)[e].time >= now ==> e in expiring
        invariant forall e :: e in expiring ==> expiring[e] == old(expiring)[e]
        decreases expiring.Keys
      {
        var e: nat :| e in expiring && expiring[e].time < now;
        PartiesReturn(delegated.Keys, live, expiring, e, expiring[e]);
        ReturnExact(delegated, received, live, expiring, e);
        var x := expiring[e].delegator;
        delegated := delegated[x := delegated[x] - expiring[e].shares];
        expiring := expiring - {e};
        assert e !in expiring;
      }
    }

    /** Hardfork 8: computes both caches anew from the records, whatever they held before. */
    method Rebuild()
      requires Recorded()
      modifies this
      ensures Valid() && live == old(live) && expiring == old(expiring) && delegated.Keys == old(delegated).Keys
    {
      delegated := map x | x in delegated :: 0;
      received := map x | x in received :: 0;
      NothingYet(delegated, received);
      AddLive();
      AddExpiring();
    }

    /** Adds one delegation to both caches. */
    method AddOne(p: Pair, shares: int, ghost done: Live)
      requires p.delegator in delegated && p.delegatee in received && delegated.Keys == received.Keys && p !in done
      requires Exact(delegated, received, done, map[])
      modifies this`delegated, this`received
      ensures delegated.Keys == received.Keys == old(delegated).Keys
      ensures Exact(delegated, received, done[p := shares], map[])
    {
      hide Exact;
      RaiseExact(delegated, received, done, map[], p, shares);
      delegated := delegated[p.delegator := delegated[p.delegator] + shares];
      received := received[p.delegatee := received[p.delegatee] + shares];
    }

    method AddLive()
      requires Recorded() && Exact(delegated, received, map[], map[])
      modifies this`delegated, this`received
      ensures Recorded() && delegated.Keys == old(delegated).Keys && Exact(delegated, received, live, map[])
    {
      hide Exact, Numbered, Parties;
      PartyNames(delegated.Keys, live, expiring);
      var todo := live.Keys;
      ghost var done: Live := map[];
      while todo != {}
        invariant todo <= live.Keys && done.Keys == live.Keys - todo && (forall p :: p in done ==> done[p] == live[p])
        invariant delegated.Keys == received.Keys == old(delegated).Keys
        invariant Exact(delegated, received, done, map[])
      {
        var p :| p in todo;
        AddOne(p, live[p], done);
        todo, done := todo - {p}, done[p := live[p]];
      }
      assert done == live;
    }

    method AddExpiring()
      requires Recorded() && Exact(delegated, received, live, map[])
      modifies this`delegated
      ensures Valid() && delegated.Keys == old(delegated).Keys
    {
      hide Exact;
      var todo := expiring.Keys;
      ghost var done: Expiring := map[];
      while todo != {}
        invariant todo <= expiring.Keys && done.Keys == expiring.Keys - todo
        invariant forall e :: e in done ==> done[e] == expiring[e]
        invariant delegated.Keys == received.Keys == old(delegated).Keys
        invariant Exact(delegated, received, live, done)
      {
        var e :| e in todo;
        var x := expiring[e].delegator;
        QueueExact(delegated, received, live, done, e, expiring[e]);
        delegated := delegated[x := delegated[x] + expiring[e].shares];
        todo, done := todo - {e}, done[e := expiring[e]];
      }
      assert done == expiring;
    }
  }

  lemma NothingYet(delegated: Column, received: Column)
    requires delegated.Keys == received.Keys
    requires (forall x :: x in delegated ==> delegated[x] == 0) && (forall x :: x in received ==> received[x] == 0)
    ensures Exact(delegated, received, map[], map[])
  {
    forall x | x in delegated
      ensures Delegated(map[], map[], x) == 0 && Received(map[], x) == 0
    {
      NothingRecorded({}, map[], map[], x);
    }
  }

  lemma QueueExact(delegated: Column, received: Column, live: Live, expiring: Expiring, id: nat, e: Expiration)
    requires Exact(delegated, received, live, expiring) && id !in expiring && e.delegator in delegated
    ensures Exact(Added(delegated, e.delegator, e.shares), received, live, expiring[id := e])
  {
    hide Sum, From, To, Returning;
    forall x | x in delegated
      ensures Delegated(live, expiring[id := e], x) ==
        Delegated(live, expiring, x) + (if e.delegator == x then e.shares else 0)
    {
      ReturningAdd(expiring, id, e, x);
    }
  }

  /** The difference comes back when the energy spent with it has come back. */
  function Queued(expiring: Expiring, id: nat, p: Pair, shares: int, now: nat, earliest: nat): Expiring {
    expiring[id := Expiration(p.delegator, shares, Later(now + REGENERATION, earliest))]
  }

  /** What is given up comes back after the time in which energy regenerates, and not before it may. */
  lemma NotBefore(expiring: Expiring, id: nat, p: Pair, shares: int, now: nat, earliest: nat)
    requires id !in expiring
    ensures
      var queued := Queued(expiring, id, p, shares, now, earliest);
      && queued - {id} == expiring && id in queued && queued[id].delegator == p.delegator
      && queued[id].shares == shares && queued[id].time >= now + 432000 && queued[id].time >= earliest
      && queued[id].time in {now + 432000, earliest}
  {
  }

  function Later(a: nat, b: nat): nat {
    if a < b then b else a
  }
}
