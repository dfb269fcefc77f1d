/** The pool of staging buffers that all chains share.  Finding and unlocking are taken
    as atomic. */
module StagingPool {

  const MAX_STAGING_BUFFERS: nat := 4

  /** What one turn of the search loop does at position `iter` of the pool: it locks and
      returns a buffer, or moves on, growing the pool or starting over at the end. */
  datatype Search = Searching(locked: seq<bool>, iter: nat) | Found(locked: seq<bool>, id: nat)

  function Turn(locked: seq<bool>, iter: nat): Search
    requires iter < |locked|
  {
    if !locked[iter] then Found(locked[iter := true], iter)
    else if iter + 1 < |locked| then Searching(locked, iter + 1)
    else if |locked| < MAX_STAGING_BUFFERS then Searching(locked + [false], |locked|)
    else Searching(locked, 0)
  }

  /** The search after `turns` turns. */
  function Turns(locked: seq<bool>, iter: nat, turns: nat): (s: Search)
    requires iter < |locked|
    ensures s.Searching? ==> s.iter < |s.locked|
  {
    if turns == 0 then Searching(locked, iter)
    else
      var s := Turns(locked, iter, turns - 1);
      if s.Found? then s else Turn(s.locked, s.iter)
  }

  lemma {:induction false} TurnsNext(locked: seq<bool>, turns: nat)
    requires 0 < |locked| && Turns(locked, 0, turns).Searching?
    ensures var s := Turns(locked, 0, turns); Turns(locked, 0, turns + 1) == Turn(s.locked, s.iter)
  {
  }

  predicate AnyFree(locked: seq<bool>) {
    exists i :: 0 <= i < |locked| && !locked[i]
  }

  /** When all buffers are held and the pool is full the search goes round for ever. */
  lemma {:induction false} FullPoolSpins(locked: seq<bool>, turns: nat)
    requires |locked| == 4 && !AnyFree(locked)
    ensures Turns(locked, 0, turns) == Searching(locked, turns % 4)
  {
    if turns > 0 {
      FullPoolSpins(locked, turns - 1);
    }
  }

  /** Held buffers at the front are passed by. */
  lemma {:induction false} HeldPassed(locked: seq<bool>, turns: nat)
    requires turns < |locked| && forall i | 0 <= i < turns :: locked[i]
    ensures Turns(locked, 0, turns) == Searching(locked, turns)
  {
    if turns > 0 {
      HeldPassed(locked, turns - 1);
    }
  }

  lemma {:induction false} FirstFree(locked: seq<bool>) returns (k: nat)
    requires AnyFree(locked)
    ensures k < |locked| && !locked[k] && forall i | 0 <= i < k :: locked[i]
  {
    if !locked[0] {
      k := 0;
    } else {
      var i :| 0 <= i < |locked| && !locked[i];
      assert !locked[1..][i - 1];
      var rest := FirstFree(locked[1..]);
      forall j | 0 <= j < rest + 1 ensures locked[j] {
        assert j > 0 ==> locked[1..][j - 1];
      }
      k := rest + 1;
    }
  }

  /** The buffers at the start of a search; the first search makes one. */
  function Begun(locked: seq<bool>): seq<bool> {
    if locked == [] then [false] else locked
  }

  /** Which buffer the search comes to: the free one with the lowest number, or a new one. */
  lemma {:induction false} SearchOutcome(locked: seq<bool>) returns (n: nat)
    requires |locked| <= MAX_STAGING_BUFFERS
    requires AnyFree(locked) || |locked| < MAX_STAGING_BUFFERS
    ensures var s := Turns(Begun(locked), 0, n);
      && s.Found?
      && (AnyFree(locked) ==>
            && s.id < |locked| && !locked[s.id] && s.locked == locked[s.id := true]
            && forall i | 0 <= i < s.id :: locked[i])
      && (!AnyFree(locked) ==> s.id == |locked| && s.locked == locked + [true])
  {
    var m := |locked|;
    if AnyFree(locked) {
      var k := FirstFree(locked);
      HeldPassed(locked, k);
      n := k + 1;
    } else if m == 0 {
      n := 1;
      assert Turns([false], 0, 1) == Turn([false], 0);
    } else {
      HeldPassed(locked, m - 1);
      assert Turns(locked, 0, m) == Searching(locked + [false], m);
      n := m + 1;
      assert (locked + [false])[m := true] == locked + [true];
    }
  }

  /** The search ends if and only if a buffer is free or the pool may grow. */
  lemma {:induction false} SearchEnds(locked: seq<bool>)
    requires |locked| <= 4
    ensures (exists turns :: Turns(Begun(locked), 0, turns).Found?)
            <==> AnyFree(locked) || |locked| < 4
  {
    if AnyFree(locked) || |locked| < MAX_STAGING_BUFFERS {
      var n := SearchOutcome(locked);
    } else {
      forall turns ensures !Turns(locked, 0, turns).Found? {
        FullPoolSpins(locked, turns);
      }
    }
  }

  lemma {:induction false} FoundStays(locked: seq<bool>, i: nat, j: nat)
    requires 0 < |locked| && i <= j && Turns(locked, 0, i).Found?
    ensures Turns(locked, 0, j) == Turns(locked, 0, i)
    decreases j - i
  {
    if i < j {
      FoundStays(locked, i, j - 1);
    }
  }

  lemma {:induction false} StillSearching(locked: seq<bool>, turns: nat, n: nat)
    requires 0 < |locked| && Turns(locked, 0, turns).Searching? && Turns(locked, 0, n).Found?
    ensures turns < n
  {
    if n <= turns {
      FoundStays(locked, n, turns);
    }
  }

  /** Caller `who` holds buffer `id`. */
  datatype Holding = Holding(who: nat, id: nat)

  /** Buffers are numbered from 0 in the order they were made. */
  class Pool {
    var locked: seq<bool>
    ghost var holdings: set<Holding>

    /** Numbers 0 to n - 1 with n at most four; a buffer is locked if and only if somebody
        holds it, and nobody shares it. */
    ghost predicate Valid()
      reads this
    {
      && |locked| <= MAX_STAGING_BUFFERS
      && (forall h | h in holdings :: h.id < |locked| && locked[h.id])
      && (forall id | 0 <= id < |locked| && locked[id] :: exists who :: Holding(who, id) in holdings)
      && (forall g, h | g in holdings && h in holdings && g.id == h.id :: g == h)
    }

    constructor ()
      ensures Valid() && locked == [] && holdings == {}
    {
      locked, holdings := [], {};
    }

    /** Returns a buffer nobody else holds: the free one with the lowest number, or a new one
        when all are held and the pool may still grow.  It is the one that the turns of
        the search come to. */
    method FindStaging(ghost who: nat) returns (id: nat)
      requires Valid()
      requires AnyFree(locked) || |locked| < MAX_STAGING_BUFFERS
      modifies this
      ensures Valid() && id < |locked|
      ensures holdings == old(holdings) + {Holding(who, id)}
      ensures forall h | h in old(holdings) :: h.id != id
      ensures AnyFree(old(locked)) ==>
        id < |old(locked)| && !old(locked)[id] && locked == old(locked)[id := true]
        && forall i | 0 <= i < id :: old(locked)[i]
      ensures !AnyFree(old(locked)) ==> id == |old(locked)| && locked == old(locked) + [true]
      ensures exists turns :: Turns(Begun(old(locked)), 0, turns) == Found(locked, id)
    {
      id := Search();
      holdings := holdings + {Holding(who, id)};
      forall i | 0 <= i < |locked| && locked[i] ensures exists w :: Holding(w, i) in holdings {
        if i == id {
          assert Holding(who, i) in holdings;
        } else {
          assert old(locked)[i];
          var w :| Holding(w, i) in old(holdings);
          assert Holding(w, i) in holdings;
        }
      }
    }

    /** The loop of the search. */
    method Search() returns (id: nat)
      requires |locked| <= MAX_STAGING_BUFFERS
      requires AnyFree(locked) || |locked| < MAX_STAGING_BUFFERS
      modifies this`locked
      ensures |locked| <= MAX_STAGING_BUFFERS && id < |locked|
      ensures AnyFree(old(locked)) ==>
        id < |old(locked)| && !old(locked)[id] && locked == old(locked)[id := true]
        && forall i | 0 <= i < id :: old(locked)[i]
      ensures !AnyFree(old(locked)) ==> id == |old(locked)| && locked == old(locked) + [true]
      ensures exists turns :: Turns(Begun(old(locked)), 0, turns) == Found(locked, id)
    {
      ghost var was := Begun(locked);
      ghost var n := SearchOutcome(locked);
      if |locked| == 0 {
        locked := locked + [false];
      }
      var iter: nat := 0;
      ghost var turns := 0;
      while iter < |locked| && locked[iter]
        invariant iter < |locked| <= MAX_STAGING_BUFFERS
        invariant turns <= n && Turns(was, 0, turns) == Searching(locked, iter)
        decreases n - turns
      {
        StillSearching(was, turns, n);
        TurnsNext(was, turns);
        turns := turns + 1;
        iter := MoveOn(iter);
      }
      TurnsNext(was, turns);
      StillSearching(was, turns, n);
      FoundStays(was, turns + 1, n);
      locked := locked[iter := true];
      id := iter;
    }

    /** Past a held buffer: to the next, to a new one, or back to the first. */
    method MoveOn(at: nat) returns (iter: nat)
      requires at < |locked| <= MAX_STAGING_BUFFERS && locked[at]
      modifies this`locked
      ensures iter < |locked| <= MAX_STAGING_BUFFERS
      ensures Turn(old(locked), at) == Searching(locked, iter)
    {
      iter := at + 1;
      if iter == |locked| && |locked| < MAX_STAGING_BUFFERS {
        locked := locked + [false];
        iter := |locked| - 1;
      } else if iter == |locked| {
        iter := 0;
      }
    }

    /** The holder gives a buffer back; everybody else keeps theirs. */
    method Unlock(ghost who: nat, id: nat)
      requires Valid() && Holding(who, id) in holdings
      modifies this
      ensures Valid() && locked == old(locked)[id := false]
      ensures holdings == old(holdings) - {Holding(who, id)}
    {
      locked := locked[id := false];
      holdings := holdings - {Holding(who, id)};
      forall i | 0 <= i < |locked| && locked[i] ensures exists w :: Holding(w, i) in holdings {
        assert old(locked)[i];
        var w :| Holding(w, i) in old(holdings);
        assert Holding(w, i) in holdings;
      }
    }
  }

  datatype Call = Find(who: nat) | Release(who: nat, id: nat)

  /** The lowest free buffer, or the number of buffers. */
  function LowestFree(locked: seq<bool>): (r: nat)
    ensures r <= |locked|
    ensures forall i | 0 <= i < r :: locked[i]
    ensures r < |locked| <==> AnyFree(locked)
    ensures r < |locked| ==> !locked[r]
  {
    if locked == [] then 0
    else
      var k := LowestFree(locked[..|locked| - 1]);
      if k < |locked| - 1 || !locked[|locked| - 1] then k else |locked|
  }

  /** What the callers have of the pool: which buffers are locked, and who holds which. */
  datatype Holdings = Holdings(locked: seq<bool>, held: set<Holding>) {

    /** A search takes the lowest free buffer, or a new one, or none while the pool is full;
        a release gives back what its caller holds. */
    function After(call: Call): Holdings {
      match call
      case Find(who) =>
        var id := LowestFree(locked);
        if id < |locked| then Holdings(locked[id := true], held + {Holding(who, id)})
        else if id < 4 then Holdings(locked + [true], held + {Holding(who, id)})
        else this
      case Release(who, id) =>
        if Holding(who, id) in held && id < |locked| then Holdings(locked[id := false], held - {Holding(who, id)})
        else this
    }
  }

  function Final(start: Holdings, calls: seq<Call>): Holdings {
    if calls == [] then start else Final(start, calls[..|calls| - 1]).After(calls[|calls| - 1])
  }

  /** Any interleaving of searches and releases by any callers, starting with no buffer held.  A search
      waits while the pool is full and all buffers are held; a caller releases what it
      holds.  What is locked and who holds it at the end follows from the calls; a buffer is
      locked if and only if somebody holds it, and nobody shares one. */
  method RunCalls(pool: Pool, calls: seq<Call>) returns (held: set<Holding>)
    requires pool.Valid() && pool.holdings == {}
    modifies pool
    ensures pool.Valid() && held == pool.holdings
    ensures Holdings(pool.locked, held) == Final(Holdings(old(pool.locked), {}), calls)
    ensures |old(pool.locked)| <= |pool.locked| <= 4
    ensures forall id | 0 <= id < |pool.locked| :: pool.locked[id] <==> exists who :: Holding(who, id) in held
    ensures forall g, h | g in held && h in held && g.id == h.id :: g.who == h.who
  {
    held := {};
    for i := 0 to |calls|
      invariant pool.Valid() && held == pool.holdings && |old(pool.locked)| <= |pool.locked|
      invariant Holdings(pool.locked, held) == Final(Holdings(old(pool.locked), {}), calls[..i])
    {
      assert calls[..i + 1][..i] == calls[..i];
      held := RunCall(pool, held, calls[i]);
    }
    assert calls[..|calls|] == calls;
    forall id | 0 <= id < |pool.locked|
      ensures pool.locked[id] <==> exists who :: Holding(who, id) in held
    {
      if who :| Holding(who, id) in held {
        assert pool.locked[Holding(who, id).id];
      }
    }
  }

  method RunCall(pool: Pool, held: set<Holding>, call: Call) returns (after: set<Holding>)
    requires pool.Valid() && held == pool.holdings
    modifies pool
    ensures pool.Valid() && after == pool.holdings && |old(pool.locked)| <= |pool.locked|
    ensures Holdings(pool.locked, after) == Holdings(old(pool.locked), held).After(call)
  {
    after := held;
    match call {
      case Find(who) =>
        if AnyFree(pool.locked) || |pool.locked| < MAX_STAGING_BUFFERS {
          var id := pool.FindStaging(who);
          after := held + {Holding(who, id)};
        }
      case Release(who, id) =>
        if Holding(who, id) in held {
          pool.Unlock(who, id);
          after := held - {Holding(who, id)};
        }
    }
  }
}
