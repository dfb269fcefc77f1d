/** The event registry that all event managers share. */
module Events {

  /** A subscriber enrolled under a key; the name is only remembered. */
  datatype Entry<K> = Entry(key: K, name: seq<char>, subscriber: nat)

  /** The iterators a manager keeps for one of the registries. */
  class Local {
    var ids: seq<nat>

    constructor ()
      ensures ids == []
    {
      ids := [];
    }
  }

  predicate NoDuplicates(ids: seq<nat>) {
    forall i, j | 0 <= i < j < |ids| :: ids[i] != ids[j]
  }

  function AsSet(ids: seq<nat>): set<nat> {
    set id | id in ids
  }

  lemma {:induction false} AsSetNext(ids: seq<nat>, i: nat)
    requires i < |ids|
    ensures AsSet(ids[..i + 1]) == AsSet(ids[..i]) + {ids[i]}
  {
    assert ids[..i + 1] == ids[..i] + [ids[i]];
  }

  /** One of the three registries; an iterator is a number that is never reused. */
  class Registry<K(==)> {
    var entries: map<nat, Entry<K>>
    var nextId: nat
    ghost var holders: set<Local>   // the lists of the managers that are alive

    /** At most one entry per key. */
    ghost predicate OnePerKey()
      reads this
    {
      forall i, j | i in entries && j in entries && entries[i].key == entries[j].key :: i == j
    }

    /** What a list holds, it holds once, and it is there. */
    ghost predicate ListOk(h: Local)
      reads this, h
    {
      NoDuplicates(h.ids) && forall id | id in h.ids :: id in entries
    }

    /** Every entry is owned by exactly one live manager. */
    ghost predicate Owned()
      reads this, holders
    {
      && (forall h | h in holders :: ListOk(h))
      && (forall id | id in entries :: exists h :: h in holders && id in h.ids)
      && (forall g, h, id | g in holders && h in holders && id in g.ids && id in h.ids :: g == h)
    }

    ghost predicate Valid()
      reads this, holders
    {
      && OnePerKey() && Owned()
      && (forall id | id in entries :: id < nextId)
    }

    constructor ()
      ensures Valid() && entries == map[] && holders == {}
    {
      entries, nextId, holders := map[], 0, {};
    }

    /** A new manager joins with an empty list. */
    method Join() returns (h: Local)
      requires Valid()
      modifies this`holders
      ensures Valid() && fresh(h) && h.ids == [] && holders == old(holders) + {h}
    {
      h := new Local();
      holders := holders + {h};
      assert forall g | g in old(holders) :: ListOk(g);
    }

    predicate Has(key: K)
      reads this
    {
      exists id :: id in entries && entries[id].key == key
    }

    /** Enrolls a subscriber unless the key is taken. */
    method Enroll(h: Local, key: K, name: seq<char>, subscriber: nat) returns (added: bool)
      requires Valid() && h in holders
      modifies this`entries, this`nextId, h
      ensures Valid()
      ensures added <==> !old(Has(key))
      ensures added ==>
        && old(nextId) !in old(entries)
        && entries == old(entries)[old(nextId) := Entry(key, name, subscriber)]
        && h.ids == old(h.ids) + [old(nextId)]
      ensures !added ==> entries == old(entries) && h.ids == old(h.ids)
    {
      added := !Has(key);
      if added {
        var id := nextId;
        assert ListOk(h) && id !in h.ids;
        entries := entries[id := Entry(key, name, subscriber)];
        nextId := nextId + 1;
        h.ids := h.ids + [id];
        assert forall g | g in holders && g != h :: g.ids == old(g.ids);
        forall g | g in holders ensures ListOk(g) {
          assert old(ListOk(g));
        }
        forall i | i in entries ensures exists g :: g in holders && i in g.ids {
          if i == id {
            assert h.ids[|h.ids| - 1] == id;
          } else {
            var g :| g in holders && i in old(g.ids);
            assert i in g.ids;
          }
        }
      }
    }

    /** Erases one entry; the iterator must still be valid. */
    method Erase(id: nat)
      requires id in entries
      modifies this`entries
      ensures entries == old(entries) - {id}
    {
      entries := map i | i in entries && i != id :: entries[i];
    }

    /** The loop of `reset`: every entry of a list is erased, through an iterator that is
        valid at that moment.  The list itself is not emptied. */
    method EraseAll(h: Local)
      requires ListOk(h)
      modifies this`entries
      ensures entries == old(entries) - AsSet(h.ids)
    {
      for i := 0 to |h.ids|
        invariant entries == old(entries) - AsSet(h.ids[..i])
      {
        assert h.ids[i] !in h.ids[..i];
        Erase(h.ids[i]);
        AsSetNext(h.ids, i);
      }
      assert h.ids[..|h.ids|] == h.ids;
    }

    /** Destroying a manager removes exactly its entries; everybody else keeps theirs. */
    method Leave(h: Local)
      requires Valid() && h in holders
      modifies this`entries, this`holders
      ensures Valid() && holders == old(holders) - {h}
      ensures entries == old(entries) - AsSet(h.ids)
    {
      EraseAll(h);
      holders := holders - {h};
      forall g | g in holders ensures ListOk(g) {
        assert old(ListOk(g));
      }
      forall i | i in entries ensures exists g :: g in holders && i in g.ids {
        var g :| g in old(holders) && i in old(g.ids);
        assert g != h;
      }
    }

    /** A reset without destruction.  Because the list is not emptied, the manager is fit for
        further use, or for its own destruction, if and only if it had enrolled nothing. */
    method Reset(h: Local)
      requires Valid() && h in holders
      modifies this`entries
      ensures entries == old(entries) - AsSet(h.ids)
      ensures Valid() <==> h.ids == []
    {
      EraseAll(h);
      if h.ids == [] {
        assert entries == old(entries);
        assert Valid();
      } else {
        assert h.ids[0] !in entries;
        assert !ListOk(h);
      }
    }

    /** The entries of a key, as the range from lower to upper bound gives them. */
    method Matching(key: K) returns (ids: seq<nat>)
      requires Valid()
      ensures NoDuplicates(ids) && |ids| <= 1
      ensures forall id :: id in ids <==> id in entries && entries[id].key == key
    {
      ids := [];
      var todo := entries.Keys;
      while todo != {}
        invariant todo <= entries.Keys && NoDuplicates(ids)
        invariant forall id :: id in ids <==> id in entries && id !in todo && entries[id].key == key
        invariant |ids| <= 1
        decreases |todo|
      {
        var id :| id in todo;
        assert |ids| > 0 ==> ids[0] in ids;
        todo := todo - {id};
        if entries[id].key == key {
          ids := ids + [id];
        }
      }
    }

    /** All entries, each once. */
    method All() returns (ids: seq<nat>)
      requires Valid()
      ensures NoDuplicates(ids) && forall id :: id in ids <==> id in entries
    {
      ids := [];
      var todo := entries.Keys;
      while todo != {}
        invariant todo <= entries.Keys && NoDuplicates(ids)
        invariant forall id :: id in ids <==> id in entries && id !in todo
        decreases |todo|
      {
        var id :| id in todo;
        todo := todo - {id};
        ids := ids + [id];
      }
    }
  }

  /** The three registries: global subscribers, subscribers to a key of the keyboard, and
      subscribers to a type of event. */
  class Registries {
    const callbacks: Registry<seq<char>>
    const keyCallbacks: Registry<nat>
    const typeCallbacks: Registry<nat>

    ghost predicate Valid()
      reads this, callbacks, keyCallbacks, typeCallbacks
      reads callbacks.holders, keyCallbacks.holders, typeCallbacks.holders
    {
      callbacks.Valid() && keyCallbacks.Valid() && typeCallbacks.Valid() && keyCallbacks != typeCallbacks
      && keyCallbacks.holders !! typeCallbacks.holders
      && callbacks.holders !! keyCallbacks.holders && callbacks.holders !! typeCallbacks.holders
    }

    constructor ()
      ensures Valid() && fresh(callbacks) && fresh(keyCallbacks) && fresh(typeCallbacks)
      ensures callbacks.entries == map[] && keyCallbacks.entries == map[] && typeCallbacks.entries == map[]
      ensures callbacks.holders == {} && keyCallbacks.holders == {} && typeCallbacks.holders == {}
    {
      callbacks := new Registry<seq<char>>();
      keyCallbacks := new Registry<nat>();
      typeCallbacks := new Registry<nat>();
    }

    /** A new manager joins all three registries. */
    method Join() returns (a: Local, b: Local, c: Local)
      requires Valid()
      modifies callbacks`holders, keyCallbacks`holders, typeCallbacks`holders
      ensures Valid() && a.ids == b.ids == c.ids == [] && fresh(a) && fresh(b) && fresh(c)
      ensures callbacks.holders == old(callbacks.holders) + {a}
      ensures keyCallbacks.holders == old(keyCallbacks.holders) + {b}
      ensures typeCallbacks.holders == old(typeCallbacks.holders) + {c}
    {
      a := callbacks.Join();
      assert callbacks.Valid() && keyCallbacks.Valid() && typeCallbacks.Valid();
      b := keyCallbacks.Join();
      assert callbacks.Valid() && keyCallbacks.Valid() && typeCallbacks.Valid();
      c := typeCallbacks.Join();
      assert callbacks.Valid() && keyCallbacks.Valid();
    }
  }

  /** An event manager: its three lists of iterators into the shared registries. */
  class EventManager {
    const registries: Registries
    const local: Local
    const localKey: Local
    const localType: Local

    ghost predicate Alive()
      reads this, registries, registries.callbacks, registries.keyCallbacks, registries.typeCallbacks
      reads registries.callbacks.holders, registries.keyCallbacks.holders, registries.typeCallbacks.holders
    {
      && registries.Valid()
      && local in registries.callbacks.holders
      && localKey in registries.keyCallbacks.holders
      && localType in registries.typeCallbacks.holders
    }

    constructor (registries: Registries)
      requires registries.Valid()
      modifies registries.callbacks`holders, registries.keyCallbacks`holders, registries.typeCallbacks`holders
      ensures this.registries == registries && Alive()
      ensures local.ids == [] && localKey.ids == [] && localType.ids == []
      ensures fresh(local) && fresh(localKey) && fresh(localType)
      ensures registries.callbacks.holders == old(registries.callbacks.holders) + {local}
      ensures registries.keyCallbacks.holders == old(registries.keyCallbacks.holders) + {localKey}
      ensures registries.typeCallbacks.holders == old(registries.typeCallbacks.holders) + {localType}
      ensures registries.callbacks.entries == old(registries.callbacks.entries)
      ensures registries.keyCallbacks.entries == old(registries.keyCallbacks.entries)
      ensures registries.typeCallbacks.entries == old(registries.typeCallbacks.entries)
    {
      var a, b, c := registries.Join();
      this.registries := registries;
      local, localKey, localType := a, b, c;
      new;
      assert registries.Valid();
    }

    /** Enrolls a global subscriber. */
    method Enroll(name: seq<char>, subscriber: nat) returns (added: bool)
      requires Alive()
      modifies registries.callbacks`entries, registries.callbacks`nextId, local
      ensures Alive() && (added <==> !old(registries.callbacks.Has(name)))
      ensures var r := registries.callbacks;
        if added then
          && old(r.nextId) !in old(r.entries) && local.ids == old(local.ids) + [old(r.nextId)]
          && r.entries == old(r.entries)[old(r.nextId) := Entry(name, name, subscriber)]
        else r.entries == old(r.entries) && local.ids == old(local.ids)
    {
      added := registries.callbacks.Enroll(local, name, name, subscriber);
    }

    /** Enrolls a subscriber to a key of the keyboard. */
    method EnrollKey(key: nat, name: seq<char>, subscriber: nat) returns (added: bool)
      requires Alive()
      modifies registries.keyCallbacks`entries, registries.keyCallbacks`nextId, localKey
      ensures Alive() && (added <==> !old(registries.keyCallbacks.Has(key)))
      ensures var r := registries.keyCallbacks;
        if added then
          && old(r.nextId) !in old(r.entries) && localKey.ids == old(localKey.ids) + [old(r.nextId)]
          && r.entries == old(r.entries)[old(r.nextId) := Entry(key, name, subscriber)]
        else r.entries == old(r.entries) && localKey.ids == old(localKey.ids)
    {
      added := registries.keyCallbacks.Enroll(localKey, key, name, subscriber);
    }

    /** Enrolls a subscriber to a type of event. */
    method EnrollType(kind: nat, name: seq<char>, subscriber: nat) returns (added: bool)
      requires Alive()
      modifies registries.typeCallbacks`entries, registries.typeCallbacks`nextId, localType
      ensures Alive() && (added <==> !old(registries.typeCallbacks.Has(kind)))
      ensures var r := registries.typeCallbacks;
        if added then
          && old(r.nextId) !in old(r.entries) && localType.ids == old(localType.ids) + [old(r.nextId)]
          && r.entries == old(r.entries)[old(r.nextId) := Entry(kind, name, subscriber)]
        else r.entries == old(r.entries) && localType.ids == old(localType.ids)
    {
      added := registries.typeCallbacks.Enroll(localType, kind, name, subscriber);
    }

    /** The destructor: the manager's entries go, and nobody else's. */
    method Destroy()
      requires Alive()
      modifies registries.callbacks, registries.keyCallbacks, registries.typeCallbacks
      ensures registries.Valid()
      ensures registries.callbacks.holders == old(registries.callbacks.holders) - {local}
      ensures registries.keyCallbacks.holders == old(registries.keyCallbacks.holders) - {localKey}
      ensures registries.typeCallbacks.holders == old(registries.typeCallbacks.holders) - {localType}
      ensures registries.callbacks.entries == old(registries.callbacks.entries) - AsSet(local.ids)
      ensures registries.keyCallbacks.entries == old(registries.keyCallbacks.entries) - AsSet(localKey.ids)
      ensures registries.typeCallbacks.entries == old(registries.typeCallbacks.entries) - AsSet(localType.ids)
    {
      registries.callbacks.Leave(local);
      registries.keyCallbacks.Leave(localKey);
      registries.typeCallbacks.Leave(localType);
    }

    /** Dispatch: every global subscriber once, at most one subscriber of the event's key, and
        at most one of its type. */
    method PushEvent(key: nat, kind: nat) returns (all: seq<nat>, forKey: seq<nat>, forType: seq<nat>)
      requires Alive()
      ensures NoDuplicates(all) && forall id :: id in all <==> id in registries.callbacks.entries
      ensures |forKey| <= 1 && forall id ::
        id in forKey <==> id in registries.keyCallbacks.entries && registries.keyCallbacks.entries[id].key == key
      ensures |forType| <= 1 && forall id ::
        id in forType <==> id in registries.typeCallbacks.entries && registries.typeCallbacks.entries[id].key == kind
    {
      all := registries.callbacks.All();
      forKey := registries.keyCallbacks.Matching(key);
      forType := registries.typeCallbacks.Matching(kind);
    }
  }
}
