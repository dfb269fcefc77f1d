/** All event managers of a program together: who owns which entry of the shared registries
    after any run of calls, and which entries there are. */
module EventRuns {
  import opened Events

  // ---------------------------------------------------------------- one registry

  function Without<T>(s: seq<T>, who: nat): (r: seq<T>)
    requires who < |s|
    ensures |r| == |s| - 1 && forall i | 0 <= i < |r| :: r[i] == s[if i < who then i else i + 1]
  {
    s[..who] + s[who + 1..]
  }

  /** Some manager has enrolled the key. */
  predicate Taken<K(==)>(lists: seq<seq<Entry<K>>>, key: K) {
    exists i, k :: 0 <= i < |lists| && 0 <= k < |lists[i]| && lists[i][k].key == key
  }

  /** What the managers have enrolled after one more enrollment: it is accepted exactly when its
      key is free. */
  function Accepted<K(==)>(lists: seq<seq<Entry<K>>>, who: nat, e: Entry<K>): seq<seq<Entry<K>>> {
    if who >= |lists| || Taken(lists, e.key) then lists else lists[who := lists[who] + [e]]
  }

  /** The iterator at place `k` of manager `i`. */
  ghost function IdAt(ids: seq<seq<nat>>, i: nat, k: nat): nat
    requires i < |ids| && k < |ids[i]|
  {
    ids[i][k]
  }

  ghost predicate Stands(ids: seq<seq<nat>>, i: nat, k: nat, id: nat) {
    i < |ids| && k < |ids[i]| && IdAt(ids, i, k) == id
  }

  /** No iterator stands in two places. */
  ghost predicate Unique(ids: seq<seq<nat>>) {
    forall i: nat, k: nat, j: nat, l: nat, id | Stands(ids, i, k, id) && Stands(ids, j, l, id) :: i == j && k == l
  }

  /** Every entry stands somewhere. */
  ghost predicate Covered<K>(entries: map<nat, Entry<K>>, ids: seq<seq<nat>>) {
    forall id | id in entries :: exists i: nat, k: nat :: Stands(ids, i, k, id)
  }

  ghost predicate Leads<K>(entries: map<nat, Entry<K>>, id: nat, e: Entry<K>) {
    id in entries && entries[id] == e
  }

  /** The iterators of manager `i` lead to the entries of list `i`, in order. */
  ghost predicate Listed<K>(entries: map<nat, Entry<K>>, ids: seq<seq<nat>>, lists: seq<seq<Entry<K>>>) {
    && |ids| == |lists|
    && (forall i | 0 <= i < |ids| :: |ids[i]| == |lists[i]|)
    && (forall i, k | 0 <= i < |ids| && 0 <= k < |ids[i]| :: Leads(entries, IdAt(ids, i, k), lists[i][k]))
  }

  /** The registry holds exactly these entries: every entry is in its list, and nowhere twice. */
  ghost predicate Records<K>(entries: map<nat, Entry<K>>, ids: seq<seq<nat>>, lists: seq<seq<Entry<K>>>) {
    Listed(entries, ids, lists) && Unique(ids) && Covered(entries, ids)
  }

  lemma {:induction false} RecordsTaken<K>(entries: map<nat, Entry<K>>, ids: seq<seq<nat>>, lists: seq<seq<Entry<K>>>, key: K)
    requires Records(entries, ids, lists)
    ensures (exists id :: id in entries && entries[id].key == key) <==> Taken(lists, key)
  {
    if id :| id in entries && entries[id].key == key {
      var i: nat, k: nat :| Stands(ids, i, k, id);
      assert Leads(entries, IdAt(ids, i, k), lists[i][k]);
      assert lists[i][k].key == key;
    }
    if Taken(lists, key) {
      var i, k :| 0 <= i < |lists| && 0 <= k < |lists[i]| && lists[i][k].key == key;
      assert Leads(entries, IdAt(ids, i, k), lists[i][k]);
      assert entries[IdAt(ids, i, k)].key == key;
    }
  }

  lemma {:induction false} RecordsEnrolled<K>(
    entries: map<nat, Entry<K>>, ids: seq<seq<nat>>, lists: seq<seq<Entry<K>>>, who: nat, e: Entry<K>, id: nat)
    requires Records(entries, ids, lists) && who < |lists| && id !in entries && !Taken(lists, e.key)
    ensures Records(entries[id := e], ids[who := ids[who] + [id]], Accepted(lists, who, e))
  {
    var ids', entries', lists' := ids[who := ids[who] + [id]], entries[id := e], Accepted(lists, who, e);
    var last := |ids[who]|;
    forall i, k | 0 <= i < |ids'| && 0 <= k < |ids'[i]| ensures Leads(entries', IdAt(ids', i, k), lists'[i][k]) {
      if i != who || k != last {
        assert Leads(entries, IdAt(ids, i, k), lists[i][k]);
      }
    }
    forall a | a in entries' ensures exists i: nat, k: nat :: Stands(ids', i, k, a) {
      if a == id {
        assert Stands(ids', who, last, id);
      } else {
        var i: nat, k: nat :| Stands(ids, i, k, a);
        assert Stands(ids', i, k, a);
      }
    }
    forall i: nat, k: nat, j: nat, l: nat, a | Stands(ids', i, k, a) && Stands(ids', j, l, a) ensures i == j && k == l {
      assert a != id ==> Stands(ids, i, k, a) && Stands(ids, j, l, a);
      assert i != who || k != last ==> Leads(entries, IdAt(ids, i, k), lists[i][k]);
      assert j != who || l != last ==> Leads(entries, IdAt(ids, j, l), lists[j][l]);
    }
  }

  /** An enrollment, accepted or refused. */
  lemma {:induction false} RecordsAfter<K>(
    entries: map<nat, Entry<K>>, ids: seq<seq<nat>>, lists: seq<seq<Entry<K>>>, who: nat, e: Entry<K>, id: nat,
    added: bool, entries': map<nat, Entry<K>>, ids': seq<seq<nat>>)
    requires Records(entries, ids, lists) && who < |lists|
    requires added <==> !exists a :: a in entries && entries[a].key == e.key
    requires added ==> id !in entries && entries' == entries[id := e] && ids' == ids[who := ids[who] + [id]]
    requires !added ==> entries' == entries && ids' == ids
    ensures Records(entries', ids', Accepted(lists, who, e))
  {
    RecordsTaken(entries, ids, lists, e.key);
    if added {
      RecordsEnrolled(entries, ids, lists, who, e, id);
    }
  }

  lemma {:induction false} RecordsJoined<K>(entries: map<nat, Entry<K>>, ids: seq<seq<nat>>, lists: seq<seq<Entry<K>>>)
    requires Records(entries, ids, lists)
    ensures Records(entries, ids + [[]], lists + [[]])
  {
    var ids', lists' := ids + [[]], lists + [[]];
    forall i, k | 0 <= i < |ids'| && 0 <= k < |ids'[i]| ensures Leads(entries, IdAt(ids', i, k), lists'[i][k]) {
      assert Leads(entries, IdAt(ids, i, k), lists[i][k]);
    }
    forall a | a in entries ensures exists i: nat, k: nat :: Stands(ids', i, k, a) {
      var i: nat, k: nat :| Stands(ids, i, k, a);
      assert Stands(ids', i, k, a);
    }
    forall i: nat, k: nat, j: nat, l: nat, a | Stands(ids', i, k, a) && Stands(ids', j, l, a) ensures i == j && k == l {
      assert Stands(ids, i, k, a) && Stands(ids, j, l, a);
    }
  }

  lemma {:induction false} RecordsLeft<K>(entries: map<nat, Entry<K>>, ids: seq<seq<nat>>, lists: seq<seq<Entry<K>>>, who: nat)
    requires Records(entries, ids, lists) && who < |ids|
    ensures Records(entries - AsSet(ids[who]), Without(ids, who), Without(lists, who))
  {
    var ids', lists', entries' := Without(ids, who), Without(lists, who), entries - AsSet(ids[who]);
    forall i, k | 0 <= i < |ids'| && 0 <= k < |ids'[i]| ensures Leads(entries', IdAt(ids', i, k), lists'[i][k]) {
      var j := if i < who then i else i + 1;
      var id := IdAt(ids, j, k);
      assert Leads(entries, id, lists[j][k]) && Stands(ids, j, k, id);
      if id in ids[who] {
        var l :| 0 <= l < |ids[who]| && ids[who][l] == id;
        assert Stands(ids, who, l, id);
      }
    }
    forall a | a in entries' ensures exists i: nat, k: nat :: Stands(ids', i, k, a) {
      var i: nat, k: nat :| Stands(ids, i, k, a);
      assert i != who;
      assert Stands(ids', if i < who then i else i - 1, k, a);
    }
    forall i: nat, k: nat, j: nat, l: nat, a | Stands(ids', i, k, a) && Stands(ids', j, l, a) ensures i == j && k == l {
      assert Stands(ids, if i < who then i else i + 1, k, a) && Stands(ids, if j < who then j else j + 1, l, a);
    }
  }

  /** In any of the three registries, every entry was enrolled by exactly one of the managers,
      once, and no other entry has its key. */
  lemma {:induction false} OneOwner<K>(r: Registry<K>, ids: seq<seq<nat>>, lists: seq<seq<Entry<K>>>, id: nat)
    returns (who: nat, k: nat)
    requires r.Valid() && Records(r.entries, ids, lists) && id in r.entries
    ensures who < |lists| && k < |lists[who]| && lists[who][k] == r.entries[id] && ids[who][k] == id
    ensures forall other | other in r.entries && other != id :: r.entries[other].key != r.entries[id].key
    ensures forall i, l | 0 <= i < |ids| && 0 <= l < |ids[i]| && ids[i][l] == id :: i == who && l == k
  {
    who, k :| Stands(ids, who, k, id);
    assert Leads(r.entries, IdAt(ids, who, k), lists[who][k]);
    forall i, l | 0 <= i < |ids| && 0 <= l < |ids[i]| && ids[i][l] == id ensures i == who && l == k {
      assert Stands(ids, i, l, id);
    }
  }

  // ---------------------------------------------------------------- all managers

  function Locals(managers: seq<EventManager>): set<Local> {
    set i | 0 <= i < |managers| :: managers[i].local
  }

  function KeyLocals(managers: seq<EventManager>): set<Local> {
    set i | 0 <= i < |managers| :: managers[i].localKey
  }

  function TypeLocals(managers: seq<EventManager>): set<Local> {
    set i | 0 <= i < |managers| :: managers[i].localType
  }

  /** No two managers share a list. */
  predicate Apart(managers: seq<EventManager>) {
    forall i, j | 0 <= i < j < |managers| ::
      && managers[i].local != managers[j].local
      && managers[i].localKey != managers[j].localKey
      && managers[i].localType != managers[j].localType
  }

  lemma {:induction false} LocalsWith(managers: seq<EventManager>, m: EventManager)
    ensures Locals(managers + [m]) == Locals(managers) + {m.local}
    ensures KeyLocals(managers + [m]) == KeyLocals(managers) + {m.localKey}
    ensures TypeLocals(managers + [m]) == TypeLocals(managers) + {m.localType}
  {
    var more := managers + [m];
    assert more[..|managers|] == managers && more[|managers|] == m;
    forall i | 0 <= i < |managers|
      ensures managers[i].local in Locals(more)
      ensures managers[i].localKey in KeyLocals(more)
      ensures managers[i].localType in TypeLocals(more)
    {
      assert more[i] == managers[i];
    }
  }

  lemma {:induction false} LocalsWithout(managers: seq<EventManager>, who: nat)
    requires Apart(managers) && who < |managers|
    ensures Apart(Without(managers, who))
    ensures Locals(Without(managers, who)) == Locals(managers) - {managers[who].local}
    ensures KeyLocals(Without(managers, who)) == KeyLocals(managers) - {managers[who].localKey}
    ensures TypeLocals(Without(managers, who)) == TypeLocals(managers) - {managers[who].localType}
  {
    var rest := Without(managers, who);
    forall i | 0 <= i < |managers| && i != who
      ensures managers[i].local in Locals(rest)
      ensures managers[i].localKey in KeyLocals(rest)
      ensures managers[i].localType in TypeLocals(rest)
    {
      assert managers[i] == rest[if i < who then i else i - 1];
    }
  }

  /** What the lists of the managers contain. */
  datatype Iterators = Iterators(all: seq<seq<nat>>, byKey: seq<seq<nat>>, byType: seq<seq<nat>>)

  ghost predicate Has(m: EventManager, all: seq<nat>, byKey: seq<nat>, byType: seq<nat>)
    reads m.local, m.localKey, m.localType
  {
    m.local.ids == all && m.localKey.ids == byKey && m.localType.ids == byType
  }

  ghost predicate Have(managers: seq<EventManager>, its: Iterators)
    reads set i | 0 <= i < |managers| :: managers[i].local
    reads set i | 0 <= i < |managers| :: managers[i].localKey
    reads set i | 0 <= i < |managers| :: managers[i].localType
  {
    && |its.all| == |its.byKey| == |its.byType| == |managers|
    && forall i | 0 <= i < |managers| :: Has(managers[i], its.all[i], its.byKey[i], its.byType[i])
  }

  datatype Call =
    | Create
    | EnrollGlobal(who: nat, name: seq<char>, subscriber: nat)
    | EnrollForKey(who: nat, key: nat, name: seq<char>, subscriber: nat)
    | EnrollForType(who: nat, kind: nat, name: seq<char>, subscriber: nat)
    | Delete(who: nat)

  /** What each living manager has enrolled successfully, in each registry. */
  datatype Contents = Contents(
    all: seq<seq<Entry<seq<char>>>>, byKey: seq<seq<Entry<nat>>>, byType: seq<seq<Entry<nat>>>)
  {
    function After(call: Call): Contents {
      match call
      case Create => Contents(all + [[]], byKey + [[]], byType + [[]])
      case EnrollGlobal(who, name, subscriber) => this.(all := Accepted(all, who, Entry(name, name, subscriber)))
      case EnrollForKey(who, key, name, subscriber) => this.(byKey := Accepted(byKey, who, Entry(key, name, subscriber)))
      case EnrollForType(who, kind, name, subscriber) => this.(byType := Accepted(byType, who, Entry(kind, name, subscriber)))
      case Delete(who) =>
        if who < |all| && who < |byKey| && who < |byType|
        then Contents(Without(all, who), Without(byKey, who), Without(byType, who)) else this
    }
  }

  function Final(calls: seq<Call>): Contents {
    if calls == [] then Contents([], [], []) else Final(calls[..|calls| - 1]).After(calls[|calls| - 1])
  }

  /** The registries are shared by exactly these managers. */
  ghost predicate OwnedBy(registries: Registries, managers: seq<EventManager>)
    reads registries, registries.callbacks, registries.keyCallbacks, registries.typeCallbacks
    reads registries.callbacks.holders, registries.keyCallbacks.holders, registries.typeCallbacks.holders
  {
    && registries.Valid() && Apart(managers)
    && (forall i | 0 <= i < |managers| :: managers[i].registries == registries)
    && registries.callbacks.holders == Locals(managers)
    && registries.keyCallbacks.holders == KeyLocals(managers)
    && registries.typeCallbacks.holders == TypeLocals(managers)
  }

  /** And they hold exactly what these managers have enrolled. */
  ghost predicate Holds(registries: Registries, its: Iterators, c: Contents)
    reads registries, registries.callbacks, registries.keyCallbacks, registries.typeCallbacks
  {
    && Records(registries.callbacks.entries, its.all, c.all)
    && Records(registries.keyCallbacks.entries, its.byKey, c.byKey)
    && Records(registries.typeCallbacks.entries, its.byType, c.byType)
  }

  /** A manager is created. */
  method Add(registries: Registries, managers: seq<EventManager>, ghost its: Iterators)
    returns (after: seq<EventManager>, ghost its': Iterators)
    requires OwnedBy(registries, managers) && Have(managers, its)
    modifies registries.callbacks`holders, registries.keyCallbacks`holders, registries.typeCallbacks`holders
    ensures OwnedBy(registries, after) && Have(after, its')
    ensures its' == Iterators(its.all + [[]], its.byKey + [[]], its.byType + [[]])
    ensures fresh(registries.callbacks.holders - old(registries.callbacks.holders))
    ensures fresh(registries.keyCallbacks.holders - old(registries.keyCallbacks.holders))
    ensures fresh(registries.typeCallbacks.holders - old(registries.typeCallbacks.holders))
  {
    var m := new EventManager(registries);
    LocalsWith(managers, m);
    after := managers + [m];
    its' := Iterators(its.all + [[]], its.byKey + [[]], its.byType + [[]]);
    forall i | 0 <= i < |after| ensures Has(after[i], its'.all[i], its'.byKey[i], its'.byType[i]) {
      assert i < |managers| ==> Has(managers[i], its.all[i], its.byKey[i], its.byType[i]);
    }
  }

  /** A manager is destroyed, and its entries with it. */
  method Remove(registries: Registries, managers: seq<EventManager>, who: nat, ghost its: Iterators)
    returns (after: seq<EventManager>, ghost its': Iterators)
    requires OwnedBy(registries, managers) && Have(managers, its) && who < |managers|
    modifies registries.callbacks, registries.keyCallbacks, registries.typeCallbacks
    ensures OwnedBy(registries, after) && Have(after, its')
    ensures its' == Iterators(Without(its.all, who), Without(its.byKey, who), Without(its.byType, who))
    ensures registries.callbacks.entries == old(registries.callbacks.entries) - AsSet(its.all[who])
    ensures registries.keyCallbacks.entries == old(registries.keyCallbacks.entries) - AsSet(its.byKey[who])
    ensures registries.typeCallbacks.entries == old(registries.typeCallbacks.entries) - AsSet(its.byType[who])
    ensures registries.callbacks.holders <= old(registries.callbacks.holders)
    ensures registries.keyCallbacks.holders <= old(registries.keyCallbacks.holders)
    ensures registries.typeCallbacks.holders <= old(registries.typeCallbacks.holders)
  {
    var m := managers[who];
    assert m.local in Locals(managers) && m.localKey in KeyLocals(managers) && m.localType in TypeLocals(managers);
    assert Has(m, its.all[who], its.byKey[who], its.byType[who]);
    LocalsWithout(managers, who);
    m.Destroy();
    after := Without(managers, who);
    its' := Iterators(Without(its.all, who), Without(its.byKey, who), Without(its.byType, who));
    forall i | 0 <= i < |after| ensures Has(after[i], its'.all[i], its'.byKey[i], its'.byType[i]) {
      var j := if i < who then i else i + 1;
      assert Has(managers[j], its.all[j], its.byKey[j], its.byType[j]);
    }
  }

  /** Enrollments by one of the managers. */
  method AddGlobal(registries: Registries, managers: seq<EventManager>, who: nat, name: seq<char>, subscriber: nat,
                   ghost its: Iterators)
    returns (added: bool, ghost its': Iterators)
    requires OwnedBy(registries, managers) && Have(managers, its) && who < |managers|
    modifies registries.callbacks`entries, registries.callbacks`nextId, registries.callbacks.holders
    ensures OwnedBy(registries, managers) && Have(managers, its')
    ensures added <==> !old(registries.callbacks.Has(name))
    ensures var r := registries.callbacks;
      if added then
        && old(r.nextId) !in old(r.entries) && its' == its.(all := its.all[who := its.all[who] + [old(r.nextId)]])
        && r.entries == old(r.entries)[old(r.nextId) := Entry(name, name, subscriber)]
      else r.entries == old(r.entries) && its' == its
  {
    var m := managers[who];
    assert m.local in Locals(managers) && m.localKey in KeyLocals(managers) && m.localType in TypeLocals(managers);
    assert Has(m, its.all[who], its.byKey[who], its.byType[who]);
    ghost var id := registries.callbacks.nextId;
    added := m.Enroll(name, subscriber);
    its' := if added then its.(all := its.all[who := its.all[who] + [id]]) else its;
    forall i | 0 <= i < |managers| ensures Has(managers[i], its'.all[i], its'.byKey[i], its'.byType[i]) {
      assert old(Has(managers[i], its.all[i], its.byKey[i], its.byType[i]));
    }
  }

  method AddForKey(registries: Registries, managers: seq<EventManager>, who: nat, key: nat, name: seq<char>,
                   subscriber: nat, ghost its: Iterators)
    returns (added: bool, ghost its': Iterators)
    requires OwnedBy(registries, managers) && Have(managers, its) && who < |managers|
    modifies registries.keyCallbacks`entries, registries.keyCallbacks`nextId, registries.keyCallbacks.holders
    ensures OwnedBy(registries, managers) && Have(managers, its')
    ensures added <==> !old(registries.keyCallbacks.Has(key))
    ensures var r := registries.keyCallbacks;
      if added then
        && old(r.nextId) !in old(r.entries) && its' == its.(byKey := its.byKey[who := its.byKey[who] + [old(r.nextId)]])
        && r.entries == old(r.entries)[old(r.nextId) := Entry(key, name, subscriber)]
      else r.entries == old(r.entries) && its' == its
  {
    var m := managers[who];
    assert m.local in Locals(managers) && m.localKey in KeyLocals(managers) && m.localType in TypeLocals(managers);
    assert Has(m, its.all[who], its.byKey[who], its.byType[who]);
    ghost var id := registries.keyCallbacks.nextId;
    added := m.EnrollKey(key, name, subscriber);
    its' := if added then its.(byKey := its.byKey[who := its.byKey[who] + [id]]) else its;
    forall i | 0 <= i < |managers| ensures Has(managers[i], its'.all[i], its'.byKey[i], its'.byType[i]) {
      assert old(Has(managers[i], its.all[i], its.byKey[i], its.byType[i]));
    }
  }

  method AddForType(registries: Registries, managers: seq<EventManager>, who: nat, kind: nat, name: seq<char>,
                   subscriber: nat, ghost its: Iterators)
    returns (added: bool, ghost its': Iterators)
    requires OwnedBy(registries, managers) && Have(managers, its) && who < |managers|
    modifies registries.typeCallbacks`entries, registries.typeCallbacks`nextId, registries.typeCallbacks.holders
    ensures OwnedBy(registries, managers) && Have(managers, its')
    ensures added <==> !old(registries.typeCallbacks.Has(kind))
    ensures var r := registries.typeCallbacks;
      if added then
        && old(r.nextId) !in old(r.entries) && its' == its.(byType := its.byType[who := its.byType[who] + [old(r.nextId)]])
        && r.entries == old(r.entries)[old(r.nextId) := Entry(kind, name, subscriber)]
      else r.entries == old(r.entries) && its' == its
  {
    var m := managers[who];
    assert m.local in Locals(managers) && m.localKey in KeyLocals(managers) && m.localType in TypeLocals(managers);
    assert Has(m, its.all[who], its.byKey[who], its.byType[who]);
    ghost var id := registries.typeCallbacks.nextId;
    added := m.EnrollType(kind, name, subscriber);
    its' := if added then its.(byType := its.byType[who := its.byType[who] + [id]]) else its;
    forall i | 0 <= i < |managers| ensures Has(managers[i], its'.all[i], its'.byKey[i], its'.byType[i]) {
      assert old(Has(managers[i], its.all[i], its.byKey[i], its.byType[i]));
    }
  }

  /** After an enrollment the registry holds what was enrolled, in each of the three registries. */
  method RunGlobal(registries: Registries, managers: seq<EventManager>, who: nat, name: seq<char>, subscriber: nat,
                  ghost its: Iterators, ghost lists: seq<seq<Entry<seq<char>>>>)
    returns (ghost its': Iterators)
    requires OwnedBy(registries, managers) && Have(managers, its) && who < |managers|
    requires Records(registries.callbacks.entries, its.all, lists)
    modifies registries.callbacks`entries, registries.callbacks`nextId, registries.callbacks.holders
    ensures OwnedBy(registries, managers) && Have(managers, its') && its' == its.(all := its'.all)
    ensures Records(registries.callbacks.entries, its'.all, Accepted(lists, who, Entry(name, name, subscriber)))
  {
    ghost var r := registries.callbacks;
    ghost var entries, id := r.entries, r.nextId;
    var added;
    added, its' := AddGlobal(registries, managers, who, name, subscriber, its);
    RecordsAfter(entries, its.all, lists, who, Entry(name, name, subscriber), id, added, r.entries, its'.all);
  }

  method RunForKey(registries: Registries, managers: seq<EventManager>, who: nat, key: nat, name: seq<char>, subscriber: nat,
                  ghost its: Iterators, ghost lists: seq<seq<Entry<nat>>>)
    returns (ghost its': Iterators)
    requires OwnedBy(registries, managers) && Have(managers, its) && who < |managers|
    requires Records(registries.keyCallbacks.entries, its.byKey, lists)
    modifies registries.keyCallbacks`entries, registries.keyCallbacks`nextId, registries.keyCallbacks.holders
    ensures OwnedBy(registries, managers) && Have(managers, its') && its' == its.(byKey := its'.byKey)
    ensures Records(registries.keyCallbacks.entries, its'.byKey, Accepted(lists, who, Entry(key, name, subscriber)))
  {
    ghost var r := registries.keyCallbacks;
    ghost var entries, id := r.entries, r.nextId;
    var added;
    added, its' := AddForKey(registries, managers, who, key, name, subscriber, its);
    RecordsAfter(entries, its.byKey, lists, who, Entry(key, name, subscriber), id, added, r.entries, its'.byKey);
  }

  method RunForType(registries: Registries, managers: seq<EventManager>, who: nat, kind: nat, name: seq<char>, subscriber: nat,
                   ghost its: Iterators, ghost lists: seq<seq<Entry<nat>>>)
    returns (ghost its': Iterators)
    requires OwnedBy(registries, managers) && Have(managers, its) && who < |managers|
    requires Records(registries.typeCallbacks.entries, its.byType, lists)
    modifies registries.typeCallbacks`entries, registries.typeCallbacks`nextId, registries.typeCallbacks.holders
    ensures OwnedBy(registries, managers) && Have(managers, its') && its' == its.(byType := its'.byType)
    ensures Records(registries.typeCallbacks.entries, its'.byType, Accepted(lists, who, Entry(kind, name, subscriber)))
  {
    ghost var r := registries.typeCallbacks;
    ghost var entries, id := r.entries, r.nextId;
    var added;
    added, its' := AddForType(registries, managers, who, kind, name, subscriber, its);
    RecordsAfter(entries, its.byType, lists, who, Entry(kind, name, subscriber), id, added, r.entries, its'.byType);
  }

  /** A new manager has enrolled nothing. */
  lemma {:induction false} HoldsJoined(registries: Registries, its: Iterators, c: Contents)
    requires Holds(registries, its, c)
    ensures Holds(registries, Iterators(its.all + [[]], its.byKey + [[]], its.byType + [[]]), c.After(Create))
  {
    RecordsJoined(registries.callbacks.entries, its.all, c.all);
    RecordsJoined(registries.keyCallbacks.entries, its.byKey, c.byKey);
    RecordsJoined(registries.typeCallbacks.entries, its.byType, c.byType);
  }

  /** One call by anybody.  Calls to managers that do not exist are not made. */
  method RunCall(registries: Registries, managers: seq<EventManager>, call: Call, ghost its: Iterators,
                 ghost c: Contents)
    returns (after: seq<EventManager>, ghost its': Iterators)
    requires OwnedBy(registries, managers) && Have(managers, its) && Holds(registries, its, c)
    modifies registries.callbacks, registries.keyCallbacks, registries.typeCallbacks
    modifies registries.callbacks.holders, registries.keyCallbacks.holders, registries.typeCallbacks.holders
    ensures OwnedBy(registries, after) && Have(after, its') && Holds(registries, its', c.After(call))
    ensures fresh(registries.callbacks.holders - old(registries.callbacks.holders))
    ensures fresh(registries.keyCallbacks.holders - old(registries.keyCallbacks.holders))
    ensures fresh(registries.typeCallbacks.holders - old(registries.typeCallbacks.holders))
  {
    after, its' := managers, its;
    if call.Create? {
      HoldsJoined(registries, its, c);
      after, its' := Add(registries, managers, its);
    } else if call.who < |managers| {
      if call.Delete? {
        RecordsLeft(registries.callbacks.entries, its.all, c.all, call.who);
        RecordsLeft(registries.keyCallbacks.entries, its.byKey, c.byKey, call.who);
        RecordsLeft(registries.typeCallbacks.entries, its.byType, c.byType, call.who);
        after, its' := Remove(registries, managers, call.who, its);
      } else {
        match call {
          case EnrollGlobal(who, name, subscriber) =>
            its' := RunGlobal(registries, managers, who, name, subscriber, its, c.all);
          case EnrollForKey(who, key, name, subscriber) =>
            its' := RunForKey(registries, managers, who, key, name, subscriber, its, c.byKey);
          case EnrollForType(who, kind, name, subscriber) =>
            its' := RunForType(registries, managers, who, kind, name, subscriber, its, c.byType);
        }
      }
    }
  }

  /** Any interleaving of calls by any number of managers, from empty registries.  Each registry
      holds exactly the enrollments of the living managers that found their key free; there
      is at most one entry per key, and every entry stands in the list of the one manager
      that enrolled it. */
  method RunCalls(registries: Registries, calls: seq<Call>) returns (managers: seq<EventManager>, ghost its: Iterators)
    requires OwnedBy(registries, [])
    requires registries.callbacks.entries == map[]
    requires registries.keyCallbacks.entries == map[] && registries.typeCallbacks.entries == map[]
    modifies registries.callbacks, registries.keyCallbacks, registries.typeCallbacks
    ensures OwnedBy(registries, managers) && Have(managers, its) && Holds(registries, its, Final(calls))
    ensures managers == [] ==>
      && registries.callbacks.entries == map[]
      && registries.keyCallbacks.entries == map[] && registries.typeCallbacks.entries == map[]
  {
    managers, its := [], Iterators([], [], []);
    for i := 0 to |calls|
      invariant OwnedBy(registries, managers) && Have(managers, its) && Holds(registries, its, Final(calls[..i]))
      invariant fresh(registries.callbacks.holders)
      invariant fresh(registries.keyCallbacks.holders)
      invariant fresh(registries.typeCallbacks.holders)
    {
      assert calls[..i + 1][..i] == calls[..i];
      managers, its := RunCall(registries, managers, calls[i], its, Final(calls[..i]));
    }
    assert calls[..|calls|] == calls;
  }

  /** A program: the registries are made, and then anything happens. */
  method Program(calls: seq<Call>) returns (registries: Registries, managers: seq<EventManager>, ghost its: Iterators)
    ensures OwnedBy(registries, managers) && Have(managers, its) && Holds(registries, its, Final(calls))
  {
    registries := new Registries();
    managers, its := RunCalls(registries, calls);
  }
}
