/**
 The sessions a server knows: by the number of a client, then by that of the session;
 tpproxy/mpproxy_server.cc:207-254.
 */
module Registries {

  datatype Option<+T> = None | Some(value: T)

  datatype Key = Key(uuid: nat, sid: nat)

  type Registry<T> = map<nat, map<nat, T>>

  function Lookup<T>(r: Registry<T>, k: Key): Option<T> {
    if k.uuid in r && k.sid in r[k.uuid] then Some(r[k.uuid][k.sid]) else None
  }

  /** No inner map is left empty. */
  predicate Tidy<T(==)>(r: Registry<T>) {
    forall u :: u in r ==> r[u] != map[]
  }

  function Registered<T>(r: Registry<T>, k: Key, t: T): Registry<T> {
    var inner: map<nat, T> := if k.uuid in r then r[k.uuid] else map[];
    r[k.uuid := inner[k.sid := t]]
  }

  function Unregistered<T(==)>(r: Registry<T>, k: Key): Registry<T>
    requires Lookup(r, k).Some?
  {
    var inner := r[k.uuid] - {k.sid};
    if inner == map[] then r - {k.uuid} else r[k.uuid := inner]
  }

  /** Registering changes one session only. */
  lemma RegisterAddsOne<T>(r: Registry<T>, k: Key, t: T)
    ensures forall j: Key :: Lookup(Registered(r, k, t), j) == if j == k then Some(t) else Lookup(r, j)
  {
  }

  /** Unregistering removes one session only, and no empty inner map is left. */
  lemma UnregisterRemovesOne<T>(r: Registry<T>, k: Key)
    requires Tidy(r) && Lookup(r, k).Some?
    ensures Tidy(Unregistered(r, k))
    ensures forall j: Key :: Lookup(Unregistered(r, k), j) == if j == k then None else Lookup(r, j)
  {
    var inner := r[k.uuid] - {k.sid};
    assert forall s :: s in r[k.uuid] && s != k.sid ==> s in inner;
  }

  /** Unregistering undoes registering. */
  lemma RegisterThenUnregister<T>(r: Registry<T>, k: Key, t: T)
    requires Tidy(r) && Lookup(r, k).None?
    ensures Tidy(Registered(r, k, t)) && Unregistered(Registered(r, k, t), k) == r
  {
    var after := Registered(r, k, t);
    if k.uuid in r {
      assert after[k.uuid] - {k.sid} == r[k.uuid];
    } else {
      assert after[k.uuid] - {k.sid} == map[];
      assert after - {k.uuid} == r;
    }
    assert k.sid in after[k.uuid];
  }

  function Entries<T(==)>(r: Registry<T>): set<T> {
    set u, s | u in r && s in r[u] :: r[u][s]
  }

  lemma EntryHasKey<T>(r: Registry<T>, t: T)
    ensures t in Entries(r) <==> exists k: Key :: Lookup(r, k) == Some(t)
  {
    if t in Entries(r) {
      var u, s :| u in r && s in r[u] && r[u][s] == t;
      assert Lookup(r, Key(u, s)) == Some(t);
    }
  }

  lemma RegisterAddsEntry<T>(r: Registry<T>, k: Key, t: T)
    requires Lookup(r, k).None?
    ensures Entries(Registered(r, k, t)) == Entries(r) + {t}
  {
    var after := Registered(r, k, t);
    assert after[k.uuid][k.sid] == t;
    forall e | e in Entries(r)
      ensures e in Entries(after)
    {
      var u, s :| u in r && s in r[u] && r[u][s] == e;
      assert u in after && s in after[u] && after[u][s] == e;
    }
  }
}
