/** The Spring Data JPA repositories the services persist their entities
    through, reduced to a keyed table: `rows` maps an entity's id to the
    entity, and `order` lists the ids in the order `findAll` returns them.
    The model fixes that order as insertion order, one order a database
    may return; the services do not ask for any order. */
module Persistence {
  import opened Shared

  /** No id occurs twice. */
  ghost predicate Distinct(s: seq<Uuid>) {
    forall i, j | 0 <= i < j < |s| :: s[i] != s[j]
  }

  /** The entities stored under `keys`, in that order. */
  function Listed<T>(keys: seq<Uuid>, rows: map<Uuid, T>): (r: seq<T>)
    requires forall k | k in keys :: k in rows
    ensures |r| == |keys|
    ensures forall i | 0 <= i < |keys| :: r[i] == rows[keys[i]]
  {
    if keys == [] then [] else [rows[keys[0]]] + Listed(keys[1..], rows)
  }

  /** Every stored entity appears in the listing of all keys. */
  lemma ListedCovers<T>(keys: seq<Uuid>, rows: map<Uuid, T>, k: Uuid)
    requires forall k' | k' in keys :: k' in rows
    requires k in keys
    ensures rows[k] in Listed(keys, rows)
  {
    var i :| 0 <= i < |keys| && keys[i] == k;
    assert Listed(keys, rows)[i] == rows[k];
  }

  /** Saving a new entity appends it to the listing and leaves the rest as
      it was. */
  lemma {:induction false} ListedAppend<T>(keys: seq<Uuid>, rows: map<Uuid, T>, id: Uuid, v: T)
    requires forall k | k in keys :: k in rows
    requires id !in keys
    ensures Listed(keys + [id], rows[id := v]) == Listed(keys, rows) + [v]
  {
    if keys != [] {
      assert (keys + [id])[1..] == keys[1..] + [id];
      ListedAppend(keys[1..], rows, id, v);
    }
  }

  /** `s` with `x` removed. */
  function Without(s: seq<Uuid>, x: Uuid): (r: seq<Uuid>)
    ensures forall y :: y in r <==> y in s && y != x
    ensures Distinct(s) ==> Distinct(r)
  {
    if s == [] then []
    else if s[0] == x then Without(s[1..], x)
    else
      var rest := Without(s[1..], x);
      assert Distinct(s) ==> Distinct(s[1..]) && s[0] !in rest;
      [s[0]] + rest
  }

  class Repository<T> {
    var rows: map<Uuid, T>
    var order: seq<Uuid>

    /** The listing holds each stored id exactly once. */
    ghost predicate Valid()
      reads this
    {
      Distinct(order) && forall k :: k in rows <==> k in order
    }

    constructor ()
      ensures Valid() && rows == map[] && order == []
    {
      rows, order := map[], [];
    }

    /** `findAll`: every stored entity, in insertion order. */
    function FindAll(): seq<T>
      reads this
      requires Valid()
    {
      Listed(order, rows)
    }

    /** `save`: inserts the entity under `id`, or overwrites the one stored
        there. */
    method Save(id: Uuid, v: T)
      requires Valid()
      modifies this
      ensures Valid()
      ensures rows == old(rows)[id := v]
      ensures order == if id in old(rows) then old(order) else old(order) + [id]
    {
      if id !in rows {
        order := order + [id];
      }
      rows := rows[id := v];
    }

    /** `deleteById`: removes the entity stored under `id`, if there is one. */
    method DeleteById(id: Uuid)
      requires Valid()
      modifies this
      ensures Valid()
      ensures rows == old(rows) - {id}
      ensures order == Without(old(order), id)
    {
      rows := rows - {id};
      order := Without(order, id);
    }
  }
}
