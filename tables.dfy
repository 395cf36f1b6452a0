/** The in-memory repository behind each service (AlquilerRepository,
    CompraRepository). Its code is not part of this model; only the four
    operations the services use are assumed: insert under a fresh id, find by
    id, replace a stored record, delete by id, plus the listing. */
module Tables {
  import opened Wrappers

  /** A record together with the id the store keeps it under (a saved entity). */
  datatype Saved<T> = Saved(id: int, record: T)

  /** The abstract value of a store: records by id, the ids in insertion
      order, and the next id to hand out. */
  datatype Table<T> = Table(records: map<int, T>, order: seq<int>, nextId: int)

  /** No id occurs twice in s. */
  predicate Distinct(s: seq<int>)
  {
    forall i, j :: 0 <= i < j < |s| ==> s[i] != s[j]
  }

  /** Appending an id that is not yet listed keeps the ids distinct. */
  lemma DistinctAppend(s: seq<int>, x: int)
    requires Distinct(s) && x !in s
    ensures Distinct(s + [x])
  {
    forall i, j | 0 <= i < j < |s + [x]|
      ensures (s + [x])[i] != (s + [x])[j]
    {
      if j == |s| {
        assert s[i] in s;
      }
    }
  }

  /** Putting an id that is not listed in front keeps the ids distinct. */
  lemma DistinctPrepend(x: int, s: seq<int>)
    requires Distinct(s) && x !in s
    ensures Distinct([x] + s)
  {
    forall i, j | 0 <= i < j < |[x] + s|
      ensures ([x] + s)[i] != ([x] + s)[j]
    {
      if i == 0 {
        assert s[j - 1] in s;
      } else {
        assert ([x] + s)[i] == s[i - 1] && ([x] + s)[j] == s[j - 1];
      }
    }
  }

  /** The store invariant: order lists every stored id exactly once, and every
      stored id is below the next id to be handed out. */
  ghost predicate WellFormed<T>(t: Table<T>)
  {
    && Distinct(t.order)
    && (forall id :: id in t.order <==> id in t.records)
    && (forall id :: id in t.records ==> id < t.nextId)
  }

  /** The empty store. */
  function Empty<T>(): (t: Table<T>)
    ensures WellFormed(t) && t.records == map[] && t.order == []
  {
    Table(map[], [], 1)
  }

  /** Saving a new entity: it is stored under an id that was not in use, and
      every other record stays as it was. */
  function Inserted<T>(t: Table<T>, x: T): (u: Table<T>)
    requires WellFormed(t)
    ensures WellFormed(u)
    ensures t.nextId !in t.records && u.nextId > t.nextId
    ensures u.records.Keys == t.records.Keys + {t.nextId} && u.records[t.nextId] == x
    ensures forall id :: id in t.records ==> u.records[id] == t.records[id]
    ensures u.order == t.order + [t.nextId]
  {
    assert t.nextId !in t.order;
    DistinctAppend(t.order, t.nextId);
    Table(t.records[t.nextId := x], t.order + [t.nextId], t.nextId + 1)
  }

  /** Saving an entity that is already stored: its record is replaced, the set
      of ids, their order and the id counter do not change. */
  function Replaced<T>(t: Table<T>, id: int, x: T): (u: Table<T>)
    requires WellFormed(t) && id in t.records
    ensures WellFormed(u)
    ensures u.records.Keys == t.records.Keys && u.records[id] == x
    ensures forall k :: k in t.records && k != id ==> u.records[k] == t.records[k]
    ensures u.order == t.order && u.nextId == t.nextId
  {
    Table(t.records[id := x], t.order, t.nextId)
  }

  /** s with every occurrence of x removed, the rest in the same order. */
  function Without(s: seq<int>, x: int): (r: seq<int>)
    ensures forall y :: y in r <==> y in s && y != x
    ensures Distinct(s) ==> Distinct(r)
    ensures x !in s ==> r == s
  {
    if s == [] then []
    else if s[0] == x then Without(s[1..], x)
    else
      var rest := Without(s[1..], x);
      if Distinct(s) then
        assert s[0] !in s[1..] by {
          forall k | 0 <= k < |s[1..]| ensures s[1..][k] != s[0] { assert s[1..][k] == s[k + 1]; }
        }
        assert Distinct(s[1..]) by {
          forall i, j | 0 <= i < j < |s[1..]| ensures s[1..][i] != s[1..][j] { assert s[1..][i] == s[i + 1] && s[1..][j] == s[j + 1]; }
        }
        DistinctPrepend(s[0], rest);
        [s[0]] + rest
      else
        [s[0]] + rest
  }

  /** x comes before y in s. */
  ghost predicate Before(s: seq<int>, x: int, y: int)
  {
    exists a, b :: 0 <= a < b < |s| && s[a] == x && s[b] == y
  }

  /** Something before y in the tail of s is before y in s. */
  lemma BeforeInTail(s: seq<int>, x: int, y: int)
    requires s != [] && Before(s[1..], x, y)
    ensures Before(s, x, y)
  {
    var a, b :| 0 <= a < b < |s[1..]| && s[1..][a] == x && s[1..][b] == y;
    assert s[a + 1] == x && s[b + 1] == y;
  }

  /** Removing an id keeps the relative order of the remaining ids: any two
      of them appear in the result in the order they had in s. */
  lemma {:induction false} WithoutKeepsOrder(s: seq<int>, x: int)
    ensures forall i, j :: 0 <= i < j < |Without(s, x)| ==> Before(s, Without(s, x)[i], Without(s, x)[j])
  {
    if s != [] {
      WithoutKeepsOrder(s[1..], x);
      var r, rest := Without(s, x), Without(s[1..], x);
      forall i, j | 0 <= i < j < |r| ensures Before(s, r[i], r[j]) {
        if s[0] == x {
          BeforeInTail(s, r[i], r[j]);
        } else if i == 0 {
          assert r[j] == rest[j - 1] && rest[j - 1] in s[1..];
          var b :| 0 <= b < |s[1..]| && s[1..][b] == r[j];
          assert s[0] == r[0] && s[b + 1] == r[j];
        } else {
          assert r[i] == rest[i - 1] && r[j] == rest[j - 1];
          BeforeInTail(s, r[i], r[j]);
        }
      }
    }
  }

  /** deleteById: afterwards id is not stored, every other record is kept and
      nothing else changes; an absent id leaves the store as it was. */
  function Deleted<T>(t: Table<T>, id: int): (u: Table<T>)
    requires WellFormed(t)
    ensures WellFormed(u)
    ensures id !in u.records && u.records.Keys == t.records.Keys - {id}
    ensures forall k :: k in u.records ==> u.records[k] == t.records[k]
    ensures id !in t.records ==> u == t
    ensures u.nextId == t.nextId
    ensures forall i, j :: 0 <= i < j < |u.order| ==> Before(t.order, u.order[i], u.order[j])
  {
    WithoutKeepsOrder(t.order, id);
    Table(t.records - {id}, Without(t.order, id), t.nextId)
  }

  /** Deleting twice is deleting once. */
  lemma DeleteIdempotent<T>(t: Table<T>, id: int)
    requires WellFormed(t)
    ensures Deleted(Deleted(t, id), id) == Deleted(t, id)
  {
  }

  /** The repository: a store whose operations change it in place. */
  class Repository<T> {
    var records: map<int, T>
    var order: seq<int>
    var nextId: int

    /** The abstract value of this store. */
    function Snapshot(): Table<T>
      reads this
    {
      Table(records, order, nextId)
    }

    ghost predicate Valid()
      reads this
    {
      WellFormed(Snapshot())
    }

    constructor ()
      ensures Valid() && Snapshot() == Empty()
    {
      records, order, nextId := map[], [], 1;
    }

    /** save of a new entity. */
    method Insert(x: T) returns (saved: Saved<T>)
      requires Valid()
      modifies this
      ensures Valid()
      ensures Snapshot() == Inserted(old(Snapshot()), x)
      ensures saved == Saved(old(nextId), x) && saved.id !in old(records)
    {
      assert nextId !in order;
      DistinctAppend(order, nextId);
      saved := Saved(nextId, x);
      records := records[nextId := x];
      order := order + [nextId];
      nextId := nextId + 1;
    }

    /** save of an entity that is already stored under id. */
    method Replace(id: int, x: T) returns (saved: Saved<T>)
      requires Valid() && id in records
      modifies this
      ensures Valid()
      ensures Snapshot() == Replaced(old(Snapshot()), id, x)
      ensures saved == Saved(id, x)
    {
      records := records[id := x];
      saved := Saved(id, x);
    }

    /** deleteById. */
    method DeleteById(id: int)
      requires Valid()
      modifies this
      ensures Valid()
      ensures Snapshot() == Deleted(old(Snapshot()), id)
    {
      records := records - {id};
      order := Without(order, id);
    }

    /** findById: a pure read. */
    method FindById(id: int) returns (r: Option<Saved<T>>)
      ensures r.Some? <==> id in records
      ensures r.Some? ==> r.value == Saved(id, records[id])
    {
      if id in records {
        r := Some(Saved(id, records[id]));
      } else {
        r := None;
      }
    }

    /** findAll: every stored record exactly once, in insertion order. */
    method FindAll() returns (all: seq<Saved<T>>)
      requires Valid()
      ensures |all| == |order|
      ensures forall i :: 0 <= i < |all| ==> all[i].id == order[i] && all[i].record == records[order[i]]
      ensures forall id :: id in records <==> exists i :: 0 <= i < |all| && all[i].id == id
    {
      assert forall id :: id in order <==> id in records;
      all := [];
      var i := 0;
      while i < |order|
        invariant 0 <= i <= |order|
        invariant |all| == i
        invariant forall k :: 0 <= k < i ==> all[k].id == order[k] && all[k].record == records[order[k]]
      {
        assert order[i] in order;
        all := all + [Saved(order[i], records[order[i]])];
        i := i + 1;
      }
      forall id | id in records
        ensures exists k :: 0 <= k < |all| && all[k].id == id
      {
        var k :| 0 <= k < |order| && order[k] == id;
        assert all[k].id == id;
      }
    }
  }
}
