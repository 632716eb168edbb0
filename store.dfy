/** The dictionary every in-memory repository keeps: id to entity. The
    queries each repository repeats (`store.get`, the attribute filter, its
    length, `pop()` of a match) and the three writes (`store[e.id] = e`
    after id assignment, plain `store[e.id] = e`, `del store[e.id]`) are
    defined here once, on values. */
module Store {
  import opened Common

  type Table = map<Key, Entity>

  /** The order of ids in Python 2: `None` sorts before every integer. */
  predicate KeyLt(a: Key, b: Key)
  {
    match a
    case None => b.Some?
    case Some(x) => b.Some? && x < b.value
  }

  predicate StrictlyIncreasing(ks: seq<Key>)
  {
    forall i, j :: 0 <= i < j < |ks| ==> KeyLt(ks[i], ks[j])
  }

  predicate IdsIncreasing(es: seq<Entity>)
  {
    forall i, j :: 0 <= i < j < |es| ==> KeyLt(es[i].id, es[j].id)
  }

  predicate IsLeast(m: Key, s: set<Key>)
  {
    m in s && forall k :: k in s && k != m ==> KeyLt(m, k)
  }

  lemma KeyLtTransitive(a: Key, b: Key, c: Key)
    requires KeyLt(a, b) && KeyLt(b, c)
    ensures KeyLt(a, c)
  {
  }

  lemma {:induction false} LeastExists(s: set<Key>)
    requires s != {}
    ensures exists m :: IsLeast(m, s)
    decreases |s|
  {
    var x :| x in s;
    if s != {x} {
      LeastExists(s - {x});
      var m :| IsLeast(m, s - {x});
      if KeyLt(x, m) {
        forall k | k in s && k != x
          ensures KeyLt(x, k)
        {
          if k != m { KeyLtTransitive(x, m, k); }
        }
        assert IsLeast(x, s);
      } else {
        assert IsLeast(m, s);
      }
    } else {
      assert IsLeast(x, s);
    }
  }

  function Least(s: set<Key>): (m: Key)
    requires s != {}
    ensures IsLeast(m, s)
  {
    LeastExists(s);
    var m :| IsLeast(m, s); m
  }

  /** The keys of `s` in ascending order. */
  function SortedKeys(s: set<Key>): (ks: seq<Key>)
    ensures |ks| == |s|
    ensures forall k :: k in ks <==> k in s
    ensures StrictlyIncreasing(ks)
    decreases |s|
  {
    if s == {} then []
    else
      var m := Least(s);
      [m] + SortedKeys(s - {m})
  }

  /** Every entity is stored under its own id, as `store[e.id] = e` leaves it. */
  predicate KeyedById(t: Table)
  {
    forall k :: k in t ==> t[k].id == k
  }

  /** A repository's dictionary for one class: every entity is of that class
      and stored under its own id. */
  predicate WellKeyed(t: Table, kind: Kind)
  {
    KeyedById(t) && forall k :: k in t ==> t[k].kind == kind
  }

  /** No stored id lies above the counter, so the counter's next value is unused. */
  predicate IdsWithin(t: Table, count: nat)
  {
    forall k :: k in t && k.Some? ==> k.value <= count
  }

  function KeysWhere(t: Table, p: Entity -> bool): set<Key>
  {
    set k | k in t && p(t[k])
  }

  function Rows(t: Table, ks: seq<Key>): (r: seq<Entity>)
    requires forall k :: k in ks ==> k in t
    ensures |r| == |ks| && forall i :: 0 <= i < |ks| ==> r[i] == t[ks[i]]
  {
    seq(|ks|, i requires 0 <= i < |ks| => t[ks[i]])
  }

  lemma RowsEnumerate(t: Table, p: Entity -> bool, ks: seq<Key>)
    requires forall k :: k in ks <==> k in KeysWhere(t, p)
    ensures forall e :: e in Rows(t, ks) <==> e in t.Values && p(e)
  {
    var r := Rows(t, ks);
    forall e
      ensures e in r <==> e in t.Values && p(e)
    {
      if e in r {
        var i :| 0 <= i < |r| && r[i] == e;
        assert ks[i] in KeysWhere(t, p);
      }
      if e in t.Values && p(e) {
        var k :| k in t && t[k] == e;
        assert k in KeysWhere(t, p);
        var i :| 0 <= i < |ks| && ks[i] == k;
        assert r[i] == e;
      }
    }
  }

  /** `filter(p, store.values())`, listed in ascending key order. */
  function Where(t: Table, p: Entity -> bool): (r: seq<Entity>)
    ensures |r| == |KeysWhere(t, p)|
    ensures forall e :: e in r <==> e in t.Values && p(e)
    ensures KeyedById(t) ==> IdsIncreasing(r)
  {
    var ks := SortedKeys(KeysWhere(t, p));
    RowsEnumerate(t, p, ks);
    Rows(t, ks)
  }

  function Matcher(f: Filter): Entity -> bool
  {
    e => Matches(e, f)
  }

  /** The keys whose entity matches every pair of the filter. */
  function MatchingKeys(t: Table, f: Filter): set<Key>
  {
    set k | k in t && Matches(t[k], f)
  }

  /** `filter(lambda e: reduce(... getattr(e, z) == filters[z] ...), store.values())` */
  function FilterBy(t: Table, f: Filter): (r: seq<Entity>)
    ensures |r| == |MatchingKeys(t, f)|
    ensures forall e :: e in r <==> e in t.Values && Matches(e, f)
    ensures f == map[] ==> |r| == |t|
    ensures KeyedById(t) ==> IdsIncreasing(r)
  {
    assert KeysWhere(t, Matcher(f)) == MatchingKeys(t, f);
    assert f == map[] ==> MatchingKeys(t, f) == t.Keys;
    Where(t, Matcher(f))
  }

  /** `len(filter(...))` */
  function CountWith(t: Table, f: Filter): (n: nat)
    ensures n == |MatchingKeys(t, f)|
  {
    |FilterBy(t, f)|
  }

  /** `None if len(matches) == 0 else matches.pop()` */
  function GetBy(t: Table, f: Filter): (r: Option<Entity>)
    ensures r.None? <==> MatchingKeys(t, f) == {}
    ensures r.Some? ==> r.value in t.Values && Matches(r.value, f)
  {
    var es := FilterBy(t, f);
    if |es| == 0 then None else Some(es[|es| - 1])
  }

  /** `store.get(id)` */
  function Lookup(t: Table, id: Key): (r: Option<Entity>)
    ensures r.Some? <==> id in t
    ensures r.Some? ==> r.value == t[id]
  {
    if id in t then Some(t[id]) else None
  }

  datatype Saved = Saved(table: Table, count: nat, entity: Entity)

  /** `if not e.id: e.id = self._next_id()` followed by `store[e.id] = e`. */
  function Put(t: Table, count: nat, e: Entity): (s: Saved)
    ensures !Falsy(s.entity.id)
    ensures s.entity == e.(id := s.entity.id)
    ensures Falsy(e.id) ==> s.entity.id == Some(count + 1) && s.count == count + 1
    ensures !Falsy(e.id) ==> s.entity == e && s.count == count
    ensures s.table.Keys == t.Keys + {s.entity.id}
    ensures Lookup(s.table, s.entity.id) == Some(s.entity)
    ensures forall k :: k != s.entity.id ==> Lookup(s.table, k) == Lookup(t, k)
    ensures KeyedById(t) ==> KeyedById(s.table)
    ensures IdsWithin(t, count) && Falsy(e.id) ==>
              s.entity.id !in t && |s.table| == |t| + 1 && IdsWithin(s.table, s.count)
  {
    var saved := if Falsy(e.id) then e.(id := Some(count + 1)) else e;
    Saved(t[saved.id := saved], if Falsy(e.id) then count + 1 else count, saved)
  }

  /** `store[e.id] = e`, with no id assignment. */
  function Replace(t: Table, e: Entity): (r: Table)
    ensures r.Keys == t.Keys + {e.id}
    ensures Lookup(r, e.id) == Some(e)
    ensures forall k :: k != e.id ==> Lookup(r, k) == Lookup(t, k)
    ensures KeyedById(t) ==> KeyedById(r)
  {
    t[e.id := e]
  }

  /** `del store[id]`, which raises KeyError for an absent id. */
  function Remove(t: Table, id: Key): (r: Result<Table>)
    ensures r.Err? <==> id !in t
    ensures r.Err? ==> r.error == KeyError(id)
    ensures r.Ok? ==> r.value.Keys == t.Keys - {id} && |r.value| == |t| - 1
    ensures r.Ok? ==> Lookup(r.value, id) == None
    ensures r.Ok? ==> forall k :: k != id ==> Lookup(r.value, k) == Lookup(t, k)
    ensures r.Ok? && KeyedById(t) ==> KeyedById(r.value)
  {
    if id in t then Ok(t - {id}) else Err(KeyError(id))
  }

  /** Saving an entity without an id and deleting it again gives back the
      dictionary it was saved into. */
  lemma PutThenRemove(t: Table, count: nat, e: Entity)
    requires IdsWithin(t, count) && Falsy(e.id)
    ensures var s := Put(t, count, e);
            Remove(s.table, s.entity.id) == Ok(t)
  {
    var s := Put(t, count, e);
    assert s.table - {s.entity.id} == t;
  }
}
