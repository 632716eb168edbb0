/** `MemoryBlogRepository`: blog posts kept in one dictionary with an id
    counter; `filter_by` lists the matching posts sorted by id and cuts a
    page out of that list with Python's slice semantics. */
module BlogRepository {
  import opened Common
  import opened Store

  const Name := "MemoryBlogRepository"

  /** `_validate_can_be(action, blogpost)`: only a Blogpost may be written. */
  function ValidateCanBe(action: string, e: Entity): (r: Option<Error>)
    ensures r.None? <==> e.kind == Blogpost
    ensures r.Some? ==> r.value == WrongObjectError(WrongObjectMessage(ClassName(e.kind), action, Name))
  {
    if e.kind != Blogpost then Some(WrongObjectError(WrongObjectMessage(ClassName(e.kind), action, Name)))
    else None
  }

  // Python slices

  /** A slice bound of a sequence of length `n`: a negative bound counts from
      the end, and the result is clamped to `0..n`. */
  function SliceBound(i: int, n: nat): (b: nat)
    ensures b <= n
    ensures 0 <= i <= n ==> b == i
    ensures i > n ==> b == n
    ensures i < 0 && 0 <= i + n ==> b == i + n
    ensures i + n < 0 ==> b == 0
  {
    if i < 0 then (if i + n < 0 then 0 else i + n)
    else if i > n then n
    else i
  }

  /** `s[lo:]` when `hi` is None, `s[lo:hi]` otherwise. */
  function Slice<T>(s: seq<T>, lo: int, hi: Option<int>): (r: seq<T>)
    ensures var a := SliceBound(lo, |s|);
            var b := if hi.None? then |s| else SliceBound(hi.value, |s|);
            && (b <= a ==> r == [])
            && (a < b ==> |r| == b - a && forall i :: 0 <= i < |r| ==> r[i] == s[a + i])
  {
    var a := SliceBound(lo, |s|);
    var b := if hi.None? then |s| else SliceBound(hi.value, |s|);
    if b <= a then [] else s[a..b]
  }

  function Min(a: int, b: int): int
  {
    if a < b then a else b
  }

  /** `s[offset:] if limit is None else s[offset:offset+limit]`: a run of
      consecutive elements of `s` starting at the clamped offset. */
  function Page<T>(s: seq<T>, limit: Option<int>, offset: int): (r: seq<T>)
    ensures SliceBound(offset, |s|) + |r| <= |s|
    ensures forall i :: 0 <= i < |r| ==> r[i] == s[SliceBound(offset, |s|) + i]
    ensures limit.Some? && limit.value >= 0 ==> |r| <= limit.value
    ensures 0 <= offset && |s| <= offset ==> r == []
    ensures limit.None? && offset == 0 ==> r == s
    ensures 0 <= offset && limit.Some? && 0 <= limit.value ==>
              |r| == Min(limit.value, |s| - SliceBound(offset, |s|))
    ensures 0 <= offset && limit.None? ==> |r| == |s| - SliceBound(offset, |s|)
  {
    if limit.None? then Slice(s, offset, None) else Slice(s, offset, Some(offset + limit.value))
  }

  /** With a non-negative offset and limit, the page of that size followed by
      everything after it is everything from the offset on. */
  lemma PagesConcatenate<T>(s: seq<T>, limit: nat, offset: nat)
    ensures Page(s, Some(limit), offset) + Page(s, None, offset + limit) == Page(s, None, offset)
  {
    var a := SliceBound(offset, |s|);
    var m := SliceBound(offset + limit, |s|);
    if a < |s| {
      if m < |s| {
        assert s[a..m] + s[m..] == s[a..];
      }
    }
  }

  /** A negative offset counts from the end: the last `-offset` posts. */
  lemma NegativeOffsetCountsFromEnd<T>(s: seq<T>, offset: int)
    requires -|s| <= offset < 0
    ensures Page(s, None, offset) == s[|s| + offset..]
  {
  }

  // Sorted listings

  /** `s` lists exactly the entities of `t` that match `f`, in increasing id order. */
  ghost predicate IsSortedListing(s: seq<Entity>, t: Table, f: Filter)
  {
    && IdsIncreasing(s)
    && forall e :: e in s <==> e in t.Values && Matches(e, f)
  }

  /** Two listings in strictly increasing id order with the same elements are the same. */
  lemma {:induction false} SortedListingUnique(s1: seq<Entity>, s2: seq<Entity>)
    requires IdsIncreasing(s1) && IdsIncreasing(s2)
    requires forall e :: e in s1 <==> e in s2
    ensures s1 == s2
    decreases |s1|
  {
    if s1 != [] {
      assert s1[0] in s2;
    }
    if s2 != [] {
      assert s2[0] in s1;
    }
    if s1 != [] && s2 != [] {
      var h1, h2 := s1[0], s2[0];
      var j :| 0 <= j < |s2| && s2[j] == h1;
      var i :| 0 <= i < |s1| && s1[i] == h2;
      assert j == 0 || KeyLt(h2.id, h1.id);
      assert i == 0 || KeyLt(h1.id, h2.id);
      assert h1 == h2;
      forall e
        ensures e in s1[1..] <==> e in s2[1..]
      {
        if e in s1[1..] {
          var k :| 1 <= k < |s1| && s1[k] == e;
          assert KeyLt(s1[0].id, e.id);
          assert e in s2;
          var m :| 0 <= m < |s2| && s2[m] == e;
          assert m != 0;
          assert s2[1..][m - 1] == e;
        }
        if e in s2[1..] {
          var k :| 1 <= k < |s2| && s2[k] == e;
          assert KeyLt(s2[0].id, e.id);
          assert e in s1;
          var m :| 0 <= m < |s1| && s1[m] == e;
          assert m != 0;
          assert s1[1..][m - 1] == e;
        }
      }
      SortedListingUnique(s1[1..], s2[1..]);
      assert s1 == [s1[0]] + s1[1..] && s2 == [s2[0]] + s2[1..];
    }
  }

  class MemoryBlogRepository {
    var store: Table
    var count: nat

    ghost predicate Valid()
      reads this
    {
      WellKeyed(store, Blogpost)
    }

    constructor ()
      ensures Valid()
      ensures store == map[] && count == 0
    {
      store, count := map[], 0;
    }

    method Clean()
      modifies this
      ensures Valid()
      ensures store == map[] && count == 0
    {
      store, count := map[], 0;
    }

    method NextId() returns (id: nat)
      modifies this`count
      ensures count == old(count) + 1 && id == count
    {
      count := count + 1;
      id := count;
    }

    function Get(id: Key): (r: Option<Entity>)
      reads this
      ensures r.Some? <==> id in store
      ensures r.Some? ==> r.value == store[id]
    {
      Lookup(store, id)
    }

    function GetBy(f: Filter): (r: Option<Entity>)
      reads this
      ensures r.None? <==> forall k :: k in store ==> !Matches(store[k], f)
      ensures r.Some? ==> r.value in store.Values && Matches(r.value, f)
    {
      var r := Store.GetBy(store, f);
      assert r.None? ==> forall k :: k in store ==> k !in MatchingKeys(store, f);
      r
    }

    /** The matching posts sorted by id, then `[offset:]` or `[offset:offset+limit]`. */
    function FilterBy(limit: Option<int>, offset: int, f: Filter): (r: seq<Entity>)
      requires Valid()
      reads this
      ensures forall s :: IsSortedListing(s, store, f) ==> r == Page(s, limit, offset)
      ensures exists s :: IsSortedListing(s, store, f) && r == Page(s, limit, offset)
      ensures forall e :: e in r ==> e in store.Values && Matches(e, f)
      ensures IdsIncreasing(r)
    {
      var listing := Store.FilterBy(store, f);
      var r := Page(listing, limit, offset);
      assert IsSortedListing(listing, store, f);
      forall s | IsSortedListing(s, store, f)
        ensures r == Page(s, limit, offset)
      {
        SortedListingUnique(s, listing);
      }
      PageKeepsOrder(listing, limit, offset);
      r
    }

    method Save(e: Entity) returns (r: Result<Entity>)
      requires Valid()
      modifies this`store, this`count
      ensures Valid()
      ensures r.Err? <==> e.kind != Blogpost
      ensures r.Err? ==> r.error == WrongObjectError(WrongObjectMessage(ClassName(e.kind), "saved", Name))
      ensures r.Err? ==> store == old(store) && count == old(count)
      ensures r.Ok? ==> Saved(store, count, r.value) == Put(old(store), old(count), e)
      ensures r.Ok? ==> Get(r.value.id) == Some(r.value)
    {
      var invalid := ValidateCanBe("saved", e);
      if invalid.Some? {
        return Err(invalid.value);
      }
      ghost var put := Put(store, count, e);
      var saved := e;
      if Falsy(e.id) {
        var id := NextId();
        saved := e.(id := Some(id));
      }
      assert saved == put.entity;
      store := store[saved.id := saved];
      assert store == put.table;
      r := Ok(saved);
    }

    /** `store[blogpost.id] = blogpost`, with no id assignment. */
    method Update(e: Entity) returns (r: Result<()>)
      requires Valid()
      modifies this`store
      ensures Valid()
      ensures r.Err? <==> e.kind != Blogpost
      ensures r.Err? ==> r.error == WrongObjectError(WrongObjectMessage(ClassName(e.kind), "updated", Name))
      ensures r.Err? ==> store == old(store)
      ensures r.Ok? ==> store == Replace(old(store), e) && Get(e.id) == Some(e)
    {
      var invalid := ValidateCanBe("updated", e);
      if invalid.Some? {
        return Err(invalid.value);
      }
      store := store[e.id := e];
      r := Ok(());
    }

    method Delete(e: Entity) returns (r: Result<()>)
      requires Valid()
      modifies this`store
      ensures Valid()
      ensures r.Err? <==> e.kind != Blogpost || e.id !in old(store)
      ensures e.kind != Blogpost ==> r == Err(WrongObjectError(WrongObjectMessage(ClassName(e.kind), "deleted", Name)))
      ensures e.kind == Blogpost && e.id !in old(store) ==> r == Err(KeyError(e.id))
      ensures r.Err? ==> store == old(store)
      ensures r.Ok? ==> Remove(old(store), e.id) == Ok(store) && Get(e.id) == None
    {
      var invalid := ValidateCanBe("deleted", e);
      if invalid.Some? {
        return Err(invalid.value);
      }
      if e.id !in store {
        return Err(KeyError(e.id));
      }
      store := store - {e.id};
      r := Ok(());
    }
  }

  /** A page of an id-sorted listing is id-sorted. */
  lemma PageKeepsOrder(s: seq<Entity>, limit: Option<int>, offset: int)
    requires IdsIncreasing(s)
    ensures IdsIncreasing(Page(s, limit, offset))
  {
    var r := Page(s, limit, offset);
    var a := SliceBound(offset, |s|);
    assert a + |r| <= |s|;
    forall i, j | 0 <= i < j < |r|
      ensures KeyLt(r[i].id, r[j].id)
    {
      assert r[i] == s[a + i];
      assert r[j] == s[a + j];
      assert KeyLt(s[a + i].id, s[a + j].id);
    }
  }
}
