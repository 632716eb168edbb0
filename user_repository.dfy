/** `MemoryUserRepository`: users kept in one dictionary with an id counter,
    plus the case-insensitive search over user names and full names. There
    is no delete. */
module UserRepository {
  import opened Common
  import opened Store

  const Name := "MemoryUserRepository"

  /** `_validate_can_be(action, user)`: only a User may be saved or updated. */
  function ValidateCanBe(action: string, e: Entity): (r: Option<Error>)
    ensures r.None? <==> e.kind == User
    ensures r.Some? ==> r.value == WrongObjectError(WrongObjectMessage(ClassName(e.kind), action, Name))
  {
    if e.kind != User then Some(WrongObjectError(WrongObjectMessage(ClassName(e.kind), action, Name)))
    else None
  }

  /** The test of `get_by_name`: `x.name == name`. */
  function NameFilter(name: Value): Filter
  {
    map["name" := name]
  }

  // Case folding and substring search

  function LowerChar(c: char): char
  {
    if 'A' <= c <= 'Z' then (c as int + 32) as char else c
  }

  /** `str.lower()` on ASCII letters. */
  function Lower(s: string): (r: string)
    ensures |r| == |s|
    ensures forall i :: 0 <= i < |s| ==> r[i] == LowerChar(s[i])
  {
    seq(|s|, i requires 0 <= i < |s| => LowerChar(s[i]))
  }

  lemma LowerIdempotent(s: string)
    ensures Lower(Lower(s)) == Lower(s)
  {
  }

  lemma LowerSlice(s: string, i: nat, j: nat)
    requires i <= j <= |s|
    ensures Lower(s)[i..j] == Lower(s[i..j])
  {
  }

  /** Python's `keyword in text` on strings, one position at a time. */
  predicate Contains(text: string, keyword: string)
    decreases |text|
  {
    keyword <= text || (|text| > 0 && Contains(text[1..], keyword))
  }

  /** `keyword` occurs in `text` starting at position `i`. */
  predicate OccursAt(text: string, keyword: string, i: int)
  {
    0 <= i <= |text| - |keyword| && text[i..i + |keyword|] == keyword
  }

  lemma OccursAtStart(text: string, keyword: string)
    ensures OccursAt(text, keyword, 0) <==> keyword <= text
  {
  }

  lemma OccursAtShift(text: string, keyword: string, i: int)
    requires |text| > 0 && 0 <= i
    ensures OccursAt(text[1..], keyword, i) <==> OccursAt(text, keyword, i + 1)
  {
    if 0 <= i <= |text| - 1 - |keyword| {
      assert text[1..][i..i + |keyword|] == text[i + 1..i + 1 + |keyword|];
    }
  }

  /** `keyword in text` holds exactly when `keyword` occurs at some position of `text`. */
  lemma {:induction false} ContainsAt(text: string, keyword: string)
    ensures Contains(text, keyword) <==> exists i :: OccursAt(text, keyword, i)
    decreases |text|
  {
    OccursAtStart(text, keyword);
    if keyword <= text {
    } else if |text| > 0 {
      ContainsAt(text[1..], keyword);
      if Contains(text[1..], keyword) {
        var i :| OccursAt(text[1..], keyword, i);
        OccursAtShift(text, keyword, i);
      }
      if exists i :: OccursAt(text, keyword, i) {
        var i :| OccursAt(text, keyword, i);
        OccursAtShift(text, keyword, i - 1);
      }
    } else {
      assert forall i :: !OccursAt(text, keyword, i);
    }
  }

  /** Lower-casing both sides keeps an occurrence. */
  lemma ContainsLower(text: string, keyword: string)
    requires Contains(text, keyword)
    ensures Contains(Lower(text), Lower(keyword))
  {
    ContainsAt(text, keyword);
    var i :| OccursAt(text, keyword, i);
    LowerSlice(text, i, i + |keyword|);
    assert OccursAt(Lower(text), Lower(keyword), i);
    ContainsAt(Lower(text), Lower(keyword));
  }

  /** `lowered in attr.lower()` for a string attribute; an attribute that is
      absent or not a string does not match. */
  predicate AttributeContains(e: Entity, attr: string, lowered: string)
  {
    match Attribute(e, attr)
    case Some(VStr(s)) => Contains(Lower(s), lowered)
    case _ => false
  }

  /** The `match` lambda of `search_by_name`, given `keyword.lower()`. */
  predicate SearchHit(e: Entity, lowered: string)
  {
    AttributeContains(e, "name", lowered) || AttributeContains(e, "fullname", lowered)
  }

  function Searcher(lowered: string): Entity -> bool
  {
    e => SearchHit(e, lowered)
  }

  /** `search_by_name(keyword)` on a user dictionary. */
  function Search(t: Table, keyword: string): (r: seq<Entity>)
    ensures |keyword| == 0 ==> r == []
    ensures |keyword| > 0 ==> forall e :: e in r <==> e in t.Values && SearchHit(e, Lower(keyword))
    ensures |keyword| > 0 ==> |r| == |KeysWhere(t, Searcher(Lower(keyword)))|
  {
    if |keyword| == 0 then [] else Where(t, Searcher(Lower(keyword)))
  }

  /** Searching for a keyword or for its lower-case form finds the same users. */
  lemma SearchIgnoresKeywordCase(t: Table, keyword: string)
    ensures Search(t, Lower(keyword)) == Search(t, keyword)
  {
    LowerIdempotent(keyword);
  }

  /** A stored user whose name contains the keyword, in any case, is found. */
  lemma SearchFindsName(t: Table, e: Entity, keyword: string, name: string)
    requires e in t.Values && |keyword| > 0
    requires Attribute(e, "name") == Some(VStr(name)) && Contains(name, keyword)
    ensures e in Search(t, keyword)
  {
    ContainsLower(name, keyword);
  }

  class MemoryUserRepository {
    var store: Table
    var count: nat

    ghost predicate Valid()
      reads this
    {
      WellKeyed(store, User)
    }

    constructor ()
      ensures Valid()
      ensures store == map[] && count == 0
    {
      store, count := map[], 0;
    }

    method Clean()
      modifies this
      ensures Valid()
      ensures store == map[] && count == 0
    {
      store, count := map[], 0;
    }

    method NextId() returns (id: nat)
      modifies this`count
      ensures count == old(count) + 1 && id == count
    {
      count := count + 1;
      id := count;
    }

    function Get(id: Key): (r: Option<Entity>)
      reads this
      ensures r.Some? <==> id in store
      ensures r.Some? ==> r.value == store[id]
    {
      Lookup(store, id)
    }

    /** The last user, in listing order, whose `name` equals the argument. */
    function GetByName(name: Value): (r: Option<Entity>)
      reads this
      ensures r.None? <==> forall k :: k in store ==> !Matches(store[k], NameFilter(name))
      ensures r.Some? ==> r.value in store.Values
      ensures r.Some? ==>
                && Attribute(r.value, "name").Some?
                && PyEq(Attribute(r.value, "name").value, name)
    {
      var r := Store.GetBy(store, NameFilter(name));
      assert r.None? ==> forall k :: k in store ==> k !in MatchingKeys(store, NameFilter(name));
      assert r.Some? ==> Matches(r.value, NameFilter(name));
      r
    }

    function GetBy(f: Filter): (r: Option<Entity>)
      reads this
      ensures r.None? <==> forall k :: k in store ==> !Matches(store[k], f)
      ensures r.Some? ==> r.value in store.Values && Matches(r.value, f)
    {
      var r := Store.GetBy(store, f);
      assert r.None? ==> forall k :: k in store ==> k !in MatchingKeys(store, f);
      r
    }

    function GetAll(): (r: seq<Entity>)
      reads this
      ensures |r| == |store|
      ensures forall e :: e in r <==> e in store.Values
    {
      Store.FilterBy(store, map[])
    }

    function FilterBy(f: Filter): (r: seq<Entity>)
      reads this
      ensures |r| == |MatchingKeys(store, f)|
      ensures forall e :: e in r <==> e in store.Values && Matches(e, f)
      ensures f == map[] ==> |r| == |store|
    {
      Store.FilterBy(store, f)
    }

    /** An empty keyword finds nobody; otherwise the users whose name or
        full name contains the keyword, ignoring case. */
    function SearchByName(keyword: string): (r: seq<Entity>)
      reads this
      ensures |keyword| == 0 ==> r == []
      ensures |keyword| > 0 ==> forall e :: e in r <==> e in store.Values && SearchHit(e, Lower(keyword))
      ensures |keyword| > 0 ==> |r| == |KeysWhere(store, Searcher(Lower(keyword)))|
    {
      Search(store, keyword)
    }

    /** `len(self.store.keys())` */
    function TotalUsers(): (n: nat)
      reads this
      ensures n == |store.Keys|
    {
      |store|
    }

    method Save(e: Entity) returns (r: Result<Entity>)
      requires Valid()
      modifies this`store, this`count
      ensures Valid()
      ensures r.Err? <==> e.kind != User
      ensures r.Err? ==> r.error == WrongObjectError(WrongObjectMessage(ClassName(e.kind), "saved", Name))
      ensures r.Err? ==> store == old(store) && count == old(count)
      ensures r.Ok? ==> Saved(store, count, r.value) == Put(old(store), old(count), e)
      ensures r.Ok? ==> Get(r.value.id) == Some(r.value)
      ensures r.Ok? && Falsy(e.id) && IdsWithin(old(store), old(count)) ==>
                TotalUsers() == old(TotalUsers()) + 1 && IdsWithin(store, count)
      ensures r.Ok? && !Falsy(e.id) && e.id in old(store) ==> TotalUsers() == old(TotalUsers())
    {
      var invalid := ValidateCanBe("saved", e);
      if invalid.Some? {
        return Err(invalid.value);
      }
      ghost var put := Put(store, count, e);
      var saved := e;
      if Falsy(e.id) {
        var id := NextId();
        saved := e.(id := Some(id));
      }
      assert saved == put.entity;
      store := store[saved.id := saved];
      assert store == put.table;
      r := Ok(saved);
    }

    /** `store[new_user.id] = new_user`, with no id assignment. */
    method Update(e: Entity) returns (r: Result<()>)
      requires Valid()
      modifies this`store
      ensures Valid()
      ensures r.Err? <==> e.kind != User
      ensures r.Err? ==> r.error == WrongObjectError(WrongObjectMessage(ClassName(e.kind), "updated", Name))
      ensures r.Err? ==> store == old(store)
      ensures r.Ok? ==> store == Replace(old(store), e) && Get(e.id) == Some(e)
    {
      var invalid := ValidateCanBe("updated", e);
      if invalid.Some? {
        return Err(invalid.value);
      }
      store := store[e.id := e];
      r := Ok(());
    }
  }
}
