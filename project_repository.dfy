/** `MemoryProjectRepository`: projects (class `App`) and categories kept in
    two dictionaries, each with its own id counter. Every write first checks
    the class of the object it is handed. */
module ProjectRepository {
  import opened Common
  import opened Store

  const Name := "MemoryProjectRepository"

  /** `_validate_can_be(action, element, klass)`: the element must be a `klass`. */
  function ValidateCanBe(action: string, e: Entity, klass: Kind): (r: Option<Error>)
    ensures r.None? <==> e.kind == klass
    ensures r.Some? ==> r.value == WrongObjectError(WrongObjectMessage(ClassName(e.kind), action, Name))
  {
    if e.kind != klass then Some(WrongObjectError(WrongObjectMessage(ClassName(e.kind), action, Name)))
    else None
  }

  /** The test of `get_by_shortname`: `x.short_name == short_name`. */
  function ShortnameFilter(shortName: Value): Filter
  {
    map["short_name" := shortName]
  }

  /** A delete of this repository on one dictionary: the class check with
      `action`, then `del t[e.id]`. */
  function DeleteChecked(t: Table, e: Entity, klass: Kind, action: string): (r: Result<Table>)
    ensures r.Err? <==> e.kind != klass || e.id !in t
    ensures e.kind != klass ==> r == Err(WrongObjectError(WrongObjectMessage(ClassName(e.kind), action, Name)))
    ensures e.kind == klass && e.id !in t ==> r == Err(KeyError(e.id))
    ensures r.Ok? ==> r.value.Keys == t.Keys - {e.id} && forall k :: k != e.id ==> Lookup(r.value, k) == Lookup(t, k)
  {
    var invalid := ValidateCanBe(action, e, klass);
    if invalid.Some? then Err(invalid.value) else Remove(t, e.id)
  }

  class MemoryProjectRepository {
    var store: Table
    var count: nat
    var categoryStore: Table
    var categoryCount: nat

    ghost predicate Valid()
      reads this
    {
      WellKeyed(store, App) && WellKeyed(categoryStore, Category)
    }

    constructor ()
      ensures Valid()
      ensures store == map[] && categoryStore == map[]
      ensures count == 0 && categoryCount == 0
    {
      store, categoryStore := map[], map[];
      count, categoryCount := 0, 0;
    }

    method Clean()
      modifies this
      ensures Valid()
      ensures store == map[] && categoryStore == map[]
      ensures count == 0 && categoryCount == 0
    {
      store, categoryStore := map[], map[];
      count, categoryCount := 0, 0;
    }

    method NextId() returns (id: nat)
      modifies this`count
      ensures count == old(count) + 1 && id == count
    {
      count := count + 1;
      id := count;
    }

    method NextCategoryId() returns (id: nat)
      modifies this`categoryCount
      ensures categoryCount == old(categoryCount) + 1 && id == categoryCount
    {
      categoryCount := categoryCount + 1;
      id := categoryCount;
    }

    // Projects

    function Get(id: Key): (r: Option<Entity>)
      reads this
      ensures r.Some? <==> id in store
      ensures r.Some? ==> r.value == store[id]
    {
      Lookup(store, id)
    }

    /** The last project, in listing order, whose `short_name` equals the argument. */
    function GetByShortname(shortName: Value): (r: Option<Entity>)
      reads this
      ensures r.None? <==> forall k :: k in store ==> !Matches(store[k], ShortnameFilter(shortName))
      ensures r.Some? ==> r.value in store.Values
      ensures r.Some? ==>
                && Attribute(r.value, "short_name").Some?
                && PyEq(Attribute(r.value, "short_name").value, shortName)
    {
      var r := Store.GetBy(store, ShortnameFilter(shortName));
      assert r.None? ==> forall k :: k in store ==> k !in MatchingKeys(store, ShortnameFilter(shortName));
      assert r.Some? ==> Matches(r.value, ShortnameFilter(shortName));
      r
    }

    function GetBy(f: Filter): (r: Option<Entity>)
      reads this
      ensures r.None? <==> forall k :: k in store ==> !Matches(store[k], f)
      ensures r.Some? ==> r.value in store.Values && Matches(r.value, f)
    {
      var r := Store.GetBy(store, f);
      assert r.None? ==> forall k :: k in store ==> k !in MatchingKeys(store, f);
      r
    }

    function GetAll(): (r: seq<Entity>)
      reads this
      ensures |r| == |store|
      ensures forall e :: e in r <==> e in store.Values
    {
      Store.FilterBy(store, map[])
    }

    function FilterBy(f: Filter): (r: seq<Entity>)
      reads this
      ensures |r| == |MatchingKeys(store, f)|
      ensures forall e :: e in r <==> e in store.Values && Matches(e, f)
      ensures f == map[] ==> |r| == |store|
    {
      Store.FilterBy(store, f)
    }

    method Save(e: Entity) returns (r: Result<Entity>)
      requires Valid()
      modifies this`store, this`count
      ensures Valid()
      ensures r.Err? <==> e.kind != App
      ensures r.Err? ==> r.error == WrongObjectError(WrongObjectMessage(ClassName(e.kind), "saved", Name))
      ensures r.Err? ==> store == old(store) && count == old(count)
      ensures r.Ok? ==> Saved(store, count, r.value) == Put(old(store), old(count), e)
      ensures r.Ok? ==> Get(r.value.id) == Some(r.value)
    {
      var invalid := ValidateCanBe("saved", e, App);
      if invalid.Some? {
        return Err(invalid.value);
      }
      ghost var put := Put(store, count, e);
      var saved := e;
      if Falsy(e.id) {
        var id := NextId();
        saved := e.(id := Some(id));
      }
      assert saved == put.entity;
      store := store[saved.id := saved];
      assert store == put.table;
      r := Ok(saved);
    }

    /** `store[project.id] = project`, with no id assignment. */
    method Update(e: Entity) returns (r: Result<()>)
      requires Valid()
      modifies this`store
      ensures Valid()
      ensures r.Err? <==> e.kind != App
      ensures r.Err? ==> r.error == WrongObjectError(WrongObjectMessage(ClassName(e.kind), "updated", Name))
      ensures r.Err? ==> store == old(store)
      ensures r.Ok? ==> store == Replace(old(store), e) && Get(e.id) == Some(e)
    {
      var invalid := ValidateCanBe("updated", e, App);
      if invalid.Some? {
        return Err(invalid.value);
      }
      store := store[e.id := e];
      r := Ok(());
    }

    method Delete(e: Entity) returns (r: Result<()>)
      requires Valid()
      modifies this`store
      ensures Valid()
      ensures var d := DeleteChecked(old(store), e, App, "deleted");
              && (r.Err? <==> d.Err?)
              && (d.Err? ==> r.error == d.error && store == old(store))
              && (d.Ok? ==> store == d.value)
      ensures r.Ok? ==> Get(e.id) == None
    {
      var invalid := ValidateCanBe("deleted", e, App);
      if invalid.Some? {
        return Err(invalid.value);
      }
      if e.id !in store {
        return Err(KeyError(e.id));
      }
      store := store - {e.id};
      r := Ok(());
    }

    // Categories

    /** `get_category(id=None)`: no id finds nothing, even when a category
        was stored under `None`. */
    function GetCategory(id: Key): (r: Option<Entity>)
      reads this
      ensures r.Some? <==> id.Some? && id in categoryStore
      ensures r.Some? ==> r.value == categoryStore[id]
    {
      if id.None? then None else Lookup(categoryStore, id)
    }

    function GetCategoryBy(f: Filter): (r: Option<Entity>)
      reads this
      ensures r.None? <==> forall k :: k in categoryStore ==> !Matches(categoryStore[k], f)
      ensures r.Some? ==> r.value in categoryStore.Values && Matches(r.value, f)
    {
      var r := Store.GetBy(categoryStore, f);
      assert r.None? ==> forall k :: k in categoryStore ==> k !in MatchingKeys(categoryStore, f);
      r
    }

    function GetAllCategories(): (r: seq<Entity>)
      reads this
      ensures |r| == |categoryStore|
      ensures forall e :: e in r <==> e in categoryStore.Values
    {
      Store.FilterBy(categoryStore, map[])
    }

    function FilterCategoriesBy(f: Filter): (r: seq<Entity>)
      reads this
      ensures |r| == |MatchingKeys(categoryStore, f)|
      ensures forall e :: e in r <==> e in categoryStore.Values && Matches(e, f)
      ensures f == map[] ==> |r| == |categoryStore|
    {
      Store.FilterBy(categoryStore, f)
    }

    method SaveCategory(e: Entity) returns (r: Result<Entity>)
      requires Valid()
      modifies this`categoryStore, this`categoryCount
      ensures Valid()
      ensures r.Err? <==> e.kind != Category
      ensures r.Err? ==> r.error == WrongObjectError(WrongObjectMessage(ClassName(e.kind), "saved as a Category", Name))
      ensures r.Err? ==> categoryStore == old(categoryStore) && categoryCount == old(categoryCount)
      ensures r.Ok? ==> Saved(categoryStore, categoryCount, r.value) == Put(old(categoryStore), old(categoryCount), e)
      ensures r.Ok? ==> GetCategory(r.value.id) == Some(r.value)
    {
      var invalid := ValidateCanBe("saved as a Category", e, Category);
      if invalid.Some? {
        return Err(invalid.value);
      }
      ghost var put := Put(categoryStore, categoryCount, e);
      var saved := e;
      if Falsy(e.id) {
        var id := NextCategoryId();
        saved := e.(id := Some(id));
      }
      assert saved == put.entity;
      categoryStore := categoryStore[saved.id := saved];
      assert categoryStore == put.table;
      r := Ok(saved);
    }

    method UpdateCategory(e: Entity) returns (r: Result<()>)
      requires Valid()
      modifies this`categoryStore
      ensures Valid()
      ensures r.Err? <==> e.kind != Category
      ensures r.Err? ==> r.error == WrongObjectError(WrongObjectMessage(ClassName(e.kind), "updated as a Category", Name))
      ensures r.Err? ==> categoryStore == old(categoryStore)
      ensures r.Ok? ==> categoryStore == Replace(old(categoryStore), e)
    {
      var invalid := ValidateCanBe("updated as a Category", e, Category);
      if invalid.Some? {
        return Err(invalid.value);
      }
      categoryStore := categoryStore[e.id := e];
      r := Ok(());
    }

    method DeleteCategory(e: Entity) returns (r: Result<()>)
      requires Valid()
      modifies this`categoryStore
      ensures Valid()
      ensures var d := DeleteChecked(old(categoryStore), e, Category, "deleted as a Category");
              && (r.Err? <==> d.Err?)
              && (d.Err? ==> r.error == d.error && categoryStore == old(categoryStore))
              && (d.Ok? ==> categoryStore == d.value)
      ensures r.Ok? ==> GetCategory(e.id) == None
    {
      var invalid := ValidateCanBe("deleted as a Category", e, Category);
      if invalid.Some? {
        return Err(invalid.value);
      }
      if e.id !in categoryStore {
        return Err(KeyError(e.id));
      }
      categoryStore := categoryStore - {e.id};
      r := Ok(());
    }
  }
}
