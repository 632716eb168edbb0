/** Values shared by the four in-memory repositories: entity records, the
    attribute values a filter compares, and the errors the repositories raise. */
module Common {

  datatype Option<T> = None | Some(value: T)

  /** The id of an entity, and the key it is stored under: Python's `None`
      or an integer. */
  type Key = Option<int>

  /** An attribute value as the filters compare it. */
  datatype Value = VNone | VBool(b: bool) | VInt(i: int) | VStr(s: string)

  /** The runtime class of an object handed to a repository. `App` is the
      project class. */
  datatype Kind = App | Category | User | Blogpost | Task | TaskRun | Other(className: string)

  /** `element.__class__.__name__` */
  function ClassName(k: Kind): string
  {
    match k
    case App => "App"
    case Category => "Category"
    case User => "User"
    case Blogpost => "Blogpost"
    case Task => "Task"
    case TaskRun => "TaskRun"
    case Other(name) => name
  }

  /** A domain object: its class, its `id` and its other column values. */
  datatype Entity = Entity(kind: Kind, id: Key, attrs: map<string, Value>)

  /** Keyword arguments of `get_by`/`filter_by`: attribute name to expected value. */
  type Filter = map<string, Value>

  /** `not element.id`: no id at all, or id 0. */
  predicate Falsy(id: Key)
  {
    id == None || id == Some(0)
  }

  function IdValue(id: Key): (v: Value)
    ensures id.None? <==> v == VNone
  {
    match id
    case None => VNone
    case Some(n) => VInt(n)
  }

  /** `getattr(e, name)`, or None when the object has no such attribute. */
  function Attribute(e: Entity, name: string): Option<Value>
  {
    if name == "id" then Some(IdValue(e.id))
    else if name in e.attrs then Some(e.attrs[name])
    else None
  }

  /** Python's `==` on attribute values: `True == 1` and `False == 0`. */
  predicate PyEq(a: Value, b: Value)
  {
    match (a, b)
    case (VBool(x), VInt(n)) => n == (if x then 1 else 0)
    case (VInt(n), VBool(x)) => n == (if x then 1 else 0)
    case _ => a == b
  }

  /** The `reduce(lambda y, z: y and getattr(e, z) == filters[z], filters.keys(), True)`
      test: every pair of the filter holds of `e`. */
  predicate Matches(e: Entity, f: Filter)
  {
    forall name :: name in f ==> Attribute(e, name).Some? && PyEq(Attribute(e, name).value, f[name])
  }

  /** The errors the in-memory repositories raise. */
  datatype Error =
    | WrongObjectError(message: string)
    | KeyError(key: Key)
    | AttributeError(name: string)

  datatype Result<T> = Ok(value: T) | Err(error: Error)

  /** The message of `WrongObjectError`: `'%s cannot be %s by %s'`. */
  function WrongObjectMessage(className: string, action: string, repository: string): string
  {
    className + " cannot be " + action + " by " + repository
  }
}
