/** The part of .NET reflection the matcher relies on: a type's public
    instance properties, each with its name, declared type and whether its
    getter and setter are public. */
module Reflection {

  /** Types are compared by identity only: two properties match only when
      their declared types are the same `Ty` value. */
  datatype Ty =
    | Named(name: string)    // a class or value type such as int, string, TestType
    | Func(result: Ty)       // the delegate type of a lambda
    | Quoted(lambda: Ty)     // Expression<TDelegate>, the type of a quoted lambda
    | Queryable(element: Ty) // IQueryable<T>

  /** One entry of GetProperties(BindingFlags.Instance | BindingFlags.Public). */
  datatype PropDesc = PropDesc(name: string, ty: Ty, publicGet: bool, publicSet: bool)

  /** The reflection table: the public instance properties of each type, in
      declaration order. A type absent from the table has none. */
  type Reflector = map<Ty, seq<PropDesc>>

  function Properties(r: Reflector, t: Ty): seq<PropDesc> {
    if t in r then r[t] else []
  }

  /** No two properties of one type share a name: an assumption about the
      types involved, since inherited and re-declared properties can repeat
      a name in GetProperties. */
  ghost predicate UniqueNames(ps: seq<PropDesc>) {
    forall i, j :: 0 <= i < j < |ps| ==> ps[i].name != ps[j].name
  }
}
