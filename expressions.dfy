/** The slice of System.Linq.Expressions the rewrite engine touches: an
    immutable tree of method calls, the marker call, quotes, lambdas,
    constructions, member-init nodes and member accesses. */
module Expressions {
  import opened Reflection

  /** Run-time values, used by constant nodes and by the small evaluator. */
  datatype Value =
    | Int(i: int)
    | Text(s: string)
    | Null
    | Obj(ty: Ty, fields: map<string, Value>)
    | Rows(items: seq<Value>)         // the rows of an in-memory query source

  /** A lambda parameter (ParameterExpression). */
  datatype Var = Var(name: string, ty: Ty)

  datatype Expr =
    | Const(value: Value, ty: Ty)
    | Param(v: Var)
    | Member(obj: Expr, prop: PropDesc)               // obj.prop
    | Call(name: string, ty: Ty, args: seq<Expr>)     // any method other than the marker
    | Marker(source: Expr, target: Expr)              // source.AutoProjectInto(target)
    | Quote(operand: Expr)
    | Lambda(params: seq<Var>, body: Expr)
    | New(ctor: Ctor)                                 // new T(args)
    | MemberInit(ctor: Ctor, bindings: seq<Binding>)  // new T(args) { P = v, ... }

  /** A constructor call with its arguments (NewExpression). */
  datatype Ctor = Ctor(ty: Ty, args: seq<Expr>)

  /** One member assignment `member = value` of a member-init node. */
  datatype Binding = Bind(member: PropDesc, value: Expr)

  /** The pieces of a member-init node once a target lambda has been read:
      the constructor call and the explicit bindings. */
  datatype TargetInit = TargetInit(ctor: Ctor, bindings: seq<Binding>)

  /** The result type of a (possibly quoted) delegate type. The marker's
      argument is always an Expression<Func<TResult>>, so for a marker the
      last case does not arise. */
  function DelegateResult(t: Ty): Ty {
    match t
    case Quoted(d) => DelegateResult(d)
    case Func(r) => r
    case _ => t
  }

  /** The static type of a node (Expression.Type). The marker's type is
      TResult, the result type of its target lambda. */
  function TypeOf(e: Expr): Ty {
    match e
    case Const(_, ty) => ty
    case Param(v) => v.ty
    case Member(_, p) => p.ty
    case Call(_, ty, _) => ty
    case Marker(_, target) => DelegateResult(TypeOf(target))
    case Quote(op) => Quoted(TypeOf(op))
    case Lambda(_, body) => Func(TypeOf(body))
    case New(c) => c.ty
    case MemberInit(c, _) => c.ty
  }

  /** Whether a marker call occurs anywhere in the tree. */
  predicate ContainsMarker(e: Expr) {
    match e
    case Const(_, _) => false
    case Param(_) => false
    case Member(obj, _) => ContainsMarker(obj)
    case Call(_, _, args) => exists i :: 0 <= i < |args| && ContainsMarker(args[i])
    case Marker(_, _) => true
    case Quote(op) => ContainsMarker(op)
    case Lambda(_, body) => ContainsMarker(body)
    case New(c) => exists i :: 0 <= i < |c.args| && ContainsMarker(c.args[i])
    case MemberInit(c, bs) =>
      || (exists i :: 0 <= i < |c.args| && ContainsMarker(c.args[i]))
      || (exists i :: 0 <= i < |bs| && ContainsMarker(bs[i].value))
  }

  /** Every marker in the tree has marker-free operands: the markers sit in
      separate places (for instance each in its own Select lambda) rather
      than one inside another. */
  predicate NoNestedMarkers(e: Expr) {
    match e
    case Const(_, _) => true
    case Param(_) => true
    case Member(obj, _) => NoNestedMarkers(obj)
    case Call(_, _, args) => forall i :: 0 <= i < |args| ==> NoNestedMarkers(args[i])
    case Marker(source, target) => !ContainsMarker(source) && !ContainsMarker(target)
    case Quote(op) => NoNestedMarkers(op)
    case Lambda(_, body) => NoNestedMarkers(body)
    case New(c) => forall i :: 0 <= i < |c.args| ==> NoNestedMarkers(c.args[i])
    case MemberInit(c, bs) =>
      && (forall i :: 0 <= i < |c.args| ==> NoNestedMarkers(c.args[i]))
      && (forall i :: 0 <= i < |bs| ==> NoNestedMarkers(bs[i].value))
  }

  /** The names of the members a list of bindings assigns, in order. */
  function BoundNames(bs: seq<Binding>): (names: seq<string>)
    ensures |names| == |bs|
    ensures forall i :: 0 <= i < |bs| ==> names[i] == bs[i].member.name
  {
    if bs == [] then [] else [bs[0].member.name] + BoundNames(bs[1..])
  }
}
