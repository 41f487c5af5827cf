/** The public surface: the marker method, which fails whenever it is
    actually run, and the activation pass over a query's expression. */
module QueryableExtensions {
  import opened Failures
  import opened Reflection
  import opened Expressions
  import opened Activator

  /** An IQueryable<T>: its element type and its expression tree. The
      provider that would run it is not modelled. */
  datatype Query = Query(elemTy: Ty, expr: Expr)

  /** The tree is an IQueryable of the query's element type. */
  predicate WellTyped(q: Query) {
    TypeOf(q.expr) == Queryable(q.elemTy)
  }

  /** The body of AutoProjectInto: whatever the source and the target
      lambda, running it fails with "not activated". */
  function AutoProjectInto(source: Value, targetInit: Expr): (r: Result<Value>)
    ensures r.Err? && r.error == NotActivated
  {
    Err(NotActivated)
  }

  /** ActivateAutoProjects: visit the expression once; if nothing changed,
      the very same query comes back, otherwise a new query over the
      rewritten tree with the same element type. It fails exactly when a
      reached marker has a target of an unsupported shape, and otherwise
      its tree is the reference rewrite, every reached marker replaced by
      its substitute. */
  function ActivateAutoProjects(refl: Reflector, q: Query): (r: Result<Query>)
    ensures r == Ok(q) <==> !ContainsMarker(q.expr)
    ensures r.Ok? <==> MarkersAccepted(q.expr)
    ensures r.Err? ==> r.error == UnsupportedTargetShape && ContainsMarker(q.expr)
    ensures r.Ok? ==> r.value.elemTy == q.elemTy && TypeOf(r.value.expr) == TypeOf(q.expr)
    ensures r.Ok? ==> Rewrite(refl, q.expr) == Ok(r.value.expr)
    ensures r.Ok? && NoNestedMarkers(q.expr) ==> !ContainsMarker(r.value.expr)
  {
    VisitIsRewrite(refl, q.expr);
    RewriteAccepts(refl, q.expr);
    var v :- Visit(refl, q.expr);
    VisitPreservesType(refl, q.expr);
    if NoNestedMarkers(q.expr) then VisitEliminatesMarkers(refl, q.expr); Ok(Activated(q, v))
    else Ok(Activated(q, v))
  }

  /** Reference equality on the result: unchanged means the same query. */
  function Activated(q: Query, v: Visited<Expr>): Query {
    if !v.changed then q else Query(q.elemTy, v.value)
  }

  /** Activation preserves well-typedness: the element type T of the
      IQueryable<T> never changes. */
  lemma ActivationKeepsElementType(refl: Reflector, q: Query)
    requires WellTyped(q) && ActivateAutoProjects(refl, q).Ok?
    ensures WellTyped(ActivateAutoProjects(refl, q).value)
    ensures ActivateAutoProjects(refl, q).value.elemTy == q.elemTy
  {
  }

  /** Activating an activated query (with markers kept apart) returns it
      unchanged. */
  lemma ActivationIdempotent(refl: Reflector, q: Query)
    requires NoNestedMarkers(q.expr) && ActivateAutoProjects(refl, q).Ok?
    ensures ActivateAutoProjects(refl, ActivateAutoProjects(refl, q).value) == ActivateAutoProjects(refl, q)
  {
  }

  /** The lambda form `query.AutoProject(x => new T { ... })`: the selector
      is rewritten at once, through the lambda branch of the parser, and
      appended as a Select over the query. */
  function AutoProject(refl: Reflector, q: Query, x: Var, body: Expr): (r: Result<Query>)
    ensures r.Ok? <==> IsConstruction(body)
    ensures r.Err? ==> r.error == UnhandledExpression
    ensures r.Ok? ==> WellTyped(r.value) && r.value.elemTy == TypeOf(body)
    ensures r.Ok? && !ContainsMarker(q.expr) && !ContainsMarker(body) ==> !ContainsMarker(r.value.expr)
  {
    SelectorFacts(refl, q, x, body);
    var projected :- CreateSubstitute(refl, Lambda([x], body));
    SelectQuery(q, x, projected)
  }

  /** What the lambda form's rewritten selector is: a failure exactly when
      the body is no construction, otherwise a node of the body's type that
      holds no marker when neither the body nor the source does. */
  lemma SelectorFacts(refl: Reflector, q: Query, x: Var, body: Expr)
    ensures var s := CreateSubstitute(refl, Lambda([x], body));
            && (s.Ok? <==> IsConstruction(body))
            && (s.Err? ==> s.error == UnhandledExpression)
            && (s.Ok? ==> TypeOf(s.value) == TypeOf(body))
            && (s.Ok? && !ContainsMarker(q.expr) && !ContainsMarker(body) ==>
                  !ContainsMarker(SelectQuery(q, x, s.value).value.expr))
  {
    LambdaFormIsMarkerOnParameter(refl, [x], body);
    if IsConstruction(body) {
      SelectorType(refl, x, body);
      if !ContainsMarker(body) && !ContainsMarker(q.expr) {
        SelectorMarkerFree(refl, q, x, body);
      }
    }
  }

  lemma SelectorType(refl: Reflector, x: Var, body: Expr)
    requires IsConstruction(body)
    ensures CreateSubstitute(refl, Lambda([x], body)).Ok?
    ensures TypeOf(CreateSubstitute(refl, Lambda([x], body)).value) == TypeOf(body)
  {
    LambdaFormIsMarkerOnParameter(refl, [x], body);
    SubstitutePreservesType(refl, Param(x), Quote(Lambda([x], body)));
  }

  lemma SelectorMarkerFree(refl: Reflector, q: Query, x: Var, body: Expr)
    requires IsConstruction(body) && !ContainsMarker(body) && !ContainsMarker(q.expr)
    ensures CreateSubstitute(refl, Lambda([x], body)).Ok?
    ensures !ContainsMarker(SelectQuery(q, x, CreateSubstitute(refl, Lambda([x], body)).value).value.expr)
  {
    LambdaFormIsMarkerOnParameter(refl, [x], body);
    var target := Quote(Lambda([x], body));
    assert ContainsMarker(target) == ContainsMarker(body) by {
      assert ContainsMarker(target) == ContainsMarker(Lambda([x], body));
    }
    SubstituteMarkerFree(refl, Param(x), target);
    SelectMarkerFree(q, x, CreateSubstitute(refl, Lambda([x], body)).value);
  }

  lemma SelectMarkerFree(q: Query, x: Var, projected: Expr)
    requires !ContainsMarker(q.expr) && !ContainsMarker(projected)
    ensures !ContainsMarker(SelectQuery(q, x, projected).value.expr)
  {
    var lam := Quote(Lambda([x], projected));
    assert ContainsMarker(lam) == ContainsMarker(Lambda([x], projected));
    var args := [q.expr, lam];
    assert forall i :: 0 <= i < |args| ==> !ContainsMarker(args[i]);
  }

  /** `q.Select(x => projected)`. */
  function SelectQuery(q: Query, x: Var, projected: Expr): Result<Query> {
    Ok(Query(TypeOf(projected), Call("Select", Queryable(TypeOf(projected)), [q.expr, Quote(Lambda([x], projected))])))
  }
}
