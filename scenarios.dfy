/** The repository's end-to-end scenarios, stated on the model: a query
    over one in-memory row, a Select into a source object, and a Select
    whose lambda is a marker call. */
module Scenarios {
  import opened Failures
  import opened Reflection
  import opened Expressions
  import opened PropertyMatcher
  import opened BindingCombiner
  import opened Activator
  import opened QueryableExtensions
  import opened Evaluation

  const IntTy := Named("int")
  const X := Var("x", IntTy)

  /** `Enumerable.Range(1, 1).AsQueryable()`. */
  const One := Const(Rows([Int(1)]), Queryable(IntTy))

  /** `src.Select(x => body)`. */
  function Select(src: Expr, x: Var, body: Expr): Expr {
    Call("Select", Queryable(TypeOf(body)), [src, Quote(Lambda([x], body))])
  }

  /** `src.Select(y => y.AutoProjectInto(tgt))`. */
  function ProjectSelect(src: Expr, y: Var, tgt: Expr): Expr {
    Select(src, y, Marker(Param(y), tgt))
  }

  /** The substitute the activator puts in place of `y.AutoProjectInto(tgt)`. */
  function Substitute(refl: Reflector, y: Var, tgt: Expr): Expr
    requires ExtractFromProjectArgument(tgt).Ok?
  {
    CreateSubstitute(refl, Marker(Param(y), tgt)).value
  }

  /** Visiting `y => y.AutoProjectInto(tgt)`, quoted, yields the quoted
      lambda around the substitute. */
  lemma VisitMarkerLambda(refl: Reflector, y: Var, tgt: Expr)
    requires ExtractFromProjectArgument(tgt).Ok?
    ensures Visit(refl, Quote(Lambda([y], Marker(Param(y), tgt))))
            == Ok(Visited(Quote(Lambda([y], Substitute(refl, y, tgt))), true))
  {
    var m := Marker(Param(y), tgt);
    assert Visit(refl, m) == Ok(Visited(Substitute(refl, y, tgt), true));
    assert Visit(refl, Lambda([y], m)) == Ok(Visited(Lambda([y], Substitute(refl, y, tgt)), true));
  }

  /** Visiting two arguments visits each of them. */
  lemma VisitTwo(refl: Reflector, a: Expr, b: Expr)
    requires Visit(refl, a).Ok? && Visit(refl, b).Ok?
    ensures VisitAll(refl, [a, b])
            == Ok(Visited([Visit(refl, a).value.value, Visit(refl, b).value.value],
                          Visit(refl, a).value.changed || Visit(refl, b).value.changed))
  {
    assert [a, b][1..] == [b];
    assert [b][1..] == [];
    var vb := Visit(refl, b).value;
    assert VisitAll(refl, []) == Ok(Visited([], false));
    assert [vb.value] + [] == [vb.value];
    assert VisitAll(refl, [b]) == Ok(Visited([vb.value], vb.changed));
    var va := Visit(refl, a).value;
    assert [va.value] + [vb.value] == [va.value, vb.value];
  }

  /** Visiting a marker Select rewrites the source and replaces the marker
      by its substitute; the Select keeps its type. */
  lemma VisitProjectSelect(refl: Reflector, src: Expr, y: Var, tgt: Expr)
    requires Visit(refl, src).Ok? && ExtractFromProjectArgument(tgt).Ok?
    ensures Visit(refl, ProjectSelect(src, y, tgt))
            == Ok(Visited(Call("Select", Queryable(TypeOf(Marker(Param(y), tgt))),
                               [Visit(refl, src).value.value, Quote(Lambda([y], Substitute(refl, y, tgt)))]), true))
  {
    var lam := Quote(Lambda([y], Marker(Param(y), tgt)));
    VisitMarkerLambda(refl, y, tgt);
    VisitTwo(refl, src, lam);
  }

  /** Activating `src.Select(y => y.AutoProjectInto(tgt))` over a
      marker-free source yields `src.Select(y => substitute)`. */
  lemma ActivateProjectSelect(refl: Reflector, src: Expr, y: Var, tgt: Expr)
    requires !ContainsMarker(src) && ExtractFromProjectArgument(tgt).Ok?
    ensures var t := DelegateResult(TypeOf(tgt));
            ActivateAutoProjects(refl, Query(t, ProjectSelect(src, y, tgt)))
              == Ok(Query(t, Select(src, y, Substitute(refl, y, tgt))))
  {
    VisitProjectSelect(refl, src, y, tgt);
    SubstitutePreservesType(refl, Param(y), tgt);
  }

  /** `Range(1, 1).AsQueryable().Select(x => new T { bindings })` with
      marker-free bindings: one row, the object the bindings build. */
  lemma {:induction false} SeedRow(ce: CtorEffects, ty: Ty, bs: seq<Binding>, fields: map<string, Value>)
    requires forall i :: 0 <= i < |bs| ==> !ContainsMarker(bs[i].value)
    requires ApplyBindings(ce, map[X.name := Int(1)], map[], bs) == Ok(fields)
    ensures !ContainsMarker(Select(One, X, MemberInit(Ctor(ty, []), bs)))
    ensures EvalQuery(ce, Select(One, X, MemberInit(Ctor(ty, []), bs))) == Ok([Obj(ty, fields)])
  {
    var body := MemberInit(Ctor(ty, []), bs);
    assert !ContainsMarker(body);
    assert !ContainsMarker(Quote(Lambda([X], body)));
    var args := [One, Quote(Lambda([X], body))];
    assert forall i :: 0 <= i < |args| ==> !ContainsMarker(args[i]);
    assert EvalAll(ce, map[X.name := Int(1)], []) == Ok([]);
    assert Construct(ce, ty, []) == map[];
    EvalSelectOne(ce, One, X, body, Int(1));
  }

  /** The substitute for a target `() => new T(...) { bs }` whose
      matches are known. */
  lemma SubstituteOfInitTarget(refl: Reflector, y: Var, ctor: Ctor, bs: seq<Binding>, ms: seq<PropMatch>)
    requires Determine(refl, y.ty, TargetInit(ctor, bs)) == ms
    ensures ExtractFromProjectArgument(Quote(Lambda([], MemberInit(ctor, bs)))).Ok?
    ensures Substitute(refl, y, Quote(Lambda([], MemberInit(ctor, bs))))
            == MemberInit(ctor, bs + SynthesizeBindings(Param(y), ms))
  {
    SubstituteUnfold(refl, Param(y), Quote(Lambda([], MemberInit(ctor, bs))));
  }

  /** The same for a target `() => new T(...)`. */
  lemma SubstituteOfNewTarget(refl: Reflector, y: Var, ctor: Ctor, ms: seq<PropMatch>)
    requires Determine(refl, y.ty, TargetInit(ctor, [])) == ms
    ensures ExtractFromProjectArgument(Quote(Lambda([], New(ctor)))).Ok?
    ensures Substitute(refl, y, Quote(Lambda([], New(ctor)))) == MemberInit(ctor, SynthesizeBindings(Param(y), ms))
  {
    SubstituteUnfold(refl, Param(y), Quote(Lambda([], New(ctor))));
    assert [] + SynthesizeBindings(Param(y), ms) == SynthesizeBindings(Param(y), ms);
  }

  /** `q.AutoProject(x => body)` builds the very query that activating
      `q.Select(x => x.AutoProjectInto(() => body))` builds, when the
      source query holds no marker. */
  lemma LambdaFormIsActivatedMarkerForm(refl: Reflector, q: Query, x: Var, body: Expr)
    requires IsConstruction(body) && !ContainsMarker(q.expr)
    ensures AutoProject(refl, q, x, body)
            == ActivateAutoProjects(refl, Query(TypeOf(body), ProjectSelect(q.expr, x, Quote(Lambda([], body)))))
  {
    var tgt := Quote(Lambda([], body));
    var own := Quote(Lambda([x], body));
    ActivateProjectSelect(refl, q.expr, x, tgt);
    LambdaFormIsMarkerOnParameter(refl, [x], body);
    assert ExtractFromProjectArgument(own) == ExtractFromProjectArgument(tgt);
    SubstituteUnfold(refl, Param(x), own);
    SubstituteUnfold(refl, Param(x), tgt);
    SubstitutePreservesType(refl, Param(x), tgt);
  }

  /** `q.AutoProject(x => body)` appends `Select(x => substitute)`, the
      substitute being the one the marker form `() => body` gets. */
  lemma AutoProjectSelects(refl: Reflector, q: Query, x: Var, body: Expr)
    requires IsConstruction(body)
    ensures ExtractFromProjectArgument(Quote(Lambda([], body))).Ok?
    ensures AutoProject(refl, q, x, body)
            == Ok(Query(TypeOf(body), Select(q.expr, x, Substitute(refl, x, Quote(Lambda([], body))))))
  {
    var tgt := Quote(Lambda([], body));
    var own := Quote(Lambda([x], body));
    LambdaFormIsMarkerOnParameter(refl, [x], body);
    assert ExtractFromProjectArgument(own) == ExtractFromProjectArgument(tgt);
    SubstituteUnfold(refl, Param(x), own);
    SubstituteUnfold(refl, Param(x), tgt);
    SubstitutePreservesType(refl, Param(x), tgt);
  }

  /** A marker Select, visited, is the Select of the substitute over the
      visited source. */
  lemma VisitSubstituteSelect(refl: Reflector, src: Expr, y: Var, tgt: Expr)
    requires Visit(refl, src).Ok? && ExtractFromProjectArgument(tgt).Ok?
    ensures Visit(refl, ProjectSelect(src, y, tgt))
            == Ok(Visited(Select(Visit(refl, src).value.value, y, Substitute(refl, y, tgt)), true))
  {
    VisitProjectSelect(refl, src, y, tgt);
    SubstitutePreservesType(refl, Param(y), tgt);
  }

  /** A Select whose lambda holds no marker is rebuilt around its visited
      source and changes exactly when the source does. */
  lemma VisitPlainSelect(refl: Reflector, src: Expr, x: Var, body: Expr)
    requires Visit(refl, src).Ok? && !ContainsMarker(body)
    ensures Visit(refl, Select(src, x, body))
            == Ok(Visited(Select(Visit(refl, src).value.value, x, body), Visit(refl, src).value.changed))
  {
    var lam := Quote(Lambda([x], body));
    assert !ContainsMarker(lam) by {
      assert ContainsMarker(lam) == ContainsMarker(Lambda([x], body));
    }
    VisitTwo(refl, src, lam);
  }

  /** A Select over a single row evaluates its lambda once, on that row. */
  lemma EvalSelectOne(ce: CtorEffects, src: Expr, x: Var, body: Expr, row: Value)
    requires EvalQuery(ce, src) == Ok([row])
    ensures Eval(ce, map[x.name := row], body).Ok? ==>
              EvalQuery(ce, Select(src, x, body)) == Ok([Eval(ce, map[x.name := row], body).value])
    ensures Eval(ce, map[x.name := row], body).Err? ==>
              EvalQuery(ce, Select(src, x, body)) == Err(Eval(ce, map[x.name := row], body).error)
  {
    assert [row][1..] == [];
    var sel := Select(src, x, body);
    assert sel.args[1].operand.params[0] == x && sel.args[1].operand.body == body;
    assert EvalQuery(ce, sel) == SelectRows(ce, x, body, [row]);
    assert SelectRows(ce, x, body, []) == Ok([]);
    if Eval(ce, map[x.name := row], body).Ok? {
      var v := Eval(ce, map[x.name := row], body).value;
      assert [v] + [] == [v];
    }
  }

  // ---- TestType { Foo, Bar }: explicit bindings win, chains of markers ----

  const TestType := Named("TestType")
  const Foo := PropDesc("Foo", IntTy, true, true)
  const Bar := PropDesc("Bar", IntTy, true, true)
  const TestRefl: Reflector := map[TestType := [Foo, Bar]]
  const Row := Var("x", TestType)

  function IntC(n: int): Expr { Const(Int(n), IntTy) }

  function TestRow(foo: int, bar: int): Value {
    Obj(TestType, map["Foo" := Int(foo), "Bar" := Int(bar)])
  }

  /** `.Select(x => new TestType { Foo = 7, Bar = 9 })`. */
  function Seeded(): Expr {
    Select(One, X, MemberInit(Ctor(TestType, []), [Bind(Foo, IntC(7)), Bind(Bar, IntC(9))]))
  }

  /** `() => new TestType { Bar = bar }`. */
  function BarTarget(bar: int): Expr {
    Quote(Lambda([], MemberInit(Ctor(TestType, []), [Bind(Bar, IntC(bar))])))
  }

  lemma SeededRow()
    ensures EvalQuery(map[], Seeded()) == Ok([TestRow(7, 9)])
    ensures Visit(TestRefl, Seeded()) == Ok(Visited(Seeded(), false))
  {
    var body := MemberInit(Ctor(TestType, []), [Bind(Foo, IntC(7)), Bind(Bar, IntC(9))]);
    EvalSelectOne(map[], One, X, body, Int(1));
    var env := map[X.name := Int(1)];
    var bs := body.bindings;
    assert bs[1..] == [Bind(Bar, IntC(9))] && bs[1..][1..] == [];
    assert ApplyBindings(map[], env, map["Foo" := Int(7), "Bar" := Int(9)], []) == Ok(map["Foo" := Int(7), "Bar" := Int(9)]);
    assert ApplyBindings(map[], env, map["Foo" := Int(7)], bs[1..]) == Ok(map["Foo" := Int(7), "Bar" := Int(9)]);
    assert ApplyBindings(map[], env, map[], bs) == Ok(map["Foo" := Int(7), "Bar" := Int(9)]);
    assert EvalAll(map[], env, []) == Ok([]);
    assert Construct(map[], TestType, []) == map[];
    assert !ContainsMarker(body);
    assert !ContainsMarker(Quote(Lambda([X], body)));
    var args := [One, Quote(Lambda([X], body))];
    assert forall i :: 0 <= i < |args| ==> !ContainsMarker(args[i]);
  }

  /** Only Foo is left to project: Bar is bound explicitly. */
  lemma BarSubstitute(bar: int)
    ensures ExtractFromProjectArgument(BarTarget(bar)).Ok?
    ensures Substitute(TestRefl, Row, BarTarget(bar))
            == MemberInit(Ctor(TestType, []), [Bind(Bar, IntC(bar)), Bind(Foo, Member(Param(Row), Foo))])
  {
    BarDetermine(bar);
    SubstituteOfInitTarget(TestRefl, Row, Ctor(TestType, []), [Bind(Bar, IntC(bar))], [PropMatch(Foo, Foo)]);
    assert SynthesizeBindings(Param(Row), [PropMatch(Foo, Foo)]) == [Bind(Foo, Member(Param(Row), Foo))];
  }

  lemma BarDetermine(bar: int)
    ensures Determine(TestRefl, TestType, TargetInit(Ctor(TestType, []), [Bind(Bar, IntC(bar))])) == [PropMatch(Foo, Foo)]
  {
    assert BoundNames([Bind(Bar, IntC(bar))]) == ["Bar"];
    assert UnboundSettable([Foo, Bar], ["Bar"]) == [Foo];
    assert Readable([Foo, Bar]) == [Foo, Bar];
    assert MatchAll([Foo, Bar], [Foo]) == [PropMatch(Foo, Foo)];
  }

  function SubBar(bar: int): Expr {
    MemberInit(Ctor(TestType, []), [Bind(Bar, IntC(bar)), Bind(Foo, Member(Param(Row), Foo))])
  }

  /** On a row with Foo = foo, the substitute yields Foo = foo, Bar = bar. */
  lemma EvalSubBar(foo: int, bar0: int, bar: int)
    ensures Eval(map[], map[Row.name := TestRow(foo, bar0)], SubBar(bar)) == Ok(TestRow(foo, bar))
  {
    var env := map[Row.name := TestRow(foo, bar0)];
    var bs := SubBar(bar).bindings;
    assert Eval(map[], env, Member(Param(Row), Foo)) == Ok(Int(foo));
    assert bs[1..] == [Bind(Foo, Member(Param(Row), Foo))] && bs[1..][1..] == [];
    assert ApplyBindings(map[], env, map["Bar" := Int(bar), "Foo" := Int(foo)], []) == Ok(map["Bar" := Int(bar), "Foo" := Int(foo)]);
    assert ApplyBindings(map[], env, map["Bar" := Int(bar)], bs[1..]) == Ok(map["Bar" := Int(bar), "Foo" := Int(foo)]);
    assert EvalBinding(map[], env, bs[0]) == Ok(Int(bar));
    assert map[]["Bar" := Int(bar)] == map["Bar" := Int(bar)];
    assert ApplyBindings(map[], env, map[], bs) == Ok(map["Bar" := Int(bar), "Foo" := Int(foo)]);
    assert EvalAll(map[], env, []) == Ok([]);
    assert Construct(map[], TestType, []) == map[];
    assert map["Bar" := Int(bar), "Foo" := Int(foo)] == map["Foo" := Int(foo), "Bar" := Int(bar)];
  }

  /** `q.Select(x => x.AutoProjectInto(() => new TestType { Bar = bar }))`. */
  function ProjectBar(q: Expr, bar: int): Expr {
    ProjectSelect(q, Row, BarTarget(bar))
  }

  /** Activating one such Select, over an already visited source. */
  lemma VisitProjectBar(q: Expr, bar: int)
    requires Visit(TestRefl, q).Ok?
    ensures Visit(TestRefl, ProjectBar(q, bar)) == Ok(Visited(Select(Visit(TestRefl, q).value.value, Row, SubBar(bar)), true))
  {
    BarSubstitute(bar);
    VisitProjectSelect(TestRefl, q, Row, BarTarget(bar));
  }

  /** `() => new TestType()`: nothing bound explicitly. */
  function UntouchedTarget(): Expr {
    Quote(Lambda([], New(Ctor(TestType, []))))
  }

  function UntouchedSub(): Expr {
    MemberInit(Ctor(TestType, []), [Bind(Foo, Member(Param(Row), Foo)), Bind(Bar, Member(Param(Row), Bar))])
  }

  /** AutoProjectInto_ProjectsUntouchedProperties: with no explicit
      binding, both Foo = 7 and Bar = 9 are projected. */
  lemma UntouchedProjected()
    ensures ActivateAutoProjects(TestRefl, Query(TestType, ProjectSelect(Seeded(), Row, UntouchedTarget())))
            == Ok(Query(TestType, Select(Seeded(), Row, UntouchedSub())))
    ensures EvalQuery(map[], Select(Seeded(), Row, UntouchedSub())) == Ok([TestRow(7, 9)])
  {
    SeededRow();
    UntouchedSubstitute();
    ActivateProjectSelect(TestRefl, Seeded(), Row, UntouchedTarget());
    EvalUntouchedSub(7, 9);
    EvalSelectOne(map[], Seeded(), Row, UntouchedSub(), TestRow(7, 9));
  }

  lemma UntouchedSubstitute()
    ensures ExtractFromProjectArgument(UntouchedTarget()).Ok?
    ensures Substitute(TestRefl, Row, UntouchedTarget()) == UntouchedSub()
  {
    UntouchedDetermine();
    SubstituteOfNewTarget(TestRefl, Row, Ctor(TestType, []), [PropMatch(Foo, Foo), PropMatch(Bar, Bar)]);
    SynthesizeTwo(Param(Row), PropMatch(Foo, Foo), PropMatch(Bar, Bar));
  }

  lemma SynthesizeTwo(src: Expr, m1: PropMatch, m2: PropMatch)
    ensures SynthesizeBindings(src, [m1, m2]) == [Bind(m1.target, Member(src, m1.source)), Bind(m2.target, Member(src, m2.source))]
  {
    var r := SynthesizeBindings(src, [m1, m2]);
    assert r[0] == Bind(m1.target, Member(src, m1.source));
    assert r[1] == Bind(m2.target, Member(src, m2.source));
  }

  lemma UntouchedDetermine()
    ensures Determine(TestRefl, TestType, TargetInit(Ctor(TestType, []), [])) == [PropMatch(Foo, Foo), PropMatch(Bar, Bar)]
  {
    assert BoundNames([]) == [];
    assert UnboundSettable([Foo, Bar], []) == [Foo, Bar];
    assert Readable([Foo, Bar]) == [Foo, Bar];
    UntouchedMatch();
  }

  lemma UntouchedMatch()
    ensures MatchAll([Foo, Bar], [Foo, Bar]) == [PropMatch(Foo, Foo), PropMatch(Bar, Bar)]
  {
    assert FindMatching(Bar, [Foo, Bar]) == Some(Bar) by {
      assert [Foo, Bar][1..] == [Bar];
    }
    assert MatchAll([Bar], [Foo, Bar]) == [PropMatch(Bar, Bar)];
    assert [Foo, Bar][1..] == [Bar];
  }

  lemma EvalUntouchedSub(foo: int, bar: int)
    ensures Eval(map[], map[Row.name := TestRow(foo, bar)], UntouchedSub()) == Ok(TestRow(foo, bar))
  {
    var env := map[Row.name := TestRow(foo, bar)];
    var bs := UntouchedSub().bindings;
    assert Eval(map[], env, Member(Param(Row), Foo)) == Ok(Int(foo));
    assert Eval(map[], env, Member(Param(Row), Bar)) == Ok(Int(bar));
    assert bs[1..] == [Bind(Bar, Member(Param(Row), Bar))] && bs[1..][1..] == [];
    assert ApplyBindings(map[], env, map["Foo" := Int(foo), "Bar" := Int(bar)], []) == Ok(map["Foo" := Int(foo), "Bar" := Int(bar)]);
    assert ApplyBindings(map[], env, map["Foo" := Int(foo)], bs[1..]) == Ok(map["Foo" := Int(foo), "Bar" := Int(bar)]);
    assert EvalBinding(map[], env, bs[0]) == Ok(Int(foo));
    assert map[]["Foo" := Int(foo)] == map["Foo" := Int(foo)];
    assert ApplyBindings(map[], env, map[], bs) == Ok(map["Foo" := Int(foo), "Bar" := Int(bar)]);
    assert EvalAll(map[], env, []) == Ok([]);
    assert Construct(map[], TestType, []) == map[];
  }

  /** `q.Select(x => new TestType { Foo = x.Foo, Bar = x.Bar })`. */
  function Untouched(q: Expr): Expr {
    Select(q, Row, UntouchedSub())
  }

  /** `q.Select(x => x.AutoProjectInto(() => new TestType()))`. */
  function MarkUntouched(q: Expr): Expr {
    ProjectSelect(q, Row, UntouchedTarget())
  }

  /** AutoProject_CanBeCombinedWithAutoProjectInto: the lambda form is
      rewritten as it is appended, the marker form waits for activation; a
      single activation resolves the remaining markers, even one beneath a
      lambda-form Select, and Foo = 7, Bar = 9 arrive at the end. */
  lemma CombinedFormsResolve()
    ensures AutoProject(TestRefl, Query(TestType, Seeded()), Row, New(Ctor(TestType, [])))
            == Ok(Query(TestType, Untouched(Seeded())))
    ensures AutoProject(TestRefl, Query(TestType, MarkUntouched(Untouched(Seeded()))), Row, New(Ctor(TestType, [])))
            == Ok(Query(TestType, Untouched(MarkUntouched(Untouched(Seeded())))))
    ensures ActivateAutoProjects(TestRefl, Query(TestType, MarkUntouched(Untouched(MarkUntouched(Untouched(Seeded()))))))
            == Ok(Query(TestType, Untouched(Untouched(Untouched(Untouched(Seeded()))))))
    ensures EvalQuery(map[], Untouched(Untouched(Untouched(Untouched(Seeded()))))) == Ok([TestRow(7, 9)])
  {
    CombinedBuild();
    CombinedActivation();
    CombinedEvaluation();
  }

  lemma CombinedBuild()
    ensures AutoProject(TestRefl, Query(TestType, Seeded()), Row, New(Ctor(TestType, [])))
            == Ok(Query(TestType, Untouched(Seeded())))
    ensures AutoProject(TestRefl, Query(TestType, MarkUntouched(Untouched(Seeded()))), Row, New(Ctor(TestType, [])))
            == Ok(Query(TestType, Untouched(MarkUntouched(Untouched(Seeded())))))
  {
    UntouchedSubstitute();
    AutoProjectSelects(TestRefl, Query(TestType, Seeded()), Row, New(Ctor(TestType, [])));
    AutoProjectSelects(TestRefl, Query(TestType, MarkUntouched(Untouched(Seeded()))), Row, New(Ctor(TestType, [])));
  }

  lemma CombinedActivation()
    ensures ActivateAutoProjects(TestRefl, Query(TestType, MarkUntouched(Untouched(MarkUntouched(Untouched(Seeded()))))))
            == Ok(Query(TestType, Untouched(Untouched(Untouched(Untouched(Seeded()))))))
  {
    CombinedVisit();
  }

  lemma CombinedVisit()
    ensures Visit(TestRefl, MarkUntouched(Untouched(MarkUntouched(Untouched(Seeded())))))
            == Ok(Visited(Untouched(Untouched(Untouched(Untouched(Seeded())))), true))
  {
    SeededRow();
    VisitUntouched(Seeded());
    VisitMarkUntouched(Untouched(Seeded()));
    VisitUntouched(MarkUntouched(Untouched(Seeded())));
    VisitMarkUntouched(Untouched(MarkUntouched(Untouched(Seeded()))));
  }

  lemma VisitUntouched(q: Expr)
    requires Visit(TestRefl, q).Ok?
    ensures Visit(TestRefl, Untouched(q)) == Ok(Visited(Untouched(Visit(TestRefl, q).value.value), Visit(TestRefl, q).value.changed))
  {
    assert !ContainsMarker(UntouchedSub());
    VisitPlainSelect(TestRefl, q, Row, UntouchedSub());
  }

  lemma VisitMarkUntouched(q: Expr)
    requires Visit(TestRefl, q).Ok?
    ensures Visit(TestRefl, MarkUntouched(q)) == Ok(Visited(Untouched(Visit(TestRefl, q).value.value), true))
  {
    UntouchedSubstitute();
    VisitSubstituteSelect(TestRefl, q, Row, UntouchedTarget());
  }

  lemma CombinedEvaluation()
    ensures EvalQuery(map[], Untouched(Untouched(Untouched(Untouched(Seeded()))))) == Ok([TestRow(7, 9)])
  {
    SeededRow();
    EvalUntouchedSub(7, 9);
    EvalSelectOne(map[], Seeded(), Row, UntouchedSub(), TestRow(7, 9));
    EvalSelectOne(map[], Untouched(Seeded()), Row, UntouchedSub(), TestRow(7, 9));
    EvalSelectOne(map[], Untouched(Untouched(Seeded())), Row, UntouchedSub(), TestRow(7, 9));
    EvalSelectOne(map[], Untouched(Untouched(Untouched(Seeded()))), Row, UntouchedSub(), TestRow(7, 9));
  }

  /** AutoProjectInto_DoesNotProjectsProperties: Bar = 10 is kept, Foo = 7
      is projected. */
  lemma ExplicitBarIsKept()
    ensures ActivateAutoProjects(TestRefl, Query(TestType, ProjectBar(Seeded(), 10)))
            == Ok(Query(TestType, Select(Seeded(), Row, SubBar(10))))
    ensures EvalQuery(map[], Select(Seeded(), Row, SubBar(10))) == Ok([TestRow(7, 10)])
  {
    SeededRow();
    VisitProjectBar(Seeded(), 10);
    EvalSubBar(7, 9, 10);
    EvalSelectOne(map[], Seeded(), Row, SubBar(10), TestRow(7, 9));
  }

  /** AutoProjectInto_ActivatesMultipleProjections: three markers in a row
      are all activated by one pass; the last explicit Bar wins and Foo
      travels through every step. */
  lemma ChainedMarkersResolve()
    ensures var chained := ProjectBar(ProjectBar(ProjectBar(Seeded(), 10), 11), 12);
            var activated := Select(Select(Select(Seeded(), Row, SubBar(10)), Row, SubBar(11)), Row, SubBar(12));
            && ActivateAutoProjects(TestRefl, Query(TestType, chained)) == Ok(Query(TestType, activated))
            && EvalQuery(map[], activated) == Ok([TestRow(7, 12)])
  {
    ChainActivation();
    ChainEvaluation();
  }

  lemma ChainActivation()
    ensures Visit(TestRefl, ProjectBar(ProjectBar(ProjectBar(Seeded(), 10), 11), 12))
            == Ok(Visited(Select(Select(Select(Seeded(), Row, SubBar(10)), Row, SubBar(11)), Row, SubBar(12)), true))
  {
    SeededRow();
    VisitProjectBar(Seeded(), 10);
    VisitProjectBar(ProjectBar(Seeded(), 10), 11);
    VisitProjectBar(ProjectBar(ProjectBar(Seeded(), 10), 11), 12);
  }

  lemma ChainEvaluation()
    ensures EvalQuery(map[], Select(Select(Select(Seeded(), Row, SubBar(10)), Row, SubBar(11)), Row, SubBar(12)))
            == Ok([TestRow(7, 12)])
  {
    SeededRow();
    var a1 := Select(Seeded(), Row, SubBar(10));
    var a2 := Select(a1, Row, SubBar(11));
    EvalSubBar(7, 9, 10);
    EvalSelectOne(map[], Seeded(), Row, SubBar(10), TestRow(7, 9));
    EvalSubBar(7, 10, 11);
    EvalSelectOne(map[], a1, Row, SubBar(11), TestRow(7, 10));
    EvalSubBar(7, 11, 12);
    EvalSelectOne(map[], a2, Row, SubBar(12), TestRow(7, 11));
  }

  // ---- AutoProjectInto_ThrowsIfActivateAutoProjectsWasNotCalled ----

  const ObjectTy := Named("object")
  const ObjectRefl: Reflector := map[ObjectTy := []]
  const ObjectRow := Var("x", ObjectTy)

  /** `Range(1, 1).AsQueryable().Select(x => new object())`. */
  function SeededObjects(): Expr {
    Select(One, X, New(Ctor(ObjectTy, [])))
  }

  /** `() => new object { }`. */
  function ObjectTarget(): Expr {
    Quote(Lambda([], MemberInit(Ctor(ObjectTy, []), [])))
  }

  /** `.Select(x => x.AutoProjectInto(() => new object { }))`. */
  function ObjectQuery(): Expr {
    ProjectSelect(SeededObjects(), ObjectRow, ObjectTarget())
  }

  function EmptyObject(): Value {
    Obj(ObjectTy, map[])
  }

  lemma SeededObjectRow()
    ensures !ContainsMarker(SeededObjects())
    ensures EvalQuery(map[], SeededObjects()) == Ok([EmptyObject()])
  {
    var body := New(Ctor(ObjectTy, []));
    assert !ContainsMarker(body);
    assert ContainsMarker(Quote(Lambda([X], body))) == ContainsMarker(Lambda([X], body));
    var args := [One, Quote(Lambda([X], body))];
    assert forall i :: 0 <= i < |args| ==> !ContainsMarker(args[i]);
    assert EvalAll(map[], map[X.name := Int(1)], []) == Ok([]);
    assert Construct(map[], ObjectTy, []) == map[];
    EvalSelectOne(map[], One, X, body, Int(1));
  }

  /** `object` has no property, so the substitute is the target's own
      `new object { }`. */
  lemma ObjectSubstitute()
    ensures ExtractFromProjectArgument(ObjectTarget()).Ok?
    ensures Substitute(ObjectRefl, ObjectRow, ObjectTarget()) == MemberInit(Ctor(ObjectTy, []), [])
  {
    assert Determine(ObjectRefl, ObjectTy, TargetInit(Ctor(ObjectTy, []), [])) == [];
    SubstituteOfInitTarget(ObjectRefl, ObjectRow, Ctor(ObjectTy, []), [], []);
    assert [] + SynthesizeBindings(Param(ObjectRow), []) == [];
  }

  /** `.Select(x => new object { })`, the activated query. */
  function ObjectActivated(): Expr {
    Select(SeededObjects(), ObjectRow, MemberInit(Ctor(ObjectTy, []), []))
  }

  /** The query, run without activation, fails with NotActivated; once
      activated, it runs and yields one empty object. */
  lemma UnactivatedQueryFails()
    ensures EvalQuery(map[], ObjectQuery()) == Err(NotActivated)
    ensures ActivateAutoProjects(ObjectRefl, Query(ObjectTy, ObjectQuery())) == Ok(Query(ObjectTy, ObjectActivated()))
    ensures EvalQuery(map[], ObjectActivated()) == Ok([EmptyObject()])
  {
    ObjectUnactivatedRun();
    ObjectActivation();
    ObjectActivatedRun();
  }

  lemma ObjectUnactivatedRun()
    ensures EvalQuery(map[], ObjectQuery()) == Err(NotActivated)
  {
    SeededObjectRow();
    var env := map[ObjectRow.name := EmptyObject()];
    assert Eval(map[], env, Param(ObjectRow)) == Ok(EmptyObject());
    MarkerEvaluationFails(map[], env, Param(ObjectRow), ObjectTarget());
    EvalSelectOne(map[], SeededObjects(), ObjectRow, Marker(Param(ObjectRow), ObjectTarget()), EmptyObject());
  }

  lemma ObjectActivation()
    ensures ActivateAutoProjects(ObjectRefl, Query(ObjectTy, ObjectQuery())) == Ok(Query(ObjectTy, ObjectActivated()))
  {
    SeededObjectRow();
    ObjectSubstitute();
    ActivateProjectSelect(ObjectRefl, SeededObjects(), ObjectRow, ObjectTarget());
  }

  lemma ObjectActivatedRun()
    ensures EvalQuery(map[], ObjectActivated()) == Ok([EmptyObject()])
  {
    SeededObjectRow();
    var env := map[ObjectRow.name := EmptyObject()];
    assert EvalAll(map[], env, []) == Ok([]);
    assert Construct(map[], ObjectTy, []) == map[];
    assert ApplyBindings(map[], env, map[], []) == Ok(map[]);
    EvalSelectOne(map[], SeededObjects(), ObjectRow, MemberInit(Ctor(ObjectTy, []), []), EmptyObject());
  }

  // ---- AutoProject_OnlyProjectsMatchingTypes ----

  const StrTy := Named("string")
  const MismatchSource := Named("PropTypeMismatchSource")
  const MismatchTarget := Named("PropTypeMismatchTarget")
  const SourceFoo := PropDesc("Foo", IntTy, true, true)
  const TargetFoo := PropDesc("Foo", StrTy, true, true)
  const MismatchRefl: Reflector := map[MismatchSource := [SourceFoo], MismatchTarget := [TargetFoo]]
  const MismatchRow := Var("x", MismatchSource)

  function MismatchSeed(): Expr {
    Select(One, X, MemberInit(Ctor(MismatchSource, []), [Bind(SourceFoo, IntC(1))]))
  }

  function MismatchTargetLambda(): Expr {
    Quote(Lambda([], New(Ctor(MismatchTarget, []))))
  }

  function MismatchRowValue(): Value {
    Obj(MismatchSource, map["Foo" := Int(1)])
  }

  /** An int Foo is not projected into a string Foo, which stays null. */
  lemma OnlyMatchingTypesProjected()
    ensures var activated := Select(MismatchSeed(), MismatchRow, MemberInit(Ctor(MismatchTarget, []), []));
            && ActivateAutoProjects(MismatchRefl, Query(MismatchTarget, ProjectSelect(MismatchSeed(), MismatchRow, MismatchTargetLambda())))
                 == Ok(Query(MismatchTarget, activated))
            && EvalQuery(map[], activated) == Ok([Obj(MismatchTarget, map[])])
            && Field(Obj(MismatchTarget, map[]), TargetFoo) == Null
  {
    MismatchActivation();
    MismatchEvaluation();
  }

  lemma MismatchSeedRow()
    ensures !ContainsMarker(MismatchSeed())
    ensures EvalQuery(map[], MismatchSeed()) == Ok([MismatchRowValue()])
  {
    var bs := [Bind(SourceFoo, IntC(1))];
    assert bs[1..] == [];
    assert map[]["Foo" := Int(1)] == map["Foo" := Int(1)];
    SeedRow(map[], MismatchSource, bs, MismatchRowValue().fields);
  }

  lemma MismatchActivation()
    ensures ActivateAutoProjects(MismatchRefl, Query(MismatchTarget, ProjectSelect(MismatchSeed(), MismatchRow, MismatchTargetLambda())))
            == Ok(Query(MismatchTarget, Select(MismatchSeed(), MismatchRow, MemberInit(Ctor(MismatchTarget, []), []))))
  {
    MismatchSeedRow();
    MismatchSubstitute();
    ActivateProjectSelect(MismatchRefl, MismatchSeed(), MismatchRow, MismatchTargetLambda());
  }

  lemma MismatchEvaluation()
    ensures EvalQuery(map[], Select(MismatchSeed(), MismatchRow, MemberInit(Ctor(MismatchTarget, []), [])))
            == Ok([Obj(MismatchTarget, map[])])
  {
    MismatchSeedRow();
    var env := map[MismatchRow.name := MismatchRowValue()];
    assert EvalAll(map[], env, []) == Ok([]);
    assert Eval(map[], env, MemberInit(Ctor(MismatchTarget, []), [])) == Ok(Obj(MismatchTarget, map[]));
    EvalSelectOne(map[], MismatchSeed(), MismatchRow, MemberInit(Ctor(MismatchTarget, []), []), MismatchRowValue());
  }

  lemma MismatchSubstitute()
    ensures ExtractFromProjectArgument(MismatchTargetLambda()).Ok?
    ensures Substitute(MismatchRefl, MismatchRow, MismatchTargetLambda()) == MemberInit(Ctor(MismatchTarget, []), [])
  {
    assert Determine(MismatchRefl, MismatchSource, TargetInit(Ctor(MismatchTarget, []), [])) == [] by {
      assert BoundNames([]) == [];
      assert FindMatching(SourceFoo, [TargetFoo]) == None;
    }
    SubstituteOfNewTarget(MismatchRefl, MismatchRow, Ctor(MismatchTarget, []), []);
  }

  // ---- AutoProject_OnlyProjectsWhenExitSourceGetterAndTargetSetter ----

  const GsSource := Named("GetterSetterMismatchSource")
  const GsTarget := Named("GetterSetterMismatchTarget")
  const Projected := PropDesc("Projected", IntTy, true, true)
  const SourcePrivSet := PropDesc("IgnoredPrivateSetInTarget", IntTy, true, true)
  const SourcePrivGet := PropDesc("IgnoredPrivateGetInSource", IntTy, false, true)
  const TargetPrivSet := PropDesc("IgnoredPrivateSetInTarget", IntTy, true, false)
  const TargetPrivGet := PropDesc("IgnoredPrivateGetInSource", IntTy, true, true)
  const GsRefl: Reflector := map[GsSource := [Projected, SourcePrivSet, SourcePrivGet],
                                 GsTarget := [Projected, TargetPrivSet, TargetPrivGet]]
  const GsRow := Var("x", GsSource)

  function GsSeedBindings(): seq<Binding> {
    [Bind(Projected, IntC(5)), Bind(SourcePrivSet, IntC(6)), Bind(SourcePrivGet, IntC(7))]
  }

  function GsSub(): Expr {
    MemberInit(Ctor(GsTarget, []), [Bind(Projected, Member(Param(GsRow), Projected))])
  }

  /** Only Projected has a public getter in the source and a public setter
      in the target. */
  lemma GsSubstitute()
    ensures ExtractFromProjectArgument(GsTargetLambda()).Ok? && Substitute(GsRefl, GsRow, GsTargetLambda()) == GsSub()
  {
    GsDetermine();
    SubstituteOfNewTarget(GsRefl, GsRow, Ctor(GsTarget, []), [PropMatch(Projected, Projected)]);
    assert SynthesizeBindings(Param(GsRow), [PropMatch(Projected, Projected)])
           == [Bind(Projected, Member(Param(GsRow), Projected))];
  }

  function GsSeed(): Expr {
    Select(One, X, MemberInit(Ctor(GsSource, []), GsSeedBindings()))
  }

  function GsTargetLambda(): Expr {
    Quote(Lambda([], New(Ctor(GsTarget, []))))
  }

  /** Projected = 5 is copied; the other two stay 0. */
  lemma OnlyGetterToSetterProjected()
    ensures var out := Obj(GsTarget, map["Projected" := Int(5)]);
            && ActivateAutoProjects(GsRefl, Query(GsTarget, ProjectSelect(GsSeed(), GsRow, GsTargetLambda())))
                 == Ok(Query(GsTarget, Select(GsSeed(), GsRow, GsSub())))
            && EvalQuery(map[], Select(GsSeed(), GsRow, GsSub())) == Ok([out])
            && Field(out, Projected) == Int(5) && Field(out, TargetPrivSet) == Int(0) && Field(out, TargetPrivGet) == Int(0)
  {
    GsActivation();
    GsEvaluation();
  }

  lemma GsActivation()
    ensures ActivateAutoProjects(GsRefl, Query(GsTarget, ProjectSelect(GsSeed(), GsRow, GsTargetLambda())))
            == Ok(Query(GsTarget, Select(GsSeed(), GsRow, GsSub())))
  {
    GsSeedFields();
    SeedRow(map[], GsSource, GsSeedBindings(), GsSourceFields());
    GsSubstitute();
    ActivateProjectSelect(GsRefl, GsSeed(), GsRow, GsTargetLambda());
  }

  lemma GsEvaluation()
    ensures EvalQuery(map[], Select(GsSeed(), GsRow, GsSub())) == Ok([Obj(GsTarget, map["Projected" := Int(5)])])
  {
    GsSeedFields();
    SeedRow(map[], GsSource, GsSeedBindings(), GsSourceFields());
    EvalGsSub(GsSourceFields());
    EvalSelectOne(map[], GsSeed(), GsRow, GsSub(), Obj(GsSource, GsSourceFields()));
  }

  function GsSourceFields(): map<string, Value> {
    map["Projected" := Int(5), "IgnoredPrivateSetInTarget" := Int(6), "IgnoredPrivateGetInSource" := Int(7)]
  }

  lemma GsSeedFields()
    ensures ApplyBindings(map[], map[X.name := Int(1)], map[], GsSeedBindings()) == Ok(GsSourceFields())
  {
    var env := map[X.name := Int(1)];
    var bs := GsSeedBindings();
    assert bs[1..] == [Bind(SourcePrivSet, IntC(6)), Bind(SourcePrivGet, IntC(7))];
    assert bs[1..][1..] == [Bind(SourcePrivGet, IntC(7))] && bs[1..][1..][1..] == [];
    var f3 := map["Projected" := Int(5), "IgnoredPrivateSetInTarget" := Int(6), "IgnoredPrivateGetInSource" := Int(7)];
    assert ApplyBindings(map[], env, f3, []) == Ok(f3);
    assert ApplyBindings(map[], env, map["Projected" := Int(5), "IgnoredPrivateSetInTarget" := Int(6)], bs[1..][1..]) == Ok(f3);
    assert ApplyBindings(map[], env, map["Projected" := Int(5)], bs[1..]) == Ok(f3);
    assert map[]["Projected" := Int(5)] == map["Projected" := Int(5)];
  }

  lemma EvalGsSub(fields: map<string, Value>)
    requires "Projected" in fields
    ensures Eval(map[], map[GsRow.name := Obj(GsSource, fields)], GsSub())
            == Ok(Obj(GsTarget, map["Projected" := fields["Projected"]]))
  {
    var env := map[GsRow.name := Obj(GsSource, fields)];
    var bs := GsSub().bindings;
    assert bs[1..] == [];
    assert EvalAll(map[], env, []) == Ok([]);
    assert Eval(map[], env, Member(Param(GsRow), Projected)) == Ok(fields["Projected"]);
    assert map[]["Projected" := fields["Projected"]] == map["Projected" := fields["Projected"]];
  }

  /** Public setters, nothing bound: Projected and IgnoredPrivateGetInSource;
      public getters: Projected and IgnoredPrivateSetInTarget. */
  lemma GsDetermine()
    ensures Determine(GsRefl, GsSource, TargetInit(Ctor(GsTarget, []), [])) == [PropMatch(Projected, Projected)]
  {
    GsTargets();
    GsSources();
    assert BoundNames([]) == [];
    assert Properties(GsRefl, GsTarget) == [Projected, TargetPrivSet, TargetPrivGet];
    assert Properties(GsRefl, GsSource) == [Projected, SourcePrivSet, SourcePrivGet];
    GsMatch();
  }

  lemma GsMatch()
    ensures MatchAll([Projected, SourcePrivSet], [Projected, TargetPrivGet]) == [PropMatch(Projected, Projected)]
  {
    assert [Projected, TargetPrivGet][1..] == [TargetPrivGet];
    assert FindMatching(SourcePrivSet, [TargetPrivGet]) == None;
    assert FindMatching(SourcePrivSet, [Projected, TargetPrivGet]) == None;
    assert [Projected, SourcePrivSet][1..] == [SourcePrivSet];
    assert MatchAll([SourcePrivSet], [Projected, TargetPrivGet]) == [];
  }

  lemma GsTargets()
    ensures UnboundSettable([Projected, TargetPrivSet, TargetPrivGet], []) == [Projected, TargetPrivGet]
  {
    var targets := [Projected, TargetPrivSet, TargetPrivGet];
    assert targets[1..] == [TargetPrivSet, TargetPrivGet] && targets[1..][1..] == [TargetPrivGet];
    assert UnboundSettable([TargetPrivGet], []) == [TargetPrivGet];
    assert UnboundSettable(targets[1..], []) == [TargetPrivGet];
  }

  lemma GsSources()
    ensures Readable([Projected, SourcePrivSet, SourcePrivGet]) == [Projected, SourcePrivSet]
  {
    var sources := [Projected, SourcePrivSet, SourcePrivGet];
    assert sources[1..] == [SourcePrivSet, SourcePrivGet] && sources[1..][1..] == [SourcePrivGet];
    assert Readable([SourcePrivGet]) == [];
    assert Readable(sources[1..]) == [SourcePrivSet];
  }

  // ---- AutoProject_PreservesContstructorInvocation ----

  const CpSource := Named("ConstructorParamsPreservationSource")
  const CpTarget := Named("ConstructorParamsPreservationTarget")
  const CpFoo := PropDesc("Foo", IntTy, true, true)
  const CpBar := PropDesc("Bar", IntTy, true, true)
  const CpBaz := PropDesc("Baz", IntTy, true, true)
  const CpRefl: Reflector := map[CpSource := [CpBar, CpBaz], CpTarget := [CpFoo, CpBar, CpBaz]]
  /** The target's one-argument constructor stores its argument into Foo. */
  const CpEffects: CtorEffects := map[CpTarget := ["Foo"]]
  const CpRow := Var("x", CpSource)

  function CpSeed(): Expr {
    Select(One, X, MemberInit(Ctor(CpSource, []), [Bind(CpBar, IntC(6)), Bind(CpBaz, IntC(7))]))
  }

  function CpFields(foo: int, bar: int, baz: int): map<string, Value> {
    map["Foo" := Int(foo), "Bar" := Int(bar), "Baz" := Int(baz)]
  }

  lemma CpSeedRow()
    ensures !ContainsMarker(CpSeed())
    ensures EvalQuery(CpEffects, CpSeed()) == Ok([Obj(CpSource, map["Bar" := Int(6), "Baz" := Int(7)])])
  {
    var env := map[X.name := Int(1)];
    var bs := [Bind(CpBar, IntC(6)), Bind(CpBaz, IntC(7))];
    var f := map["Bar" := Int(6), "Baz" := Int(7)];
    assert bs[1..] == [Bind(CpBaz, IntC(7))] && bs[1..][1..] == [];
    assert ApplyBindings(CpEffects, env, f, []) == Ok(f);
    assert ApplyBindings(CpEffects, env, map["Bar" := Int(6)], bs[1..]) == Ok(f);
    assert map[]["Bar" := Int(6)] == map["Bar" := Int(6)];
    SeedRow(CpEffects, CpSource, bs, f);
  }

  /** The substitute keeps the constructor call `new Target(5)` and, when
      bar is given, the explicit `Bar = bar`. */
  function CpSub(bar: Option<int>): Expr {
    var baz := Bind(CpBaz, Member(Param(CpRow), CpBaz));
    match bar
    case None => MemberInit(Ctor(CpTarget, [IntC(5)]), [Bind(CpBar, Member(Param(CpRow), CpBar)), baz])
    case Some(b) => MemberInit(Ctor(CpTarget, [IntC(5)]), [Bind(CpBar, IntC(b)), baz])
  }

  function CpTargetLambda(bar: Option<int>): Expr {
    match bar
    case None => Quote(Lambda([], New(Ctor(CpTarget, [IntC(5)]))))
    case Some(b) => Quote(Lambda([], MemberInit(Ctor(CpTarget, [IntC(5)]), [Bind(CpBar, IntC(b))])))
  }

  lemma CpSubstitute(bar: Option<int>)
    ensures ExtractFromProjectArgument(CpTargetLambda(bar)).Ok?
    ensures Substitute(CpRefl, CpRow, CpTargetLambda(bar)) == CpSub(bar)
  {
    match bar
    case None => CpSubstituteNone();
    case Some(b) => CpSubstituteBar(b);
  }

  lemma CpSubstituteNone()
    ensures ExtractFromProjectArgument(CpTargetLambda(None)).Ok?
    ensures Substitute(CpRefl, CpRow, CpTargetLambda(None)) == CpSub(None)
  {
    CpDetermineAll();
    SubstituteOfNewTarget(CpRefl, CpRow, Ctor(CpTarget, [IntC(5)]), [PropMatch(CpBar, CpBar), PropMatch(CpBaz, CpBaz)]);
    CpSynthesizeAll();
  }

  lemma CpSubstituteBar(b: int)
    ensures ExtractFromProjectArgument(CpTargetLambda(Some(b))).Ok?
    ensures Substitute(CpRefl, CpRow, CpTargetLambda(Some(b))) == CpSub(Some(b))
  {
    var ctor := Ctor(CpTarget, [IntC(5)]);
    var baz := Bind(CpBaz, Member(Param(CpRow), CpBaz));
    assert CpTargetLambda(Some(b)) == Quote(Lambda([], MemberInit(ctor, [Bind(CpBar, IntC(b))])));
    assert CpSub(Some(b)) == MemberInit(ctor, [Bind(CpBar, IntC(b))] + [baz]);
    CpDetermineBar(b);
    SubstituteOfInitTarget(CpRefl, CpRow, Ctor(CpTarget, [IntC(5)]), [Bind(CpBar, IntC(b))], [PropMatch(CpBaz, CpBaz)]);
    CpSynthesizeBaz();
  }

  lemma CpSynthesizeAll()
    ensures SynthesizeBindings(Param(CpRow), [PropMatch(CpBar, CpBar), PropMatch(CpBaz, CpBaz)])
            == [Bind(CpBar, Member(Param(CpRow), CpBar)), Bind(CpBaz, Member(Param(CpRow), CpBaz))]
  {
  }

  lemma CpSynthesizeBaz()
    ensures SynthesizeBindings(Param(CpRow), [PropMatch(CpBaz, CpBaz)]) == [Bind(CpBaz, Member(Param(CpRow), CpBaz))]
  {
  }

  /** Nothing bound: Bar and Baz are projected (Foo has no source). */
  lemma CpDetermineAll()
    ensures Determine(CpRefl, CpSource, TargetInit(Ctor(CpTarget, [IntC(5)]), []))
            == [PropMatch(CpBar, CpBar), PropMatch(CpBaz, CpBaz)]
  {
    CpSources();
    assert BoundNames([]) == [];
    CpTargetsAll();
    CpMatchAll();
  }

  /** Bar bound explicitly: only Baz is projected. */
  lemma CpDetermineBar(b: int)
    ensures Determine(CpRefl, CpSource, TargetInit(Ctor(CpTarget, [IntC(5)]), [Bind(CpBar, IntC(b))]))
            == [PropMatch(CpBaz, CpBaz)]
  {
    CpSources();
    assert BoundNames([Bind(CpBar, IntC(b))]) == ["Bar"];
    CpTargetsBar();
    CpMatchBar();
  }

  lemma CpSources()
    ensures Readable([CpBar, CpBaz]) == [CpBar, CpBaz]
  {
    assert [CpBar, CpBaz][1..] == [CpBaz] && [CpBaz][1..] == [];
    assert Readable([CpBaz]) == [CpBaz];
  }

  lemma CpTargetsAll()
    ensures UnboundSettable([CpFoo, CpBar, CpBaz], []) == [CpFoo, CpBar, CpBaz]
  {
    var targets := [CpFoo, CpBar, CpBaz];
    assert targets[1..] == [CpBar, CpBaz] && targets[1..][1..] == [CpBaz] && targets[1..][1..][1..] == [];
    assert UnboundSettable([CpBaz], []) == [CpBaz];
    assert UnboundSettable(targets[1..], []) == [CpBar, CpBaz];
  }

  lemma CpTargetsBar()
    ensures UnboundSettable([CpFoo, CpBar, CpBaz], ["Bar"]) == [CpFoo, CpBaz]
  {
    var targets := [CpFoo, CpBar, CpBaz];
    assert targets[1..] == [CpBar, CpBaz] && targets[1..][1..] == [CpBaz] && targets[1..][1..][1..] == [];
    assert UnboundSettable([CpBaz], ["Bar"]) == [CpBaz];
    assert UnboundSettable(targets[1..], ["Bar"]) == [CpBaz];
  }

  lemma CpMatchAll()
    ensures MatchAll([CpBar, CpBaz], [CpFoo, CpBar, CpBaz]) == [PropMatch(CpBar, CpBar), PropMatch(CpBaz, CpBaz)]
  {
    var targets := [CpFoo, CpBar, CpBaz];
    assert targets[1..] == [CpBar, CpBaz] && targets[1..][1..] == [CpBaz];
    assert FindMatching(CpBaz, targets[1..][1..]) == Some(CpBaz);
    assert FindMatching(CpBaz, targets) == Some(CpBaz);
    assert FindMatching(CpBar, targets) == Some(CpBar);
    assert [CpBar, CpBaz][1..] == [CpBaz] && [CpBaz][1..] == [];
    assert MatchAll([CpBaz], targets) == [PropMatch(CpBaz, CpBaz)];
  }

  lemma CpMatchBar()
    ensures MatchAll([CpBar, CpBaz], [CpFoo, CpBaz]) == [PropMatch(CpBaz, CpBaz)]
  {
    assert [CpFoo, CpBaz][1..] == [CpBaz] && [CpBaz][1..] == [];
    assert FindMatching(CpBar, [CpBaz]) == None;
    assert FindMatching(CpBar, [CpFoo, CpBaz]) == None;
    assert FindMatching(CpBaz, [CpFoo, CpBaz]) == Some(CpBaz);
    assert [CpBar, CpBaz][1..] == [CpBaz];
    assert MatchAll([CpBaz], [CpFoo, CpBaz]) == [PropMatch(CpBaz, CpBaz)];
  }

  lemma EvalCpSub(bar: Option<int>)
    ensures Eval(CpEffects, map[CpRow.name := Obj(CpSource, map["Bar" := Int(6), "Baz" := Int(7)])], CpSub(bar))
            == Ok(Obj(CpTarget, CpFields(5, if bar.Some? then bar.value else 6, 7)))
  {
    var env := map[CpRow.name := Obj(CpSource, map["Bar" := Int(6), "Baz" := Int(7)])];
    var sub := CpSub(bar);
    var b := if bar.Some? then bar.value else 6;
    assert [IntC(5)][1..] == [];
    assert EvalAll(CpEffects, env, []) == Ok([]);
    assert [Int(5)] + [] == [Int(5)];
    assert EvalAll(CpEffects, env, [IntC(5)]) == Ok([Int(5)]);
    assert ["Foo"][1..] == [] && [Int(5)][1..] == [];
    assert Construct(CpEffects, CpTarget, [Int(5)]) == map["Foo" := Int(5)];
    var bs := sub.bindings;
    assert bs[1..] == [Bind(CpBaz, Member(Param(CpRow), CpBaz))] && bs[1..][1..] == [];
    assert Eval(CpEffects, env, bs[0].value) == Ok(Int(b));
    assert Eval(CpEffects, env, Member(Param(CpRow), CpBaz)) == Ok(Int(7));
    assert ApplyBindings(CpEffects, env, CpFields(5, b, 7), []) == Ok(CpFields(5, b, 7));
    assert ApplyBindings(CpEffects, env, map["Foo" := Int(5), "Bar" := Int(b)], bs[1..]) == Ok(CpFields(5, b, 7));
    assert ApplyBindings(CpEffects, env, map["Foo" := Int(5)], bs) == Ok(CpFields(5, b, 7));
  }

  /** Foo comes from the constructor argument, Bar and Baz are projected,
      5/6/7; with `{ Bar = 10 }` the explicit value wins, 5/10/7. */
  lemma ConstructorCallPreserved(bar: Option<int>)
    ensures var q := ProjectSelect(CpSeed(), CpRow, CpTargetLambda(bar));
            var activated := Select(CpSeed(), CpRow, CpSub(bar));
            && ActivateAutoProjects(CpRefl, Query(CpTarget, q)) == Ok(Query(CpTarget, activated))
            && EvalQuery(CpEffects, activated) == Ok([Obj(CpTarget, CpFields(5, if bar.Some? then bar.value else 6, 7))])
  {
    CpSeedRow();
    CpSubstitute(bar);
    ActivateProjectSelect(CpRefl, CpSeed(), CpRow, CpTargetLambda(bar));
    EvalCpSub(bar);
    EvalSelectOne(CpEffects, CpSeed(), CpRow, CpSub(bar), Obj(CpSource, map["Bar" := Int(6), "Baz" := Int(7)]));
  }

  // ---- AutoProject_ProjectsComplexTypeProperties ----

  const TokenTy := Named("ComplexTypeProjectionToken")
  const CtSource := Named("ComplexTypeProjectionSource")
  const CtTarget := Named("ComplexTypeProjectionTarget")
  const TokenFoo := PropDesc("Foo", IntTy, true, true)
  const TokenProp := PropDesc("Token", TokenTy, true, true)
  const CtRefl: Reflector := map[TokenTy := [TokenFoo], CtSource := [TokenProp], CtTarget := [TokenProp]]
  const CtRow := Var("x", CtSource)

  function TokenInit(): Expr {
    MemberInit(Ctor(TokenTy, []), [Bind(TokenFoo, IntC(5))])
  }

  function TokenValue(): Value {
    Obj(TokenTy, map["Foo" := Int(5)])
  }

  function CtSeed(): Expr {
    Select(One, X, MemberInit(Ctor(CtSource, []), [Bind(TokenProp, TokenInit())]))
  }

  function CtTargetLambda(): Expr {
    Quote(Lambda([], New(Ctor(CtTarget, []))))
  }

  function CtSub(): Expr {
    MemberInit(Ctor(CtTarget, []), [Bind(TokenProp, Member(Param(CtRow), TokenProp))])
  }

  lemma CtSeedRow()
    ensures !ContainsMarker(CtSeed())
    ensures EvalQuery(map[], CtSeed()) == Ok([Obj(CtSource, map["Token" := TokenValue()])])
  {
    var env := map[X.name := Int(1)];
    var tbs := TokenInit().bindings;
    assert tbs[1..] == [];
    assert EvalAll(map[], env, []) == Ok([]);
    assert map[]["Foo" := Int(5)] == map["Foo" := Int(5)];
    assert Eval(map[], env, TokenInit()) == Ok(TokenValue());
    assert !ContainsMarker(IntC(5));
    assert !ContainsMarker(TokenInit());
    var bs := [Bind(TokenProp, TokenInit())];
    assert bs[1..] == [];
    assert map[]["Token" := TokenValue()] == map["Token" := TokenValue()];
    SeedRow(map[], CtSource, bs, map["Token" := TokenValue()]);
  }

  lemma CtSubstitute()
    ensures ExtractFromProjectArgument(CtTargetLambda()).Ok?
    ensures Substitute(CtRefl, CtRow, CtTargetLambda()) == CtSub()
  {
    assert Determine(CtRefl, CtSource, TargetInit(Ctor(CtTarget, []), [])) == [PropMatch(TokenProp, TokenProp)] by {
      assert BoundNames([]) == [];
      assert UnboundSettable([TokenProp], []) == [TokenProp];
      assert Readable([TokenProp]) == [TokenProp];
      assert MatchAll([TokenProp], [TokenProp]) == [PropMatch(TokenProp, TokenProp)];
    }
    SubstituteOfNewTarget(CtRefl, CtRow, Ctor(CtTarget, []), [PropMatch(TokenProp, TokenProp)]);
    assert SynthesizeBindings(Param(CtRow), [PropMatch(TokenProp, TokenProp)])
           == [Bind(TokenProp, Member(Param(CtRow), TokenProp))];
  }

  lemma EvalCtSub()
    ensures Eval(map[], map[CtRow.name := Obj(CtSource, map["Token" := TokenValue()])], CtSub())
            == Ok(Obj(CtTarget, map["Token" := TokenValue()]))
  {
    var env := map[CtRow.name := Obj(CtSource, map["Token" := TokenValue()])];
    var bs := CtSub().bindings;
    assert bs[1..] == [];
    assert EvalAll(map[], env, []) == Ok([]);
    assert Eval(map[], env, Member(Param(CtRow), TokenProp)) == Ok(TokenValue());
    assert map[]["Token" := TokenValue()] == map["Token" := TokenValue()];
  }

  /** The Token object itself, Foo = 5 inside, is carried over: types are
      matched by identity, whatever their shape. */
  lemma ComplexPropertyProjected()
    ensures var out := Obj(CtTarget, map["Token" := TokenValue()]);
            && ActivateAutoProjects(CtRefl, Query(CtTarget, ProjectSelect(CtSeed(), CtRow, CtTargetLambda())))
                 == Ok(Query(CtTarget, Select(CtSeed(), CtRow, CtSub())))
            && EvalQuery(map[], Select(CtSeed(), CtRow, CtSub())) == Ok([out])
            && Field(out, TokenProp) != Null && Field(Field(out, TokenProp), TokenFoo) == Int(5)
  {
    CtSeedRow();
    CtSubstitute();
    ActivateProjectSelect(CtRefl, CtSeed(), CtRow, CtTargetLambda());
    EvalCtSub();
    EvalSelectOne(map[], CtSeed(), CtRow, CtSub(), Obj(CtSource, map["Token" := TokenValue()]));
  }
}
