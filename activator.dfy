/** The expression visitor that finds marker calls and replaces each with a
    member-init node whose bindings are the explicit ones plus one per
    auto-projectable property. */
module Activator {
  import opened Failures
  import opened Reflection
  import opened Expressions
  import opened PropertyMatcher
  import opened BindingCombiner

  /** A visited node and whether anything in it was rewritten. The flag
      stands in for the reference comparison `newExpr == expr`: when it is
      false the node itself is returned. */
  datatype Visited<T> = Visited(value: T, changed: bool)

  /** What the parser reads from a marker call or a lambda. */
  datatype Parsed = Parsed(source: Expr, sourceTy: Ty, init: TargetInit)

  /** A lambda body the rewrite accepts: `new T(...)` or `new T(...) { ... }`. */
  predicate IsConstruction(body: Expr) {
    body.New? || body.MemberInit?
  }

  /** The member-init node a construction body stands for; a bare `new`
      becomes a member-init with no bindings. */
  function InitOf(body: Expr): (r: TargetInit)
    requires IsConstruction(body)
    ensures r.ctor == body.ctor && r.ctor.ty == TypeOf(body)
    ensures body.New? ==> r.bindings == []
    ensures body.MemberInit? ==> r.bindings == body.bindings
    ensures !ContainsMarker(body) ==> MarkerFree(r)
  {
    match body
    case New(c) => TargetInit(c, [])
    case MemberInit(c, bs) => TargetInit(c, bs)
  }

  /** Neither the constructor arguments nor the bound values hold a marker. */
  predicate MarkerFree(init: TargetInit) {
    && (forall i :: 0 <= i < |init.ctor.args| ==> !ContainsMarker(init.ctor.args[i]))
    && (forall i :: 0 <= i < |init.bindings| ==> !ContainsMarker(init.bindings[i].value))
  }

  /** The target argument of a marker: a quoted or unquoted lambda whose body
      is a construction; anything else is NotSupported. */
  function ExtractFromProjectArgument(arg: Expr): (r: Result<TargetInit>)
    ensures r.Ok? <==> (|| (arg.Quote? && arg.operand.Lambda? && IsConstruction(arg.operand.body))
                       || (arg.Lambda? && IsConstruction(arg.body)))
    ensures r.Err? ==> r.error == UnsupportedTargetShape
    ensures r.Ok? ==> if arg.Quote? then arg.operand.Lambda? && IsConstruction(arg.operand.body) && r.value == InitOf(arg.operand.body)
                      else arg.Lambda? && IsConstruction(arg.body) && r.value == InitOf(arg.body)
    ensures r.Ok? ==> r.value.ctor.ty == DelegateResult(TypeOf(arg))
    ensures r.Ok? && !ContainsMarker(arg) ==> MarkerFree(r.value)
  {
    // a quoted lambda, or a bare lambda
    if arg.Quote? && arg.operand.Lambda? && IsConstruction(arg.operand.body) then
      assert ContainsMarker(arg) == ContainsMarker(arg.operand);
      Ok(InitOf(arg.operand.body))
    else if arg.Lambda? && IsConstruction(arg.body) then Ok(InitOf(arg.body))
    else Err(UnsupportedTargetShape)
  }

  /** The body of a lambda given to the lambda form; anything but a
      construction is an ArgumentException. */
  function ExtractFromLambda(body: Expr): (r: Result<TargetInit>)
    ensures r.Ok? <==> IsConstruction(body)
    ensures r.Ok? ==> IsConstruction(body) && r.value == InitOf(body)
    ensures r.Err? ==> r.error == UnhandledExpression
  {
    match body
    case New(c) => Ok(InitOf(body))
    case MemberInit(c, bs) => Ok(InitOf(body))
    case _ => Err(UnhandledExpression)
  }

  /** Reads source, source type and target member-init from a method call
      (the marker: arguments 0 and 1) or from a lambda (its first parameter
      and its body). */
  function Parse(node: Expr): (r: Result<Parsed>)
    ensures node.Marker? ==> (r.Ok? <==> ExtractFromProjectArgument(node.target).Ok?)
    ensures node.Marker? && r.Err? ==> r.error == UnsupportedTargetShape
    ensures node.Marker? && r.Ok? ==>
              r.value.source == node.source && r.value.sourceTy == TypeOf(node.source)
              && r.value.init == ExtractFromProjectArgument(node.target).value
    ensures node.Lambda? && r.Ok? ==>
              |node.params| > 0 && r.value.source == Param(node.params[0]) && r.value.sourceTy == node.params[0].ty
    ensures !(node.Marker? || node.Call? || node.Lambda?) ==> r == Err(UnhandledExpression)
  {
    match node
    case Marker(source, target) =>
      var init :- ExtractFromProjectArgument(target);
      Ok(Parsed(source, TypeOf(source), init))
    case Call(_, _, args) =>
      if |args| < 2 then Err(IndexOutOfRange)
      else
        var init :- ExtractFromProjectArgument(args[1]);
        Ok(Parsed(args[0], TypeOf(args[0]), init))
    case Lambda(params, body) =>
      if |params| == 0 then Err(IndexOutOfRange)
      else
        var init :- ExtractFromLambda(body);
        Ok(Parsed(Param(params[0]), params[0].ty, init))
    case _ => Err(UnhandledExpression)
  }

  /** The replacement for a marker call (or the body for the lambda form):
      the original constructor call with the explicit bindings followed by
      the synthesised ones. */
  function CreateSubstitute(refl: Reflector, node: Expr): (r: Result<Expr>)
    ensures r.Ok? ==> r.value.MemberInit?
    ensures node.Marker? ==> (r.Ok? <==> ExtractFromProjectArgument(node.target).Ok?)
    ensures node.Marker? && r.Err? ==> r.error == UnsupportedTargetShape
  {
    var parsed :- Parse(node);
    var matches := Determine(refl, parsed.sourceTy, parsed.init);
    Ok(Combine(parsed.init, SynthesizeBindings(parsed.source, matches)))
  }

  /** Unfolds the substitute of a marker whose target argument is accepted. */
  lemma SubstituteUnfold(refl: Reflector, source: Expr, target: Expr)
    requires ExtractFromProjectArgument(target).Ok?
    ensures var init := ExtractFromProjectArgument(target).value;
            CreateSubstitute(refl, Marker(source, target))
              == Ok(MemberInit(init.ctor, init.bindings + SynthesizeBindings(source, Determine(refl, TypeOf(source), init))))
  {
  }

  /** The substitute of a well-formed marker keeps the original constructor
      call and the explicit bindings, in front, and adds only bindings that
      assign a settable, explicitly unbound target property the same-named,
      same-typed readable property of the marker's source, read off the
      source expression itself. */
  lemma SubstituteOfMarker(refl: Reflector, source: Expr, target: Expr)
    requires ExtractFromProjectArgument(target).Ok?
    ensures var init := ExtractFromProjectArgument(target).value;
            var r := CreateSubstitute(refl, Marker(source, target));
            && r.Ok? && r.value.ctor == init.ctor
            && |init.bindings| <= |r.value.bindings| <= |init.bindings| + |Readable(Properties(refl, TypeOf(source)))|
            && r.value.bindings[..|init.bindings|] == init.bindings
            && forall b :: b in r.value.bindings[|init.bindings|..] ==>
                 && b.member in Properties(refl, init.ctor.ty) && b.member.publicSet
                 && b.member.name !in BoundNames(init.bindings)
                 && exists p :: p in Properties(refl, TypeOf(source)) && p.publicGet
                                && SameNameAndType(b.member, p) && b.value == Member(source, p)
  {
    var init := ExtractFromProjectArgument(target).value;
    var ms := Determine(refl, TypeOf(source), init);
    var extra := SynthesizeBindings(source, ms);
    var sub := CreateSubstitute(refl, Marker(source, target));
    assert sub == Ok(MemberInit(init.ctor, init.bindings + extra));
    assert sub.value.bindings[|init.bindings|..] == extra;
    DetermineBounded(refl, TypeOf(source), init);
    forall b | b in extra
      ensures && b.member in Properties(refl, init.ctor.ty) && b.member.publicSet
              && b.member.name !in BoundNames(init.bindings)
              && exists p :: p in Properties(refl, TypeOf(source)) && p.publicGet
                             && SameNameAndType(b.member, p) && b.value == Member(source, p)
    {
      var i :| 0 <= i < |extra| && extra[i] == b;
      DetermineSound(refl, TypeOf(source), init, ms[i]);
    }
  }

  /** With distinct property names on the source type, no target member
      is assigned twice by the added bindings. */
  lemma SubstituteAddsEachTargetOnce(refl: Reflector, source: Expr, target: Expr)
    requires ExtractFromProjectArgument(target).Ok?
    requires UniqueNames(Properties(refl, TypeOf(source)))
    ensures var init := ExtractFromProjectArgument(target).value;
            var r := CreateSubstitute(refl, Marker(source, target));
            && r.Ok? && r.value.MemberInit?
            && forall i, j :: |init.bindings| <= i < j < |r.value.bindings| ==>
                 r.value.bindings[i].member.name != r.value.bindings[j].member.name
  {
    var init := ExtractFromProjectArgument(target).value;
    SubstituteUnfold(refl, source, target);
    DetermineTargetsDistinct(refl, TypeOf(source), init);
    SynthesizedNamesDistinct(init.bindings, source, Determine(refl, TypeOf(source), init));
  }

  lemma SynthesizedNamesDistinct(explicit: seq<Binding>, source: Expr, ms: seq<PropMatch>)
    requires forall i, j :: 0 <= i < j < |ms| ==> ms[i].target.name != ms[j].target.name
    ensures var bs := explicit + SynthesizeBindings(source, ms);
            forall i, j :: |explicit| <= i < j < |bs| ==> bs[i].member.name != bs[j].member.name
  {
    var extra := SynthesizeBindings(source, ms);
    var bs := explicit + extra;
    forall i, j | |explicit| <= i < j < |bs| ensures bs[i].member.name != bs[j].member.name {
      assert bs[i] == extra[i - |explicit|] && bs[j] == extra[j - |explicit|];
    }
  }

  /** Every readable source property with a settable, explicitly unbound
      counterpart of the same name and type is projected. */
  lemma SubstituteProjectsEveryMatch(refl: Reflector, source: Expr, target: Expr, p: PropDesc, t: PropDesc)
    requires ExtractFromProjectArgument(target).Ok?
    requires p in Properties(refl, TypeOf(source)) && p.publicGet
    requires var init := ExtractFromProjectArgument(target).value;
             t in Properties(refl, init.ctor.ty) && t.publicSet
             && t.name !in BoundNames(init.bindings) && SameNameAndType(t, p)
    ensures var init := ExtractFromProjectArgument(target).value;
            var r := CreateSubstitute(refl, Marker(source, target));
            && r.Ok?
            && exists k :: |init.bindings| <= k < |r.value.bindings|
                           && r.value.bindings[k].member in Properties(refl, init.ctor.ty)
                           && r.value.bindings[k].member.publicSet
                           && SameNameAndType(r.value.bindings[k].member, p)
                           && r.value.bindings[k].value == Member(source, p)
  {
    var init := ExtractFromProjectArgument(target).value;
    var ms := Determine(refl, TypeOf(source), init);
    SubstituteUnfold(refl, source, target);
    DetermineIncludes(refl, TypeOf(source), init, p, t);
    var i :| 0 <= i < |ms| && ms[i].source == p;
    DetermineSound(refl, TypeOf(source), init, ms[i]);
    SynthesizedBindingPresent(init.bindings, source, ms, i);
  }

  /** The binding synthesised for match `i` sits at position
      |explicit| + i, after every explicit binding. */
  lemma SynthesizedBindingPresent(explicit: seq<Binding>, source: Expr, ms: seq<PropMatch>, i: nat)
    requires i < |ms|
    ensures var bs := explicit + SynthesizeBindings(source, ms);
            |explicit| + i < |bs| && bs[|explicit| + i].member == ms[i].target
            && bs[|explicit| + i].value == Member(source, ms[i].source)
  {
  }

  /** The substitute has the marker's type (TResult). */
  lemma SubstitutePreservesType(refl: Reflector, source: Expr, target: Expr)
    requires ExtractFromProjectArgument(target).Ok?
    ensures TypeOf(CreateSubstitute(refl, Marker(source, target)).value) == TypeOf(Marker(source, target))
  {
    var init := ExtractFromProjectArgument(target).value;
    var extra := SynthesizeBindings(source, Determine(refl, TypeOf(source), init));
    assert CreateSubstitute(refl, Marker(source, target)) == Ok(MemberInit(init.ctor, init.bindings + extra));
  }

  /** A marker whose operands are marker-free leaves no marker behind. */
  lemma SubstituteMarkerFree(refl: Reflector, source: Expr, target: Expr)
    requires ExtractFromProjectArgument(target).Ok?
    requires !ContainsMarker(source) && !ContainsMarker(target)
    ensures !ContainsMarker(CreateSubstitute(refl, Marker(source, target)).value)
  {
    var init := ExtractFromProjectArgument(target).value;
    var ms := Determine(refl, TypeOf(source), init);
    var extra := SynthesizeBindings(source, ms);
    var bs := init.bindings + extra;
    assert CreateSubstitute(refl, Marker(source, target)) == Ok(MemberInit(init.ctor, bs));
    forall i | 0 <= i < |bs| ensures !ContainsMarker(bs[i].value) {
      if i >= |init.bindings| {
        assert bs[i].value == Member(source, ms[i - |init.bindings|].source);
      }
    }
  }

  /** ExpressionVisitor.Visit with AutoProjectActivator's VisitMethodCall:
      a marker is replaced by its substitute, which is not visited again;
      every other node has its children visited and is rebuilt only when one
      of them changed. */
  function Visit(refl: Reflector, e: Expr): (r: Result<Visited<Expr>>)
    ensures r.Ok? ==> (r.value.changed <==> ContainsMarker(e))
    ensures r.Ok? ==> (r.value.changed <==> r.value.value != e)
    ensures r.Err? ==> r.error == UnsupportedTargetShape && ContainsMarker(e)
    decreases e
  {
    match e
    case Const(_, _) => Ok(Visited(e, false))
    case Param(_) => Ok(Visited(e, false))
    case Member(obj, p) =>
      var o :- Visit(refl, obj);
      Ok(if o.changed then Visited(Member(o.value, p), true) else Visited(e, false))
    case Call(m, ty, args) =>
      var a :- VisitAll(refl, args);
      Ok(if a.changed then Visited(Call(m, ty, a.value), true) else Visited(e, false))
    case Marker(_, _) =>
      var sub :- CreateSubstitute(refl, e);
      Ok(Visited(sub, true))
    case Quote(op) =>
      var o :- Visit(refl, op);
      Ok(if o.changed then Visited(Quote(o.value), true) else Visited(e, false))
    case Lambda(ps, body) =>
      var b :- Visit(refl, body);
      Ok(if b.changed then Visited(Lambda(ps, b.value), true) else Visited(e, false))
    case New(c) =>
      var c' :- VisitCtor(refl, c);
      Ok(if c'.changed then Visited(New(c'.value), true) else Visited(e, false))
    case MemberInit(c, bs) =>
      var c' :- VisitCtor(refl, c);
      var bs' :- VisitBindings(refl, bs);
      Ok(if c'.changed || bs'.changed then Visited(MemberInit(c'.value, bs'.value), true) else Visited(e, false))
  }

  function VisitAll(refl: Reflector, es: seq<Expr>): (r: Result<Visited<seq<Expr>>>)
    ensures r.Ok? ==> |r.value.value| == |es|
    ensures r.Ok? ==> (r.value.changed <==> exists i :: 0 <= i < |es| && ContainsMarker(es[i]))
    ensures r.Ok? ==> (r.value.changed <==> r.value.value != es)
    ensures r.Err? ==> r.error == UnsupportedTargetShape && exists i :: 0 <= i < |es| && ContainsMarker(es[i])
    decreases es
  {
    if es == [] then Ok(Visited([], false))
    else
      var head :- Visit(refl, es[0]);
      var tail :- VisitAll(refl, es[1..]);
      var r := Visited([head.value] + tail.value, head.changed || tail.changed);
      assert es == [es[0]] + es[1..];
      assert (exists i :: 0 <= i < |es| && ContainsMarker(es[i])) <==>
             ContainsMarker(es[0]) || exists i :: 0 <= i < |es[1..]| && ContainsMarker(es[1..][i]) by {
        if exists i :: 0 <= i < |es| && ContainsMarker(es[i]) {
          var i :| 0 <= i < |es| && ContainsMarker(es[i]);
          if i > 0 { assert ContainsMarker(es[1..][i - 1]); }
        }
      }
      Ok(r)
  }

  function VisitCtor(refl: Reflector, c: Ctor): (r: Result<Visited<Ctor>>)
    ensures r.Ok? ==> r.value.value.ty == c.ty && |r.value.value.args| == |c.args|
    ensures r.Ok? ==> (r.value.changed <==> exists i :: 0 <= i < |c.args| && ContainsMarker(c.args[i]))
    ensures r.Ok? ==> (r.value.changed <==> r.value.value != c)
    ensures r.Err? ==> r.error == UnsupportedTargetShape && exists i :: 0 <= i < |c.args| && ContainsMarker(c.args[i])
    decreases c
  {
    var a :- VisitAll(refl, c.args);
    Ok(if a.changed then Visited(Ctor(c.ty, a.value), true) else Visited(c, false))
  }

  function VisitBinding(refl: Reflector, b: Binding): (r: Result<Visited<Binding>>)
    ensures r.Ok? ==> r.value.value.member == b.member
    ensures r.Ok? ==> (r.value.changed <==> ContainsMarker(b.value))
    ensures r.Ok? ==> (r.value.changed <==> r.value.value != b)
    ensures r.Err? ==> r.error == UnsupportedTargetShape && ContainsMarker(b.value)
    decreases b
  {
    var v :- Visit(refl, b.value);
    Ok(if v.changed then Visited(Bind(b.member, v.value), true) else Visited(b, false))
  }

  function VisitBindings(refl: Reflector, bs: seq<Binding>): (r: Result<Visited<seq<Binding>>>)
    ensures r.Ok? ==> |r.value.value| == |bs|
    ensures r.Ok? ==> (r.value.changed <==> exists i :: 0 <= i < |bs| && ContainsMarker(bs[i].value))
    ensures r.Ok? ==> (r.value.changed <==> r.value.value != bs)
    ensures r.Err? ==> r.error == UnsupportedTargetShape && exists i :: 0 <= i < |bs| && ContainsMarker(bs[i].value)
    decreases bs
  {
    if bs == [] then Ok(Visited([], false))
    else
      var head :- VisitBinding(refl, bs[0]);
      var tail :- VisitBindings(refl, bs[1..]);
      var r := Visited([head.value] + tail.value, head.changed || tail.changed);
      assert bs == [bs[0]] + bs[1..];
      assert (exists i :: 0 <= i < |bs| && ContainsMarker(bs[i].value)) <==>
             ContainsMarker(bs[0].value) || exists i :: 0 <= i < |bs[1..]| && ContainsMarker(bs[1..][i].value) by {
        if exists i :: 0 <= i < |bs| && ContainsMarker(bs[i].value) {
          var i :| 0 <= i < |bs| && ContainsMarker(bs[i].value);
          if i > 0 { assert ContainsMarker(bs[1..][i - 1].value); }
        }
      }
      Ok(r)
  }

  /** Rewriting never changes a node's static type; in particular a marker
      of type TResult becomes a member-init of type TResult. */
  lemma {:induction false} VisitPreservesType(refl: Reflector, e: Expr)
    requires Visit(refl, e).Ok?
    ensures TypeOf(Visit(refl, e).value.value) == TypeOf(e)
  {
    match e
    case Marker(source, target) =>
      SubstitutePreservesType(refl, source, target);
    case Quote(op) =>
      VisitPreservesType(refl, op);
    case Lambda(_, body) =>
      VisitPreservesType(refl, body);
    case _ =>
  }

  /** When no marker sits inside another marker's operands, a successful
      visit leaves no marker anywhere. */
  lemma {:induction false} VisitEliminatesMarkers(refl: Reflector, e: Expr)
    requires NoNestedMarkers(e) && Visit(refl, e).Ok?
    ensures !ContainsMarker(Visit(refl, e).value.value)
    decreases e, 1
  {
    match e
    case Const(_, _) =>
    case Param(_) =>
    case Member(obj, _) =>
      VisitEliminatesMarkers(refl, obj);
    case Call(_, _, _) =>
      VisitCallEliminatesMarkers(refl, e);
    case Marker(source, target) =>
      SubstituteMarkerFree(refl, source, target);
    case Quote(op) =>
      VisitEliminatesMarkers(refl, op);
    case Lambda(_, body) =>
      VisitEliminatesMarkers(refl, body);
    case New(_) =>
      VisitNewEliminatesMarkers(refl, e);
    case MemberInit(_, _) =>
      VisitMemberInitEliminatesMarkers(refl, e);
  }

  lemma {:induction false} VisitCallEliminatesMarkers(refl: Reflector, e: Expr)
    requires e.Call? && NoNestedMarkers(e) && Visit(refl, e).Ok?
    ensures !ContainsMarker(Visit(refl, e).value.value)
    decreases e, 0
  {
    VisitAllEliminatesMarkers(refl, e.args);
  }

  lemma {:induction false} VisitNewEliminatesMarkers(refl: Reflector, e: Expr)
    requires e.New? && NoNestedMarkers(e) && Visit(refl, e).Ok?
    ensures !ContainsMarker(Visit(refl, e).value.value)
    decreases e, 0
  {
    VisitAllEliminatesMarkers(refl, e.ctor.args);
  }

  lemma {:induction false} VisitMemberInitEliminatesMarkers(refl: Reflector, e: Expr)
    requires e.MemberInit? && NoNestedMarkers(e) && Visit(refl, e).Ok?
    ensures !ContainsMarker(Visit(refl, e).value.value)
    decreases e, 0
  {
    VisitAllEliminatesMarkers(refl, e.ctor.args);
    VisitBindingsEliminatesMarkers(refl, e.bindings);
  }

  lemma {:induction false} VisitAllEliminatesMarkers(refl: Reflector, es: seq<Expr>)
    requires forall i :: 0 <= i < |es| ==> NoNestedMarkers(es[i])
    requires VisitAll(refl, es).Ok?
    ensures forall i :: 0 <= i < |es| ==> !ContainsMarker(VisitAll(refl, es).value.value[i])
    decreases es
  {
    if es != [] {
      VisitEliminatesMarkers(refl, es[0]);
      VisitAllEliminatesMarkers(refl, es[1..]);
      VisitAllCons(refl, es);
    }
  }

  /** A successful visit of a non-empty list visits its head, then its tail. */
  lemma VisitAllCons(refl: Reflector, es: seq<Expr>)
    requires es != [] && VisitAll(refl, es).Ok?
    ensures Visit(refl, es[0]).Ok? && VisitAll(refl, es[1..]).Ok?
    ensures VisitAll(refl, es).value.value == [Visit(refl, es[0]).value.value] + VisitAll(refl, es[1..]).value.value
  {
  }

  lemma {:induction false} VisitBindingEliminatesMarkers(refl: Reflector, b: Binding)
    requires NoNestedMarkers(b.value) && VisitBinding(refl, b).Ok?
    ensures !ContainsMarker(VisitBinding(refl, b).value.value.value)
    decreases b
  {
    VisitEliminatesMarkers(refl, b.value);
  }

  lemma {:induction false} VisitBindingsEliminatesMarkers(refl: Reflector, bs: seq<Binding>)
    requires forall i :: 0 <= i < |bs| ==> NoNestedMarkers(bs[i].value)
    requires VisitBindings(refl, bs).Ok?
    ensures forall i :: 0 <= i < |bs| ==> !ContainsMarker(VisitBindings(refl, bs).value.value[i].value)
    decreases bs
  {
    if bs != [] {
      VisitBindingEliminatesMarkers(refl, bs[0]);
      VisitBindingsEliminatesMarkers(refl, bs[1..]);
      VisitBindingsCons(refl, bs);
    }
  }

  lemma VisitBindingsCons(refl: Reflector, bs: seq<Binding>)
    requires bs != [] && VisitBindings(refl, bs).Ok?
    ensures VisitBinding(refl, bs[0]).Ok? && VisitBindings(refl, bs[1..]).Ok?
    ensures VisitBindings(refl, bs).value.value
            == [VisitBinding(refl, bs[0]).value.value] + VisitBindings(refl, bs[1..]).value.value
  {
  }

  /** A marker is replaced by its own substitute, which is not visited
      again; the visit fails exactly when building the substitute does. */
  lemma VisitMarkerIsSubstitute(refl: Reflector, source: Expr, target: Expr)
    ensures var sub := CreateSubstitute(refl, Marker(source, target));
            Visit(refl, Marker(source, target)) == if sub.Ok? then Ok(Visited(sub.value, true)) else Err(sub.error)
  {
  }

  /** Every marker the walk reaches (one not inside another marker's
      operands) has a target argument of an accepted shape. */
  predicate MarkersAccepted(e: Expr)
    decreases e
  {
    match e
    case Const(_, _) => true
    case Param(_) => true
    case Member(obj, _) => MarkersAccepted(obj)
    case Call(_, _, args) => forall i :: 0 <= i < |args| ==> MarkersAccepted(args[i])
    case Marker(_, target) => ExtractFromProjectArgument(target).Ok?
    case Quote(op) => MarkersAccepted(op)
    case Lambda(_, body) => MarkersAccepted(body)
    case New(c) => forall i :: 0 <= i < |c.args| ==> MarkersAccepted(c.args[i])
    case MemberInit(c, bs) =>
      && (forall i :: 0 <= i < |c.args| ==> MarkersAccepted(c.args[i]))
      && (forall i :: 0 <= i < |bs| ==> MarkersAccepted(bs[i].value))
  }

  /** The rewrite stated without the change flag, as a reference for the
      visitor: each reached marker becomes its substitute, every other node
      is rebuilt around its rewritten children. */
  function Rewrite(refl: Reflector, e: Expr): (r: Result<Expr>)
    ensures r.Err? ==> r.error == UnsupportedTargetShape
    decreases e
  {
    match e
    case Const(_, _) => Ok(e)
    case Param(_) => Ok(e)
    case Member(obj, p) =>
      var o :- Rewrite(refl, obj);
      Ok(Member(o, p))
    case Call(m, ty, args) =>
      if forall i :: 0 <= i < |args| ==> Rewrite(refl, args[i]).Ok? then
        Ok(Call(m, ty, seq(|args|, i requires 0 <= i < |args| => Rewrite(refl, args[i]).value)))
      else Err(UnsupportedTargetShape)
    case Marker(_, _) => CreateSubstitute(refl, e)
    case Quote(op) =>
      var o :- Rewrite(refl, op);
      Ok(Quote(o))
    case Lambda(ps, body) =>
      var b :- Rewrite(refl, body);
      Ok(Lambda(ps, b))
    case New(c) =>
      if forall i :: 0 <= i < |c.args| ==> Rewrite(refl, c.args[i]).Ok? then
        Ok(New(Ctor(c.ty, seq(|c.args|, i requires 0 <= i < |c.args| => Rewrite(refl, c.args[i]).value))))
      else Err(UnsupportedTargetShape)
    case MemberInit(c, bs) =>
      if && (forall i :: 0 <= i < |c.args| ==> Rewrite(refl, c.args[i]).Ok?)
         && (forall i :: 0 <= i < |bs| ==> Rewrite(refl, bs[i].value).Ok?) then
        Ok(MemberInit(Ctor(c.ty, seq(|c.args|, i requires 0 <= i < |c.args| => Rewrite(refl, c.args[i]).value)),
                      seq(|bs|, i requires 0 <= i < |bs| => Bind(bs[i].member, Rewrite(refl, bs[i].value).value))))
      else Err(UnsupportedTargetShape)
  }

  /** The rewrite succeeds exactly when every reached marker is accepted. */
  lemma {:induction false} RewriteAccepts(refl: Reflector, e: Expr)
    ensures Rewrite(refl, e).Ok? <==> MarkersAccepted(e)
    decreases e
  {
    match e
    case Const(_, _) =>
    case Param(_) =>
    case Member(obj, _) =>
      RewriteAccepts(refl, obj);
    case Call(_, _, args) =>
      forall i | 0 <= i < |args| { RewriteAccepts(refl, args[i]); }
    case Marker(_, _) =>
    case Quote(op) =>
      RewriteAccepts(refl, op);
    case Lambda(_, body) =>
      RewriteAccepts(refl, body);
    case New(c) =>
      forall i | 0 <= i < |c.args| { RewriteAccepts(refl, c.args[i]); }
    case MemberInit(c, bs) =>
      forall i | 0 <= i < |c.args| { RewriteAccepts(refl, c.args[i]); }
      forall i | 0 <= i < |bs| { RewriteAccepts(refl, bs[i].value); }
  }

  /** The visitor computes the reference rewrite: it succeeds exactly when
      the rewrite does, with the same tree. */
  lemma {:induction false} VisitIsRewrite(refl: Reflector, e: Expr)
    ensures Visit(refl, e).Ok? <==> Rewrite(refl, e).Ok?
    ensures Visit(refl, e).Ok? ==> Visit(refl, e).value.value == Rewrite(refl, e).value
    decreases e, 1
  {
    match e
    case Const(_, _) =>
    case Param(_) =>
    case Member(obj, _) =>
      VisitIsRewrite(refl, obj);
    case Call(_, _, _) =>
      VisitCallIsRewrite(refl, e);
    case Marker(source, target) =>
      VisitMarkerIsSubstitute(refl, source, target);
    case Quote(op) =>
      VisitIsRewrite(refl, op);
    case Lambda(_, body) =>
      VisitIsRewrite(refl, body);
    case New(_) =>
      VisitNewIsRewrite(refl, e);
    case MemberInit(_, _) =>
      VisitMemberInitIsRewrite(refl, e);
  }

  lemma {:induction false} VisitCallIsRewrite(refl: Reflector, e: Expr)
    requires e.Call?
    ensures Visit(refl, e).Ok? <==> Rewrite(refl, e).Ok?
    ensures Visit(refl, e).Ok? ==> Visit(refl, e).value.value == Rewrite(refl, e).value
    decreases e, 0
  {
    VisitAllIsRewrite(refl, e.args);
    if VisitAll(refl, e.args).Ok? {
      SameSeq(VisitAll(refl, e.args).value.value, Rewrite(refl, e).value.args);
    }
  }

  lemma {:induction false} VisitNewIsRewrite(refl: Reflector, e: Expr)
    requires e.New?
    ensures Visit(refl, e).Ok? <==> Rewrite(refl, e).Ok?
    ensures Visit(refl, e).Ok? ==> Visit(refl, e).value.value == Rewrite(refl, e).value
    decreases e, 0
  {
    VisitAllIsRewrite(refl, e.ctor.args);
    if VisitAll(refl, e.ctor.args).Ok? {
      SameSeq(VisitAll(refl, e.ctor.args).value.value, Rewrite(refl, e).value.ctor.args);
    }
  }

  lemma {:induction false} VisitMemberInitIsRewrite(refl: Reflector, e: Expr)
    requires e.MemberInit?
    ensures Visit(refl, e).Ok? <==> Rewrite(refl, e).Ok?
    ensures Visit(refl, e).Ok? ==> Visit(refl, e).value.value == Rewrite(refl, e).value
    decreases e, 0
  {
    VisitMemberInitUnfold(refl, e);
    VisitCtorUnfold(refl, e.ctor);
    RewriteMemberInitUnfold(refl, e);
    VisitAllIsRewrite(refl, e.ctor.args);
    VisitBindingsIsRewrite(refl, e.bindings);
    if Visit(refl, e).Ok? {
      SameSeq(VisitAll(refl, e.ctor.args).value.value, Rewrite(refl, e).value.ctor.args);
      SameBindings(VisitBindings(refl, e.bindings).value.value, Rewrite(refl, e).value.bindings);
    }
  }

  /** A rewritten member-init keeps its constructor type and member order
      and carries the rewritten arguments and bound values. */
  lemma RewriteMemberInitUnfold(refl: Reflector, e: Expr)
    requires e.MemberInit?
    ensures Rewrite(refl, e).Ok? <==>
              && (forall i :: 0 <= i < |e.ctor.args| ==> Rewrite(refl, e.ctor.args[i]).Ok?)
              && (forall i :: 0 <= i < |e.bindings| ==> Rewrite(refl, e.bindings[i].value).Ok?)
    ensures Rewrite(refl, e).Ok? ==>
              var r := Rewrite(refl, e).value;
              && r.MemberInit? && r.ctor.ty == e.ctor.ty
              && |r.ctor.args| == |e.ctor.args| && |r.bindings| == |e.bindings|
              && (forall i :: 0 <= i < |e.ctor.args| ==> r.ctor.args[i] == Rewrite(refl, e.ctor.args[i]).value)
              && (forall i :: 0 <= i < |e.bindings| ==>
                    r.bindings[i] == Bind(e.bindings[i].member, Rewrite(refl, e.bindings[i].value).value))
  {
  }

  /** A visited member-init is the rebuilt constructor call with the
      visited bindings, whether or not anything changed. */
  lemma VisitMemberInitUnfold(refl: Reflector, e: Expr)
    requires e.MemberInit?
    ensures Visit(refl, e).Ok? <==> VisitCtor(refl, e.ctor).Ok? && VisitBindings(refl, e.bindings).Ok?
    ensures Visit(refl, e).Ok? ==>
              Visit(refl, e).value.value
              == MemberInit(VisitCtor(refl, e.ctor).value.value, VisitBindings(refl, e.bindings).value.value)
  {
  }

  /** A visited constructor call keeps its type and carries the visited
      arguments, whether or not anything changed. */
  lemma VisitCtorUnfold(refl: Reflector, c: Ctor)
    ensures VisitCtor(refl, c).Ok? <==> VisitAll(refl, c.args).Ok?
    ensures VisitCtor(refl, c).Ok? ==> VisitCtor(refl, c).value.value == Ctor(c.ty, VisitAll(refl, c.args).value.value)
  {
  }

  lemma SameSeq(a: seq<Expr>, b: seq<Expr>)
    requires |a| == |b| && forall i :: 0 <= i < |a| ==> a[i] == b[i]
    ensures a == b
  {
  }

  lemma SameBindings(a: seq<Binding>, b: seq<Binding>)
    requires |a| == |b| && forall i :: 0 <= i < |a| ==> a[i] == b[i]
    ensures a == b
  {
  }

  lemma {:induction false} VisitAllIsRewrite(refl: Reflector, es: seq<Expr>)
    ensures VisitAll(refl, es).Ok? <==> forall i :: 0 <= i < |es| ==> Rewrite(refl, es[i]).Ok?
    ensures VisitAll(refl, es).Ok? ==>
              forall i :: 0 <= i < |es| ==> VisitAll(refl, es).value.value[i] == Rewrite(refl, es[i]).value
    decreases es
  {
    if es != [] {
      VisitIsRewrite(refl, es[0]);
      VisitAllIsRewrite(refl, es[1..]);
      if VisitAll(refl, es).Ok? {
        VisitAllOkStep(refl, es);
      } else {
        VisitAllErrStep(refl, es);
      }
    }
  }

  /** The inductive step of VisitAllIsRewrite when the whole list is visited. */
  lemma VisitAllOkStep(refl: Reflector, es: seq<Expr>)
    requires es != [] && VisitAll(refl, es).Ok?
    requires Visit(refl, es[0]).Ok? ==>
               Rewrite(refl, es[0]).Ok? && Visit(refl, es[0]).value.value == Rewrite(refl, es[0]).value
    requires VisitAll(refl, es[1..]).Ok? ==>
               forall i :: 0 <= i < |es[1..]| ==>
                 Rewrite(refl, es[1..][i]).Ok? && VisitAll(refl, es[1..]).value.value[i] == Rewrite(refl, es[1..][i]).value
    ensures forall i :: 0 <= i < |es| ==>
              Rewrite(refl, es[i]).Ok? && VisitAll(refl, es).value.value[i] == Rewrite(refl, es[i]).value
  {
    VisitAllCons(refl, es);
    forall i | 1 <= i < |es|
      ensures Rewrite(refl, es[i]).Ok? && VisitAll(refl, es).value.value[i] == Rewrite(refl, es[i]).value
    {
      assert es[1..][i - 1] == es[i];
    }
  }

  /** The inductive step of VisitAllIsRewrite when the visit fails. */
  lemma VisitAllErrStep(refl: Reflector, es: seq<Expr>)
    requires es != [] && !VisitAll(refl, es).Ok?
    requires Visit(refl, es[0]).Ok? <==> Rewrite(refl, es[0]).Ok?
    requires VisitAll(refl, es[1..]).Ok? <==> forall i :: 0 <= i < |es[1..]| ==> Rewrite(refl, es[1..][i]).Ok?
    ensures exists i :: 0 <= i < |es| && !Rewrite(refl, es[i]).Ok?
  {
    if Visit(refl, es[0]).Ok? {
      var j :| 0 <= j < |es[1..]| && !Rewrite(refl, es[1..][j]).Ok?;
      assert es[1..][j] == es[j + 1];
    }
  }

  lemma {:induction false} VisitBindingIsRewrite(refl: Reflector, b: Binding)
    ensures VisitBinding(refl, b).Ok? <==> Rewrite(refl, b.value).Ok?
    ensures VisitBinding(refl, b).Ok? ==> VisitBinding(refl, b).value.value == Bind(b.member, Rewrite(refl, b.value).value)
    decreases b
  {
    VisitIsRewrite(refl, b.value);
  }

  lemma {:induction false} VisitBindingsIsRewrite(refl: Reflector, bs: seq<Binding>)
    ensures VisitBindings(refl, bs).Ok? <==> forall i :: 0 <= i < |bs| ==> Rewrite(refl, bs[i].value).Ok?
    ensures VisitBindings(refl, bs).Ok? ==>
              forall i :: 0 <= i < |bs| ==>
                VisitBindings(refl, bs).value.value[i] == Bind(bs[i].member, Rewrite(refl, bs[i].value).value)
    decreases bs
  {
    if bs != [] {
      VisitBindingIsRewrite(refl, bs[0]);
      VisitBindingsIsRewrite(refl, bs[1..]);
      if VisitBindings(refl, bs).Ok? {
        VisitBindingsOkStep(refl, bs);
      } else {
        VisitBindingsErrStep(refl, bs);
      }
    }
  }

  /** The inductive step of VisitBindingsIsRewrite when every binding is visited. */
  lemma VisitBindingsOkStep(refl: Reflector, bs: seq<Binding>)
    requires bs != [] && VisitBindings(refl, bs).Ok?
    requires VisitBinding(refl, bs[0]).Ok? ==>
               Rewrite(refl, bs[0].value).Ok?
               && VisitBinding(refl, bs[0]).value.value == Bind(bs[0].member, Rewrite(refl, bs[0].value).value)
    requires VisitBindings(refl, bs[1..]).Ok? ==>
               forall i :: 0 <= i < |bs[1..]| ==>
                 && Rewrite(refl, bs[1..][i].value).Ok?
                 && VisitBindings(refl, bs[1..]).value.value[i] == Bind(bs[1..][i].member, Rewrite(refl, bs[1..][i].value).value)
    ensures forall i :: 0 <= i < |bs| ==>
              && Rewrite(refl, bs[i].value).Ok?
              && VisitBindings(refl, bs).value.value[i] == Bind(bs[i].member, Rewrite(refl, bs[i].value).value)
  {
    VisitBindingsCons(refl, bs);
    var out := VisitBindings(refl, bs).value.value;
    var tail := VisitBindings(refl, bs[1..]).value.value;
    assert out == [VisitBinding(refl, bs[0]).value.value] + tail;
    forall i | 1 <= i < |bs|
      ensures && Rewrite(refl, bs[i].value).Ok?
              && out[i] == Bind(bs[i].member, Rewrite(refl, bs[i].value).value)
    {
      assert bs[1..][i - 1] == bs[i];
      assert out[i] == tail[i - 1];
    }
  }

  /** The inductive step of VisitBindingsIsRewrite when the visit fails. */
  lemma VisitBindingsErrStep(refl: Reflector, bs: seq<Binding>)
    requires bs != [] && !VisitBindings(refl, bs).Ok?
    requires VisitBinding(refl, bs[0]).Ok? <==> Rewrite(refl, bs[0].value).Ok?
    requires VisitBindings(refl, bs[1..]).Ok? <==> forall i :: 0 <= i < |bs[1..]| ==> Rewrite(refl, bs[1..][i].value).Ok?
    ensures exists i :: 0 <= i < |bs| && !Rewrite(refl, bs[i].value).Ok?
  {
    if VisitBinding(refl, bs[0]).Ok? {
      var j :| 0 <= j < |bs[1..]| && !Rewrite(refl, bs[1..][j].value).Ok?;
      assert bs[1..][j] == bs[j + 1];
    }
  }

  /** The lambda form reads the same shapes as the marker form (quoted or
      not) and differs only in the error it raises. */
  lemma ExtractionPathsAgree(ps: seq<Var>, body: Expr)
    ensures ExtractFromProjectArgument(Quote(Lambda(ps, body))) == ExtractFromProjectArgument(Lambda(ps, body))
    ensures ExtractFromLambda(body).Ok? <==> ExtractFromProjectArgument(Lambda(ps, body)).Ok?
    ensures ExtractFromLambda(body).Ok? ==> ExtractFromLambda(body) == ExtractFromProjectArgument(Lambda(ps, body))
  {
  }

  /** The lambda form `x => new T { ... }` is rewritten exactly as the
      marker `x.AutoProjectInto(() => new T { ... })` on its first parameter. */
  lemma LambdaFormIsMarkerOnParameter(refl: Reflector, ps: seq<Var>, body: Expr)
    ensures |ps| == 0 ==> CreateSubstitute(refl, Lambda(ps, body)) == Err(IndexOutOfRange)
    ensures |ps| > 0 && !IsConstruction(body) ==> CreateSubstitute(refl, Lambda(ps, body)) == Err(UnhandledExpression)
    ensures |ps| > 0 && IsConstruction(body) ==>
              CreateSubstitute(refl, Lambda(ps, body)) == CreateSubstitute(refl, Marker(Param(ps[0]), Quote(Lambda(ps, body))))
  {
  }

  /** An ordinary call, whatever its name, is never replaced: it is rebuilt
      around its visited arguments. */
  lemma CallIsTraversed(refl: Reflector, name: string, ty: Ty, args: seq<Expr>)
    requires Visit(refl, Call(name, ty, args)).Ok?
    ensures var v := Visit(refl, Call(name, ty, args)).value.value;
            v.Call? && v.name == name && v.ty == ty && v.args == VisitAll(refl, args).value.value
  {
  }
}
