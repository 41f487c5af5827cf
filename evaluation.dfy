/** A small interpreter for the modelled nodes, standing in for the query
    provider when stating what an activated query computes. Objects are
    values (no reference identity); constructor bodies are given as the
    property each constructor argument is stored into. */
module Evaluation {
  import opened Failures
  import opened Reflection
  import opened Expressions
  import opened PropertyMatcher
  import opened BindingCombiner
  import opened Activator
  import opened QueryableExtensions

  /** Values of the lambda parameters in scope. */
  type Env = map<string, Value>

  /** For each type, the property its constructor stores each argument into
      (`Target(int foo) { Foo = foo; }` is ["Foo"]). */
  type CtorEffects = map<Ty, seq<string>>

  /** default(T): 0 for int, null for reference types such as string. */
  function Default(t: Ty): Value {
    if t == Named("int") then Int(0) else Null
  }

  /** Reading a property of an object; a property nobody assigned holds its
      default. */
  function Field(o: Value, p: PropDesc): Value
    requires o.Obj?
  {
    if p.name in o.fields then o.fields[p.name] else Default(p.ty)
  }

  function StoreArgs(fields: map<string, Value>, names: seq<string>, vals: seq<Value>): map<string, Value>
    decreases |vals|
  {
    if names == [] || vals == [] then fields
    else StoreArgs(fields[names[0] := vals[0]], names[1..], vals[1..])
  }

  /** The fields of a freshly constructed object. */
  function Construct(ce: CtorEffects, ty: Ty, vals: seq<Value>): map<string, Value> {
    StoreArgs(map[], if ty in ce then ce[ty] else [], vals)
  }

  function Eval(ce: CtorEffects, env: Env, e: Expr): Result<Value>
    decreases e
  {
    match e
    case Const(v, _) => Ok(v)
    case Param(x) => if x.name in env then Ok(env[x.name]) else Err(NotEvaluable)
    case Member(obj, p) =>
      var o :- Eval(ce, env, obj);
      if o.Obj? then Ok(Field(o, p)) else Err(NullReference)
    case Marker(source, target) =>
      var s :- Eval(ce, env, source);
      AutoProjectInto(s, target)
    case New(c) =>
      var vals :- EvalAll(ce, env, c.args);
      Ok(Obj(c.ty, Construct(ce, c.ty, vals)))
    case MemberInit(c, bs) =>
      var vals :- EvalAll(ce, env, c.args);
      var fields :- ApplyBindings(ce, env, Construct(ce, c.ty, vals), bs);
      Ok(Obj(c.ty, fields))
    case _ => Err(NotEvaluable)
  }

  function EvalAll(ce: CtorEffects, env: Env, es: seq<Expr>): Result<seq<Value>>
    decreases es
  {
    if es == [] then Ok([])
    else
      var v :- Eval(ce, env, es[0]);
      var rest :- EvalAll(ce, env, es[1..]);
      Ok([v] + rest)
  }

  /** Member assignments run in order after the constructor. */
  function ApplyBindings(ce: CtorEffects, env: Env, fields: map<string, Value>, bs: seq<Binding>): Result<map<string, Value>>
    decreases bs
  {
    if bs == [] then Ok(fields)
    else
      var v :- EvalBinding(ce, env, bs[0]);
      ApplyBindings(ce, env, fields[bs[0].member.name := v], bs[1..])
  }

  function EvalBinding(ce: CtorEffects, env: Env, b: Binding): Result<Value>
    decreases b
  {
    Eval(ce, env, b.value)
  }

  /** Rows of an in-memory source, and Select over them. */
  function EvalQuery(ce: CtorEffects, e: Expr): Result<seq<Value>>
    decreases e
  {
    match e
    case Const(Rows(items), _) => Ok(items)
    case Call(name, _, args) =>
      if name == "Select" && |args| == 2 && args[1].Quote? && args[1].operand.Lambda?
         && |args[1].operand.params| == 1 then
        var rows :- EvalQuery(ce, args[0]);
        SelectRows(ce, args[1].operand.params[0], args[1].operand.body, rows)
      else Err(NotEvaluable)
    case _ => Err(NotEvaluable)
  }

  function SelectRows(ce: CtorEffects, x: Var, body: Expr, rows: seq<Value>): Result<seq<Value>>
    decreases |rows|
  {
    if rows == [] then Ok([])
    else
      var v :- Eval(ce, map[x.name := rows[0]], body);
      var rest :- SelectRows(ce, x, body, rows[1..]);
      Ok([v] + rest)
  }

  /** Whatever its operands, evaluating a marker fails, with NotActivated
      as soon as its source can be evaluated. */
  lemma MarkerEvaluationFails(ce: CtorEffects, env: Env, source: Expr, target: Expr)
    ensures Eval(ce, env, Marker(source, target)).Err?
    ensures Eval(ce, env, source).Ok? ==> Eval(ce, env, Marker(source, target)) == Err(NotActivated)
  {
  }

  /** A Select whose lambda body is a marker fails on every non-empty
      source, whatever the source and target types. */
  lemma UnactivatedSelectFails(ce: CtorEffects, src: Expr, x: Var, target: Expr)
    requires EvalQuery(ce, src).Ok? && |EvalQuery(ce, src).value| > 0
    ensures EvalQuery(ce, Call("Select", Queryable(DelegateResult(TypeOf(target))),
                               [src, Quote(Lambda([x], Marker(Param(x), target)))])) == Err(NotActivated)
  {
    var rows := EvalQuery(ce, src).value;
    assert Eval(ce, map[x.name := rows[0]], Marker(Param(x), target)) == Err(NotActivated);
  }

  /** A name no binding assigns keeps what the constructor left. */
  lemma {:induction false} ApplyBindingsKeepsUnbound(ce: CtorEffects, env: Env, fields: map<string, Value>, bs: seq<Binding>, n: string)
    requires ApplyBindings(ce, env, fields, bs).Ok?
    requires n !in BoundNames(bs)
    ensures var out := ApplyBindings(ce, env, fields, bs).value;
            (n in out <==> n in fields) && (n in fields ==> out[n] == fields[n])
    decreases bs
  {
    if bs != [] {
      var v := EvalBinding(ce, env, bs[0]).value;
      var fields' := fields[bs[0].member.name := v];
      assert n != BoundNames(bs)[0];
      assert n !in BoundNames(bs[1..]);
      ApplyBindingsKeepsUnbound(ce, env, fields', bs[1..], n);
    }
  }

  /** The last binding of a name decides its value. */
  lemma {:induction false} ApplyBindingsLastWins(ce: CtorEffects, env: Env, fields: map<string, Value>, bs: seq<Binding>, i: nat)
    requires ApplyBindings(ce, env, fields, bs).Ok?
    requires i < |bs| && forall j :: i < j < |bs| ==> bs[j].member.name != bs[i].member.name
    ensures var out := ApplyBindings(ce, env, fields, bs).value;
            bs[i].member.name in out && Eval(ce, env, bs[i].value) == Ok(out[bs[i].member.name])
    decreases bs
  {
    var v := EvalBinding(ce, env, bs[0]).value;
    var fields' := fields[bs[0].member.name := v];
    if i == 0 {
      assert bs[0].member.name !in BoundNames(bs[1..]);
      ApplyBindingsKeepsUnbound(ce, env, fields', bs[1..], bs[0].member.name);
    } else {
      assert bs[1..][i - 1] == bs[i];
      forall j | i - 1 < j < |bs[1..]| ensures bs[1..][j].member.name != bs[1..][i - 1].member.name {
        assert bs[1..][j] == bs[j + 1];
      }
      ApplyBindingsLastWins(ce, env, fields', bs[1..], i - 1);
    }
  }

  /** The fields a substitute's bindings are applied to: what the original
      constructor call leaves. */
  function Constructed(ce: CtorEffects, env: Env, init: TargetInit): Result<map<string, Value>> {
    var vals :- EvalAll(ce, env, init.ctor.args);
    Ok(Construct(ce, init.ctor.ty, vals))
  }

  /** Evaluating a substitute: construct, then run explicit and synthesised
      bindings in that order. */
  lemma EvalSubstitute(refl: Reflector, ce: CtorEffects, env: Env, source: Expr, target: Expr)
    requires ExtractFromProjectArgument(target).Ok?
    requires Eval(ce, env, CreateSubstitute(refl, Marker(source, target)).value).Ok?
    ensures var init := ExtractFromProjectArgument(target).value;
            var bs := init.bindings + SynthesizeBindings(source, Determine(refl, TypeOf(source), init));
            var o := Eval(ce, env, CreateSubstitute(refl, Marker(source, target)).value).value;
            && Constructed(ce, env, init).Ok?
            && ApplyBindings(ce, env, Constructed(ce, env, init).value, bs).Ok?
            && o == Obj(init.ctor.ty, ApplyBindings(ce, env, Constructed(ce, env, init).value, bs).value)
  {
    SubstituteUnfold(refl, source, target);
    var init := ExtractFromProjectArgument(target).value;
    EvalMemberInit(ce, env, init, init.bindings + SynthesizeBindings(source, Determine(refl, TypeOf(source), init)));
  }

  /** A member-init expression evaluates to the constructed fields with its
      bindings applied. */
  lemma EvalMemberInit(ce: CtorEffects, env: Env, init: TargetInit, bs: seq<Binding>)
    requires Eval(ce, env, MemberInit(init.ctor, bs)).Ok?
    ensures && Constructed(ce, env, init).Ok?
            && ApplyBindings(ce, env, Constructed(ce, env, init).value, bs).Ok?
            && Eval(ce, env, MemberInit(init.ctor, bs)).value
               == Obj(init.ctor.ty, ApplyBindings(ce, env, Constructed(ce, env, init).value, bs).value)
  {
  }

  /** An explicit binding in the target lambda always wins. */
  lemma ExplicitBindingWins(refl: Reflector, ce: CtorEffects, env: Env, source: Expr, target: Expr, i: nat)
    requires ExtractFromProjectArgument(target).Ok?
    requires var init := ExtractFromProjectArgument(target).value;
             i < |init.bindings| && forall j :: i < j < |init.bindings| ==> init.bindings[j].member.name != init.bindings[i].member.name
    requires Eval(ce, env, CreateSubstitute(refl, Marker(source, target)).value).Ok?
    ensures var init := ExtractFromProjectArgument(target).value;
            var o := Eval(ce, env, CreateSubstitute(refl, Marker(source, target)).value).value;
            o.Obj? && o.ty == init.ctor.ty && init.bindings[i].member.name in o.fields
            && Eval(ce, env, init.bindings[i].value) == Ok(o.fields[init.bindings[i].member.name])
  {
    var init := ExtractFromProjectArgument(target).value;
    var extra := SynthesizeBindings(source, Determine(refl, TypeOf(source), init));
    var bs := init.bindings + extra;
    EvalSubstitute(refl, ce, env, source, target);
    SynthesizedDisjointFromExplicit(refl, source, TypeOf(source), init);
    ExplicitStaysLast(init.bindings, extra, i);
    ApplyBindingsLastWins(ce, env, Constructed(ce, env, init).value, bs, i);
  }

  /** With distinct target names, the k-th synthesised binding is the last
      one of the combined list to assign its member. */
  lemma SynthesizedIsLast(explicit: seq<Binding>, source: Expr, ms: seq<PropMatch>, k: nat)
    requires k < |ms|
    requires forall i, j :: 0 <= i < j < |ms| ==> ms[i].target.name != ms[j].target.name
    ensures var bs := explicit + SynthesizeBindings(source, ms);
            var i := |explicit| + k;
            && i < |bs| && bs[i] == Bind(ms[k].target, Member(source, ms[k].source))
            && forall j :: i < j < |bs| ==> bs[j].member.name != bs[i].member.name
  {
    var extra := SynthesizeBindings(source, ms);
    var bs := explicit + extra;
    var i := |explicit| + k;
    assert bs[i] == extra[k];
    forall j | i < j < |bs| ensures bs[j].member.name != bs[i].member.name {
      assert bs[j] == extra[j - |explicit|];
    }
  }

  /** A property paired by the matcher receives the source object's value of
      the paired property: `target.P = source.P`, on the very source the
      marker was given. */
  lemma MatchedPropertyIsCopied(refl: Reflector, ce: CtorEffects, env: Env, source: Expr, target: Expr, k: nat)
    requires ExtractFromProjectArgument(target).Ok?
    requires UniqueNames(Properties(refl, TypeOf(source)))
    requires k < |Determine(refl, TypeOf(source), ExtractFromProjectArgument(target).value)|
    requires Eval(ce, env, CreateSubstitute(refl, Marker(source, target)).value).Ok?
    ensures var init := ExtractFromProjectArgument(target).value;
            var m := Determine(refl, TypeOf(source), init)[k];
            var o := Eval(ce, env, CreateSubstitute(refl, Marker(source, target)).value).value;
            && Eval(ce, env, source).Ok? && Eval(ce, env, source).value.Obj?
            && o.Obj? && m.target.name in o.fields
            && o.fields[m.target.name] == Field(Eval(ce, env, source).value, m.source)
  {
    var init := ExtractFromProjectArgument(target).value;
    var ms := Determine(refl, TypeOf(source), init);
    var bs := init.bindings + SynthesizeBindings(source, ms);
    var o := Eval(ce, env, CreateSubstitute(refl, Marker(source, target)).value).value;
    EvalSubstitute(refl, ce, env, source, target);
    DetermineTargetsDistinct(refl, TypeOf(source), init);
    SynthesizedIsLast(init.bindings, source, ms, k);
    ApplyBindingsLastWins(ce, env, Constructed(ce, env, init).value, bs, |init.bindings| + k);
    assert Eval(ce, env, Member(source, ms[k].source)) == Ok(o.fields[ms[k].target.name]);
    EvalMember(ce, env, source, ms[k].source);
  }

  lemma EvalMember(ce: CtorEffects, env: Env, obj: Expr, p: PropDesc)
    requires Eval(ce, env, Member(obj, p)).Ok?
    ensures Eval(ce, env, obj).Ok? && Eval(ce, env, obj).value.Obj?
    ensures Eval(ce, env, Member(obj, p)).value == Field(Eval(ce, env, obj).value, p)
  {
  }

  /** A property neither bound explicitly nor projected keeps what the
      constructor gave it (its default when the constructor leaves it). */
  lemma OtherPropertiesFromConstructor(refl: Reflector, ce: CtorEffects, env: Env, source: Expr, target: Expr, n: string)
    requires ExtractFromProjectArgument(target).Ok?
    requires var init := ExtractFromProjectArgument(target).value;
             n !in BoundNames(init.bindings)
             && forall m :: m in Determine(refl, TypeOf(source), init) ==> m.target.name != n
    requires Eval(ce, env, CreateSubstitute(refl, Marker(source, target)).value).Ok?
    ensures var init := ExtractFromProjectArgument(target).value;
            var o := Eval(ce, env, CreateSubstitute(refl, Marker(source, target)).value).value;
            && Constructed(ce, env, init).Ok? && o.Obj?
            && (n in o.fields <==> n in Constructed(ce, env, init).value)
            && (n in o.fields ==> o.fields[n] == Constructed(ce, env, init).value[n])
  {
    var init := ExtractFromProjectArgument(target).value;
    var bs := init.bindings + SynthesizeBindings(source, Determine(refl, TypeOf(source), init));
    EvalSubstitute(refl, ce, env, source, target);
    UnboundByCombined(init.bindings, source, Determine(refl, TypeOf(source), init), n);
    ApplyBindingsKeepsUnbound(ce, env, Constructed(ce, env, init).value, bs, n);
  }

  /** A name neither bound explicitly nor the target of a match is bound by
      no binding of the combined list. */
  lemma UnboundByCombined(explicit: seq<Binding>, source: Expr, ms: seq<PropMatch>, n: string)
    requires n !in BoundNames(explicit)
    requires forall m :: m in ms ==> m.target.name != n
    ensures n !in BoundNames(explicit + SynthesizeBindings(source, ms))
  {
    var extra := SynthesizeBindings(source, ms);
    UnmatchedNotSynthesized(source, ms, n);
    BoundNamesAppend(explicit, extra);
  }

  lemma UnmatchedNotSynthesized(source: Expr, ms: seq<PropMatch>, n: string)
    requires forall m :: m in ms ==> m.target.name != n
    ensures n !in BoundNames(SynthesizeBindings(source, ms))
  {
    var names := BoundNames(SynthesizeBindings(source, ms));
    forall k | 0 <= k < |names| ensures names[k] != n {
      assert ms[k] in ms;
    }
  }

  lemma BoundNamesAppend(a: seq<Binding>, b: seq<Binding>)
    ensures BoundNames(a + b) == BoundNames(a) + BoundNames(b)
  {
  }

  /** An explicit binding that is the last of its name among the explicit
      ones stays the last once synthesised bindings of other names follow. */
  lemma ExplicitStaysLast(explicit: seq<Binding>, extra: seq<Binding>, i: nat)
    requires i < |explicit| && forall j :: i < j < |explicit| ==> explicit[j].member.name != explicit[i].member.name
    requires forall b :: b in extra ==> b.member.name !in BoundNames(explicit)
    ensures forall j :: i < j < |explicit + extra| ==> (explicit + extra)[j].member.name != (explicit + extra)[i].member.name
  {
    var bs := explicit + extra;
    forall j | i < j < |bs| ensures bs[j].member.name != bs[i].member.name {
      if j >= |explicit| {
        assert bs[j] == extra[j - |explicit|];
        assert bs[i].member.name == BoundNames(explicit)[i];
      }
    }
  }
}
