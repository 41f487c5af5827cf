/** Turning matches into member assignments and joining them with the
    explicit bindings around the original constructor call. */
module BindingCombiner {
  import opened Reflection
  import opened Expressions
  import opened PropertyMatcher

  /** `target = sourceExpr.source` for every match, in match order. */
  function SynthesizeBindings(sourceExpr: Expr, matches: seq<PropMatch>): (r: seq<Binding>)
    ensures |r| == |matches|
    ensures forall i :: 0 <= i < |matches| ==>
              r[i].member == matches[i].target && r[i].value == Member(sourceExpr, matches[i].source)
  {
    if matches == [] then []
    else [Bind(matches[0].target, Member(sourceExpr, matches[0].source))] + SynthesizeBindings(sourceExpr, matches[1..])
  }

  /** The member-init node that replaces a marker: the original constructor
      call, the explicit bindings first, then the synthesised ones. Union of
      the two lists is their concatenation because every synthesised binding
      is a fresh object, never reference-equal to an explicit one. */
  function Combine(init: TargetInit, extra: seq<Binding>): (r: Expr)
    ensures r.MemberInit? && r.ctor == init.ctor
    ensures |r.bindings| == |init.bindings| + |extra|
    ensures r.bindings[..|init.bindings|] == init.bindings && r.bindings[|init.bindings|..] == extra
  {
    MemberInit(init.ctor, init.bindings + extra)
  }

  /** No synthesised binding assigns a member the target lambda assigns:
      an explicit binding always wins. */
  lemma {:induction false} SynthesizedDisjointFromExplicit(refl: Reflector, sourceExpr: Expr, sourceTy: Ty, init: TargetInit)
    ensures forall b :: b in SynthesizeBindings(sourceExpr, Determine(refl, sourceTy, init)) ==>
              b.member.name !in BoundNames(init.bindings)
  {
    var ms := Determine(refl, sourceTy, init);
    var extra := SynthesizeBindings(sourceExpr, ms);
    forall b | b in extra ensures b.member.name !in BoundNames(init.bindings) {
      var i :| 0 <= i < |extra| && extra[i] == b;
      DetermineSound(refl, sourceTy, init, ms[i]);
    }
  }
}
