/** Which source properties can be projected into which target properties:
    target properties with a public setter that the target lambda does not
    bind already, paired by exact name and exact declared type with source
    properties that have a public getter. */
module PropertyMatcher {
  import opened Failures
  import opened Reflection
  import opened Expressions

  datatype PropMatch = PropMatch(source: PropDesc, target: PropDesc)

  /** Same name and the very same declared type: no conversion, no subtyping. */
  predicate SameNameAndType(a: PropDesc, b: PropDesc) {
    a.name == b.name && a.ty == b.ty
  }

  /** `r` is `ps` with some elements left out, the rest in their order. */
  predicate Subsequence(r: seq<PropDesc>, ps: seq<PropDesc>)
    decreases |ps|
  {
    || r == []
    || (ps != [] && ((r[0] == ps[0] && Subsequence(r[1..], ps[1..])) || Subsequence(r, ps[1..])))
  }

  /** The target properties with a public setter whose name is not bound
      explicitly, in declaration order. */
  function UnboundSettable(ps: seq<PropDesc>, bound: seq<string>): (r: seq<PropDesc>)
    ensures forall p :: p in r <==> p in ps && p.publicSet && p.name !in bound
    ensures |r| <= |ps|
    ensures Subsequence(r, ps)
  {
    if ps == [] then []
    else
      var rest := UnboundSettable(ps[1..], bound);
      if ps[0].publicSet && ps[0].name !in bound then
        assert ([ps[0]] + rest)[1..] == rest;
        [ps[0]] + rest
      else rest
  }

  /** The source properties with a public getter, in declaration order. */
  function Readable(ps: seq<PropDesc>): (r: seq<PropDesc>)
    ensures forall p :: p in r <==> p in ps && p.publicGet
    ensures |r| <= |ps|
    ensures Subsequence(r, ps)
  {
    if ps == [] then []
    else
      var rest := Readable(ps[1..]);
      if ps[0].publicGet then
        assert ([ps[0]] + rest)[1..] == rest;
        [ps[0]] + rest
      else rest
  }

  /** The first candidate with the same name and type as `s` (FirstOrDefault). */
  function FindMatching(s: PropDesc, candidates: seq<PropDesc>): (r: Option<PropDesc>)
    ensures r.Some? ==> r.value in candidates && SameNameAndType(r.value, s)
    ensures r.Some? ==> exists i :: 0 <= i < |candidates| && candidates[i] == r.value
                                    && forall j :: 0 <= j < i ==> !SameNameAndType(candidates[j], s)
    ensures r.None? ==> forall c :: c in candidates ==> !SameNameAndType(c, s)
  {
    if candidates == [] then None
    else if SameNameAndType(candidates[0], s) then Some(candidates[0])
    else
      var rest := FindMatching(s, candidates[1..]);
      assert rest.Some? ==> exists i :: 0 <= i < |candidates| && candidates[i] == rest.value
                                        && forall j :: 0 <= j < i ==> !SameNameAndType(candidates[j], s) by {
        if rest.Some? {
          var i :| 0 <= i < |candidates[1..]| && candidates[1..][i] == rest.value
                   && forall j :: 0 <= j < i ==> !SameNameAndType(candidates[1..][j], s);
          forall j | 1 <= j < i + 1 ensures !SameNameAndType(candidates[j], s) {
            assert candidates[j] == candidates[1..][j - 1];
          }
        }
      }
      rest
  }

  /** One match per source property that has a matching candidate; the
      others are dropped without error. */
  function MatchAll(sources: seq<PropDesc>, candidates: seq<PropDesc>): (r: seq<PropMatch>)
    ensures forall m :: m in r ==> m.source in sources && m.target in candidates && SameNameAndType(m.target, m.source)
    ensures forall s :: s in sources ==>
              ((exists m :: m in r && m.source == s) <==> (exists c :: c in candidates && SameNameAndType(c, s)))
    ensures |r| <= |sources|
  {
    if sources == [] then []
    else
      var rest := MatchAll(sources[1..], candidates);
      var r := match FindMatching(sources[0], candidates)
               case Some(t) => [PropMatch(sources[0], t)] + rest
               case None => rest;
      assert forall s :: s in sources ==>
               ((exists m :: m in r && m.source == s) <==> (exists c :: c in candidates && SameNameAndType(c, s))) by {
        forall s | s in sources
          ensures (exists m :: m in r && m.source == s) <==> (exists c :: c in candidates && SameNameAndType(c, s))
        {
          if s != sources[0] {
            assert s in sources[1..];
          }
        }
      }
      r
  }

  /** The auto-projectable pairs for a source type and a target member-init. */
  function Determine(refl: Reflector, sourceTy: Ty, init: TargetInit): (r: seq<PropMatch>)
    ensures forall m :: m in r ==> m.source.publicGet && m.target.publicSet && SameNameAndType(m.target, m.source)
    ensures |r| <= |Properties(refl, sourceTy)|
  {
    var bound := BoundNames(init.bindings);
    var targets := UnboundSettable(Properties(refl, init.ctor.ty), bound);
    MatchAll(Readable(Properties(refl, sourceTy)), targets)
  }

  /** Every pair is sound: a readable source property and a settable,
      explicitly unbound target property of identical name and type. */
  lemma DetermineSound(refl: Reflector, sourceTy: Ty, init: TargetInit, m: PropMatch)
    requires m in Determine(refl, sourceTy, init)
    ensures m.source in Properties(refl, sourceTy) && m.source.publicGet
    ensures m.target in Properties(refl, init.ctor.ty) && m.target.publicSet
    ensures m.target.name !in BoundNames(init.bindings)
    ensures m.target.name == m.source.name && m.target.ty == m.source.ty
  {
  }

  /** And complete: a readable source property is paired exactly when the
      target has a settable, unbound property of the same name and type. */
  lemma DetermineComplete(refl: Reflector, sourceTy: Ty, init: TargetInit, s: PropDesc)
    requires s in Properties(refl, sourceTy) && s.publicGet
    ensures (exists m :: m in Determine(refl, sourceTy, init) && m.source == s) <==>
            (exists t :: t in Properties(refl, init.ctor.ty) && t.publicSet
                         && t.name !in BoundNames(init.bindings) && SameNameAndType(t, s))
  {
    var targets := UnboundSettable(Properties(refl, init.ctor.ty), BoundNames(init.bindings));
    var sources := Readable(Properties(refl, sourceTy));
    assert Determine(refl, sourceTy, init) == MatchAll(sources, targets);
    assert s in sources;
    if exists t :: t in Properties(refl, init.ctor.ty) && t.publicSet
                   && t.name !in BoundNames(init.bindings) && SameNameAndType(t, s) {
      var t :| t in Properties(refl, init.ctor.ty) && t.publicSet
               && t.name !in BoundNames(init.bindings) && SameNameAndType(t, s);
      assert t in targets;
      assert exists c :: c in targets && SameNameAndType(c, s);
    }
  }

  /** The completeness direction with the witness given: the readable
      source property `s` appears in some pair. */
  lemma DetermineIncludes(refl: Reflector, sourceTy: Ty, init: TargetInit, s: PropDesc, t: PropDesc)
    requires s in Properties(refl, sourceTy) && s.publicGet
    requires t in Properties(refl, init.ctor.ty) && t.publicSet
    requires t.name !in BoundNames(init.bindings) && SameNameAndType(t, s)
    ensures exists i :: 0 <= i < |Determine(refl, sourceTy, init)| && Determine(refl, sourceTy, init)[i].source == s
  {
    DetermineComplete(refl, sourceTy, init, s);
  }

  /** At most one binding is synthesised per readable source property. */
  lemma DetermineBounded(refl: Reflector, sourceTy: Ty, init: TargetInit)
    ensures |Determine(refl, sourceTy, init)| <= |Readable(Properties(refl, sourceTy))| <= |Properties(refl, sourceTy)|
  {
  }

  /** Filtering keeps property names distinct. */
  lemma {:induction false} ReadableUnique(ps: seq<PropDesc>)
    requires UniqueNames(ps)
    ensures UniqueNames(Readable(ps))
  {
    if ps != [] {
      ReadableUnique(ps[1..]);
      var rest := Readable(ps[1..]);
      forall p | p in rest ensures p.name != ps[0].name {
        var k :| 0 <= k < |ps[1..]| && ps[1..][k] == p;
        assert ps[k + 1] == p;
      }
    }
  }

  /** With distinct source names, no target name is matched twice. */
  lemma {:induction false} MatchAllTargetsDistinct(sources: seq<PropDesc>, candidates: seq<PropDesc>)
    requires UniqueNames(sources)
    ensures forall i, j :: 0 <= i < j < |MatchAll(sources, candidates)| ==>
              MatchAll(sources, candidates)[i].target.name != MatchAll(sources, candidates)[j].target.name
  {
    if sources != [] {
      MatchAllTargetsDistinct(sources[1..], candidates);
      var rest := MatchAll(sources[1..], candidates);
      forall m | m in rest ensures m.target.name != sources[0].name {
        var k :| 0 <= k < |sources[1..]| && sources[1..][k] == m.source;
        assert sources[k + 1] == m.source;
      }
      match FindMatching(sources[0], candidates)
      case Some(t) => ConsTargetsDistinct(PropMatch(sources[0], t), rest);
      case None =>
    }
  }

  lemma ConsTargetsDistinct(m: PropMatch, rest: seq<PropMatch>)
    requires forall i, j :: 0 <= i < j < |rest| ==> rest[i].target.name != rest[j].target.name
    requires forall x :: x in rest ==> x.target.name != m.target.name
    ensures var r := [m] + rest;
            forall i, j :: 0 <= i < j < |r| ==> r[i].target.name != r[j].target.name
  {
    var r := [m] + rest;
    forall i, j | 0 <= i < j < |r| ensures r[i].target.name != r[j].target.name {
      assert r[j] == rest[j - 1];
      if i > 0 { assert r[i] == rest[i - 1]; }
    }
  }

  /** Hence the synthesised bindings of one marker assign distinct members
      when the source type's property names are distinct. */
  lemma DetermineTargetsDistinct(refl: Reflector, sourceTy: Ty, init: TargetInit)
    requires UniqueNames(Properties(refl, sourceTy))
    ensures forall i, j :: 0 <= i < j < |Determine(refl, sourceTy, init)| ==>
              Determine(refl, sourceTy, init)[i].target.name != Determine(refl, sourceTy, init)[j].target.name
  {
    ReadableUnique(Properties(refl, sourceTy));
    MatchAllTargetsDistinct(Readable(Properties(refl, sourceTy)),
                            UnboundSettable(Properties(refl, init.ctor.ty), BoundNames(init.bindings)));
  }
}
