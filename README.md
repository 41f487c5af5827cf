# Linq.AutoProject, modelled in Dafny

Linq.AutoProject lets a LINQ query say "copy every property of the source
that the target also has" without listing the properties:

    query.Select(x => x.AutoProjectInto(() => new Target { Bar = 10 }))
         .ActivateAutoProjects()

`AutoProjectInto` is a marker method. Running it directly always fails.
`ActivateAutoProjects` walks the query's expression tree once. It replaces
each marker call with a member-init node. That node keeps the target
lambda's constructor call and its explicit bindings. It then adds one
binding `Target.P = source.P` for every public-getter property `P` of the
source type that has a public-setter property of the same name and the very
same type in the target and that the lambda does not bind already. When the
tree holds no marker, the same query comes back. The lambda form
`query.AutoProject(x => new Target { ... })` runs the same rewrite at once,
with the lambda's parameter as the source.

The model is pure, like the C# code.

- `failures.dfy`: the failure tags (`NotActivated`, `UnsupportedTargetShape`,
  `UnhandledExpression`, ...) with `Result` and `Option`.
- `reflection.dfy`: types, property descriptors (name, type, public getter,
  public setter) and a reflector table standing in for .NET reflection.
- `expressions.dfy`: the expression tree. Only the node kinds the rewrite
  inspects are modelled: constant, parameter, member access, method call,
  the marker call, quote, lambda, `new` and member-init.
- `matcher.dfy`: which source properties are projected into which target
  properties.
- `combiner.dfy`: building the bindings and the replacement node.
- `activator.dfy`: target-argument extraction, parsing, the substitute, and
  the visitor.
- `queryable.dfy`: `AutoProjectInto`, `ActivateAutoProjects` and the lambda
  form `AutoProject`.
- `evaluation.dfy`: a small evaluator over the same nodes, standing in for
  the query provider. It lets the model state what an activated query
  computes.
- `scenarios.dfy`: the repository's unit tests, stated as lemmas over
  concrete queries. Each one states the activated tree and the rows it
  evaluates to.

The visitor's reference comparison (`newExpr == expr`) is modelled by a
`changed` flag on every visited node. `Activator.Visit` proves that the flag
is set exactly when the node differs from its input.

`VisitMethodCall` (`Linq.AutoProject/AutoProjectActivator.cs:19-21`) returns
a marker's substitute without visiting the substitute again. So a marker
nested in another marker's operands is not resolved in the same pass:

- A marker in the outer marker's source is copied into every synthesised
  binding `source.P`. It survives activation when at least one property is
  projected. When none is, the substitute no longer mentions the source, and
  the inner marker is dropped.
- A marker in the outer target lambda's constructor arguments or bindings is
  kept as it is.

`Activator.VisitMarkerIsSubstitute` states this step, and the model does the
same. `Activator.VisitEliminatesMarkers` promises a marker-free result only
for trees with no marker nested in a marker's operands. Markers in separate
`Select` lambdas, as in every test, are all resolved.

`Activator.Rewrite` restates the traversal without the `changed` flag: every
marker the walk reaches becomes its substitute, and every other node is
rebuilt around its rewritten children. `Activator.VisitIsRewrite` proves that
the visitor computes exactly this tree.

## Model

| member | source | states |
|---|---|---|
| Activator.Visit | Linq.AutoProject/AutoProjectActivator.cs:12-23 | The visit succeeds or fails with UnsupportedTargetShape. On success, the changed flag holds exactly when the input held a marker and exactly when the result differs from the input. |
| Activator.VisitAll | Linq.AutoProject/AutoProjectActivator.cs:12-23 | A visit of an argument list keeps its length, and is changed exactly when some argument holds a marker. |
| Activator.VisitCtor | Linq.AutoProject/AutoProjectActivator.cs:12-23 | A visited constructor call keeps its type and arity, and is changed exactly when an argument holds a marker. |
| Activator.VisitBinding | Linq.AutoProject/AutoProjectActivator.cs:12-23 | A visited binding keeps its member, and is changed exactly when its value holds a marker. |
| Activator.VisitBindings | Linq.AutoProject/AutoProjectActivator.cs:12-23 | A visited binding list keeps its length, and is changed exactly when some bound value holds a marker. |
| Activator.VisitMarkerIsSubstitute | Linq.AutoProject/AutoProjectActivator.cs:19-21 | A marker's visit is its substitute, flagged as changed and not visited again. It fails with the substitute's own error. |
| Activator.Rewrite | Linq.AutoProject/AutoProjectActivator.cs:12-23 | The reference rewrite fails only with UnsupportedTargetShape. |
| Activator.RewriteAccepts | Linq.AutoProject/AutoProjectActivator.cs:12-23 | The rewrite succeeds exactly when every marker the walk reaches has a target argument of an accepted shape. |
| Activator.VisitIsRewrite | Linq.AutoProject/AutoProjectActivator.cs:12-23 | The visitor succeeds exactly when the reference rewrite does, and then yields the same tree. |
| Activator.CallIsTraversed | Linq.AutoProject/AutoProjectActivator.cs:14-16 | A call that is not the marker is never replaced: it keeps its name and type and is rebuilt around its visited arguments. |
| Activator.VisitPreservesType | Linq.AutoProject/AutoProjectActivator.cs:12-23 | Rewriting never changes a node's static type. A marker of type TResult becomes a member-init of type TResult. |
| Activator.VisitEliminatesMarkers | Linq.AutoProject/AutoProjectActivator.cs:12-23 | When no marker is nested in a marker's operands, a successful visit leaves no marker anywhere. |
| Activator.InitOf | Linq.AutoProject/AutoProjectActivator.cs:89-92 | The member-init keeps the body's own constructor call. A bare `new` gets no bindings, and a member-init body keeps its own bindings. The result has the body's type and no marker when the body has none. |
| Activator.ExtractFromProjectArgument | Linq.AutoProject/AutoProjectActivator.cs:99-128 | The target argument is accepted exactly when it is a quoted or bare lambda whose body is `new T(...)` or `new T(...) { ... }`. Anything else fails with UnsupportedTargetShape. The result is the lambda body's own constructor call and bindings. |
| Activator.ExtractFromLambda | Linq.AutoProject/AutoProjectActivator.cs:85-97 | A lambda body is accepted exactly when it is a construction. Anything else fails with UnhandledExpression (ArgumentException). The result is the body's own constructor call and bindings. |
| Activator.ExtractionPathsAgree | Linq.AutoProject/AutoProjectActivator.cs:85-128 | Quoted and bare lambdas are read alike. The lambda path and the marker path accept the same bodies and yield the same member-init. |
| Activator.Parse | Linq.AutoProject/AutoProjectActivator.cs:65-83 | For a marker: the source is argument 0 with its own type, and the target comes from argument 1; it fails exactly when the target argument is rejected. For a lambda: the source is the first parameter. Any other node fails with UnhandledExpression. |
| Activator.CreateSubstitute | Linq.AutoProject/AutoProjectActivator.cs:45-63 | The replacement is always a member-init. For a marker it succeeds exactly when the target argument is accepted, and fails with UnsupportedTargetShape otherwise. |
| Activator.SubstituteUnfold | Linq.AutoProject/AutoProjectActivator.cs:45-63 | The replacement is the original constructor call with the explicit bindings followed by one synthesised binding per match. |
| Activator.SubstituteOfMarker | Linq.AutoProject/AutoProjectActivator.cs:45-63 | The constructor call and the explicit bindings come first, unchanged. At most as many bindings are added as there are readable source properties. Each added binding sets a settable, explicitly unbound target property to the same-named, same-typed readable source property, read off the marker's source expression. |
| Activator.SubstituteAddsEachTargetOnce | Linq.AutoProject/AutoProjectActivator.cs:143-179 | When the source type's property names are distinct, no two added bindings assign members of the same name. |
| Activator.SubstituteProjectsEveryMatch | Linq.AutoProject/AutoProjectActivator.cs:130-179 | Conversely, take any readable source property with a settable, unbound, same-named, same-typed target property. Some synthesised binding, after the explicit ones, sets a settable property of the target type with that name and type to this source property. |
| Activator.SubstitutePreservesType | Linq.AutoProject/AutoProjectActivator.cs:45-63 | The replacement has the marker's type. |
| Activator.SubstituteMarkerFree | Linq.AutoProject/AutoProjectActivator.cs:45-63 | A marker whose operands hold no marker is replaced by a marker-free node. |
| Activator.LambdaFormIsMarkerOnParameter | Linq.AutoProject/AutoProjectActivator.cs:65-83 | A lambda without parameters fails with IndexOutOfRange, and one whose body is not a construction fails with UnhandledExpression. Otherwise the lambda is rewritten exactly as the marker `x.AutoProjectInto(...)` on its first parameter. |
| PropertyMatcher.UnboundSettable | Linq.AutoProject/AutoProjectActivator.cs:132-141 | The result holds exactly the target properties that have a public setter and whose name is not bound explicitly, kept in declaration order as a subsequence of the input. |
| PropertyMatcher.Readable | Linq.AutoProject/AutoProjectActivator.cs:143-149 | The result holds exactly the source properties that have a public getter, kept in declaration order as a subsequence of the input. |
| PropertyMatcher.FindMatching | Linq.AutoProject/AutoProjectActivator.cs:166-169 | A found candidate has the same name and the same type, and it is the first such candidate in order: every candidate before it fails to match. When nothing is found, no candidate has both. |
| PropertyMatcher.MatchAll | Linq.AutoProject/AutoProjectActivator.cs:150-160 | Every pair is a same-name, same-type pair. A source property appears in a pair exactly when some candidate matches it. Unmatched properties are dropped without error. |
| PropertyMatcher.Determine | Linq.AutoProject/AutoProjectActivator.cs:130-164 | Every pair joins a public-getter source property and a public-setter target property of the same name and type. There are at most as many pairs as source properties. |
| PropertyMatcher.DetermineSound | Linq.AutoProject/AutoProjectActivator.cs:130-164 | Every pair joins a public-getter source property and a public-setter, explicitly unbound target property of identical name and type. |
| PropertyMatcher.DetermineComplete | Linq.AutoProject/AutoProjectActivator.cs:130-164 | A readable source property is paired exactly when the target has a settable, unbound property of the same name and type. |
| PropertyMatcher.DetermineIncludes | Linq.AutoProject/AutoProjectActivator.cs:130-164 | Given such a target property, the source property occurs at some position of the match list. |
| PropertyMatcher.DetermineBounded | Linq.AutoProject/AutoProjectActivator.cs:143-160 | There are at most as many pairs as readable source properties, and at most as many of those as source properties. |
| PropertyMatcher.DetermineTargetsDistinct | Linq.AutoProject/AutoProjectActivator.cs:143-164 | With distinct source property names, no target property is assigned twice by the synthesised bindings. |
| BindingCombiner.SynthesizeBindings | Linq.AutoProject/AutoProjectActivator.cs:171-179 | One binding per match, in match order: the match's target property is set to a member access of the match's source property on the source expression. |
| BindingCombiner.SynthesizedDisjointFromExplicit | Linq.AutoProject/AutoProjectActivator.cs:130-141 | No synthesised binding assigns a member that the target lambda binds explicitly. |
| BindingCombiner.Combine | Linq.AutoProject/AutoProjectActivator.cs:58-60 | The replacement is a member-init over the target's constructor call. The explicit bindings come first, unchanged, followed by the synthesised ones. |
| Expressions.BoundNames | Linq.AutoProject/AutoProjectActivator.cs:132 | One name per binding, in order: the name of the member it assigns. |
| QueryableExtensions.AutoProjectInto | Linq.AutoProject/IQueryableExtensions.cs:27-35 | Running the marker fails with NotActivated, whatever the source and the target. |
| QueryableExtensions.ActivateAutoProjects | Linq.AutoProject/IQueryableExtensions.cs:47-57 | The very same query comes back exactly when the tree holds no marker. Activation succeeds exactly when every marker the walk reaches has an accepted target argument; a failure is UnsupportedTargetShape. On success the tree is the reference rewrite, with every reached marker replaced by its substitute. The element type and the tree's type are kept. Without nested markers, no marker is left. |
| QueryableExtensions.ActivationKeepsElementType | Linq.AutoProject/IQueryableExtensions.cs:47-57 | A well-typed IQueryable of T stays a well-typed IQueryable of T. |
| QueryableExtensions.ActivationIdempotent | Linq.AutoProject/IQueryableExtensions.cs:47-57 | Activating an activated query without nested markers returns it unchanged. |
| QueryableExtensions.AutoProject | Linq.AutoProject/AutoProjectActivator.cs:75-78 | The lambda form succeeds exactly when the body is a construction, and fails with UnhandledExpression otherwise. The result is a well-typed query of the body's type, free of markers when its inputs are. |
| QueryableExtensions.SelectorFacts | Linq.AutoProject/AutoProjectActivator.cs:65-97 | The lambda form's rewritten selector fails exactly for non-construction bodies, has the body's type, and adds no marker. |
| Evaluation.MarkerEvaluationFails | Linq.AutoProject/IQueryableExtensions.cs:27-35 | Evaluating a marker always fails, and fails with NotActivated whenever its source evaluates. |
| Evaluation.UnactivatedSelectFails | Linq.AutoProject/IQueryableExtensions.cs:27-35 | A Select whose lambda is a marker fails with NotActivated on every non-empty source. |
| Evaluation.EvalSubstitute | Linq.AutoProject/AutoProjectActivator.cs:55-62 | The replacement evaluates to the constructed object with the explicit bindings and then the synthesised ones applied. |
| Evaluation.ExplicitBindingWins | Linq.AutoProject/AutoProjectActivator.cs:130-141 | A property bound explicitly holds the value of its (last) explicit binding, never a projected value. |
| Evaluation.MatchedPropertyIsCopied | Linq.AutoProject/AutoProjectActivator.cs:171-179 | A matched target property holds the value that the matched source property has on the marker's source object. |
| Evaluation.OtherPropertiesFromConstructor | Linq.AutoProject/AutoProjectActivator.cs:55-62 | A property neither bound nor matched keeps what the constructor call left in it. |
| Scenarios.UnactivatedQueryFails | Linq.AutoProject.Test/AutoProjectIntoBasicTest.cs:18-31 | The query `Select(x => new object()).Select(x => x.AutoProjectInto(() => new object { }))`, run without activation, fails with NotActivated. Activated, it becomes a Select of `new object { }` and yields one empty object. |
| Scenarios.UntouchedProjected | Linq.AutoProject.Test/AutoProjectIntoBasicTest.cs:56-71 | With no explicit binding, activation projects Foo and Bar, and the row is Foo = 7, Bar = 9. |
| Scenarios.ExplicitBarIsKept | Linq.AutoProject.Test/AutoProjectIntoBasicTest.cs:73-91 | With `Bar = 10` explicit, only Foo is projected, and the row is Foo = 7, Bar = 10. |
| Scenarios.ChainedMarkersResolve | Linq.AutoProject.Test/AutoProjectIntoBasicTest.cs:93-119 | One activation resolves three chained markers, and the row is Foo = 7, Bar = 12. |
| Scenarios.OnlyMatchingTypesProjected | Linq.AutoProject.Test/AutoProjectAdvancedTest.cs:22-35 | An int Foo is not projected into a string Foo, which stays null. |
| Scenarios.OnlyGetterToSetterProjected | Linq.AutoProject.Test/AutoProjectAdvancedTest.cs:52-69 | Only the property with a public getter in the source and a public setter in the target is projected (5). The other two stay 0. |
| Scenarios.ConstructorCallPreserved | Linq.AutoProject.Test/AutoProjectAdvancedTest.cs:89-121 | The constructor argument survives (Foo = 5) and Bar, Baz are projected (6, 7). With `Bar = 10`, the row is 5, 10, 7. |
| Scenarios.ComplexPropertyProjected | Linq.AutoProject.Test/AutoProjectAdvancedTest.cs:138-155 | A class-typed property is projected as a whole: the Token object with Foo = 5 arrives. |
| Scenarios.LambdaFormIsActivatedMarkerForm | Linq.AutoProject.Test/AutoProjectTest.cs:14-32 | Over a marker-free query, `q.AutoProject(x => body)` builds the very query that activating `q.Select(x => x.AutoProjectInto(() => body))` builds. |
| Scenarios.AutoProjectSelects | Linq.AutoProject/AutoProjectActivator.cs:75-78 | The lambda form appends a Select of the substitute that the marker form `() => body` receives. |
| Scenarios.CombinedFormsResolve | Linq.AutoProject.Test/AutoProjectTest.cs:181-199 | Lambda-form and marker-form steps mix in one pipeline. One activation resolves the remaining markers, and the row is Foo = 7, Bar = 9. |
| Scenarios.ActivateProjectSelect | Linq.AutoProject/IQueryableExtensions.cs:47-57 | Activating `src.Select(y => y.AutoProjectInto(tgt))` over a marker-free source yields `src.Select(y => substitute)`. |

## Left out

- Query execution: the provider, `CreateQuery`, `ToArray` and `Single` are not modelled. A query is its element type and its expression. `Evaluation` is a small interpreter over in-memory rows that is good enough to state what the tests observe.
- .NET reflection: `GetProperties`, `GetGetMethod(false)`, `GetSetMethod(false)` and the generic method definition lookup are replaced by a reflector table of property descriptors and a dedicated marker node. A call is a marker exactly when it is that node.
- The generic `ExpressionVisitor` base: only the node kinds listed above are modelled. Every other .NET node kind is left out.
- Exception messages: errors are tags. NotSupportedException is `UnsupportedTargetShape`, ArgumentException is `UnhandledExpression`, and NotImplementedException is `NotActivated`.
- `Enumerable.Union` (`Linq.AutoProject/AutoProjectActivator.cs:58`) compares bindings by reference and drops duplicates. Every synthesised binding is a fresh object, never reference-equal to an explicit binding, so nothing is dropped and the model concatenates the two lists.
- Linq.AutoProject/ObjectExtensions.cs, a wrapper over the C# `as` cast: pattern matching on the node kinds replaces it.
- Object identity: evaluated objects are values, so aliasing between projected class-typed properties is not observable in the model.
- Constructor bodies: evaluation describes a constructor by the properties its arguments are stored into (`CtorEffects`). Arbitrary constructor code is not modelled.
- Call, Quote and Lambda nodes do not evaluate, except Select over in-memory rows. So `AutoProject_PreservesComplexBindings` (`Linq.AutoProject.Test/AutoProjectAdvancedTest.cs:162-175`), whose bound value runs `Max()` over a sub-query, is not stated as a scenario. That the explicit binding is kept unchanged is covered generally by `Activator.SubstituteOfMarker`.
- The `AutoProject` extension method itself is not part of this model's sources. `QueryableExtensions.AutoProject` reconstructs it from the lambda branch of `ParseMethodCallOrLambda` and from its tests.
- Explicit type arguments on the marker: a marker's type is read off its target lambda's body, so `x.AutoProjectInto<Base>(() => new Derived())`, whose TResult is a proper supertype of the constructed type, cannot be expressed. `Activator.SubstitutePreservesType` and `Activator.VisitPreservesType` hold partly because of this: the substitute's type is the constructed type.
- Member bindings other than plain assignment, such as list initialisers (`Items = { 1 }`) and nested member initialisers (`Inner = { X = 1 }`), are not modelled: a `Binding` is always an assignment. In the code their members also count as bound names (`Linq.AutoProject/AutoProjectActivator.cs:132`).
- Indexer properties are not modelled: a property descriptor has no parameters. A matched indexer would make `Expression.MakeMemberAccess` (`Linq.AutoProject/AutoProjectActivator.cs:175`) throw, and the model has no such failure.
- Activator.VisitEliminatesMarkers: stated only for trees with no marker nested inside a marker's operands, because the code does not re-visit a substitute (see above).
- PropertyMatcher.DetermineTargetsDistinct, Activator.SubstituteAddsEachTargetOnce and Evaluation.MatchedPropertyIsCopied: these assume that no two public instance properties of the source type share a name (`Reflection.UniqueNames`). This is an assumption about the types used, which holds for every type in the tests. C# does not guarantee it: `GetProperties` also returns inherited properties, and a property re-declared with `new` repeats a name.
