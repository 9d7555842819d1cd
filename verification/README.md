# A model of the Kryos compiler's checks and tools, with proofs

This project models the parts of Kryos whose correctness is argued rather than obvious, and proves
what they promise for every input, every run or every reachable state.

- **Capability checking.** `Capability`, `Language`, `HotParams`, `Inference` and `Enforcement`
  model the checker over a command language with builtin calls, named calls, method calls, handler
  dispatch, calls of own parameters, sequences, conditionals, loops and `deny!`. `RunSafety` adds a
  step machine whose call stack carries the open `deny!` blocks and proves whole-run safety.
  `Acceptance` says exactly which programs are accepted, `SecondOrder` says the same of inference
  and acceptance over the text of the program alone, `Modes` relates the three modes.
  `ClosureReturns` and `Containers` prove closure summaries and container snapshots sound,
  `ReturnExactness` and `ContainerExactness` that they claim nothing that cannot be.
  `ShadowedHandler` shows that whole-run safety needs its one condition on handlers.
- **Parsers and printers.** `HeaderGrammar` says what every routine of the C header parser
  computes, `CHeaderParser` is the parser with its cursor and lists. `HeaderLayout` lays tokens out
  with any white space and comments; over it `TypeSpellings`, `PrototypeRoundTrip`,
  `StructRoundTrip`, `EnumRoundTrip` and `DefineRoundTrip` treat the parts of a header and
  `DeclarationRoundTrip` whole headers: what is read, and exactly when that is what C means.
  `NumericConstants` and `ConstantRoundTrip` say which constants survive, `HeaderErrors` which
  declarations are dropped or rejected. `CfgStrip` evaluates nested `@cfg` predicates kept as text,
  `CapsToml` writes and reads `bindings.caps.toml`; both use `Text`.
- **Stateful algorithms.** `Fannkuch` is the permutation generator and flip loop for any n ≥ 1,
  `WasmHeap` the growing bump allocator of the WebAssembly runner and the store of values its host
  calls refine, `IntToString` the integer printer with its ring of eight buffers.
- **A rewrite.** `ValueIf` turns a trailing `if` statement into the value of its block.

Code that the repository writes as loops over mutable state is a method here, proved against a
function; the theorems are lemmas about the functions. Code that is expressions and recursion there
is functions here. `Wrappers` holds the option type, `Numerals` numbers and their text, `Sets` one
fact about set sizes.

## Where the code does less than it says

Each of these is shown by a lemma: by an input, or by the exact condition under which the code does
what it says.

- `CfgStrip.NegatedUnknownHolds`: an unrecognised predicate strips its declaration, but under a
  `not` it keeps it: under n `not`s it holds iff n is odd. It never keeps code that way unless it
  stands under an odd number of them (`CfgStrip.UnknownFailsClosed`).
- `Modes.DenyBreaksTheHierarchy`: the modes are called a hierarchy, but a helper with a `deny!` can
  pass Inferred and fail Permissive; `Modes.InferredImpliesPermissiveExactly` says which.
- `ShadowedHandler.Shadowing.Escapes`: a handler's parameters are not among the walk's locals, so a
  call of a parameter named like a free function or builtin escapes a `deny!` in the handler,
  whatever is denied; `RunSafety.Checked.WholeRunSafety` holds for every other program.
- `ClosureReturns.HiddenCaptureEscapes`, `ClosureReturns.SecondCaptureEscapes`: a returned lambda
  that calls a captured parameter beside its own, or two captured ones, is charged for less than it
  uses; `ClosureReturns.TameExactly` says which lambdas are covered. The source picks the parameter
  from a hash set; the model picks the first called, and the lemmas show an escape whenever two
  differ.
- `Containers.FieldOfElementExactly`, `Containers.NamedContainerExactly`,
  `Containers.RedeclaredArrayExactly`: three bodies whose snapshot can claim less than the value
  holds, each with the condition under which it does not. `Containers.FieldBelowIndexExactly` and
  `Containers.OverwriteNamedExactly` are the general forms of the first two.
- `ReturnExactness.LambdaIsTightExactly`: a returned lambda whose own parameter has the name of a
  parameter around it is deferred to that one, so callers are charged for an argument it never
  calls.
- `TypeSpellings.ResolvesExactly`: `long unsigned` is taken for the name of a type, and the signed
  `intptr_t` and `ptrdiff_t` for `size_t`.
- `PrototypeRoundTrip.PrototypeIsReadExactly`: an array parameter loses its brackets where C makes
  it a pointer; a plain `void` at the end of a longer list is dropped.
- `EnumRoundTrip.ValueIsReadExactly`: an octal enumerator is read as decimal.
- `DeclarationRoundTrip.DeclarationsRoundTripExactly`: with these, and with constants inside an
  `extern` block, which are skipped, the condition under which a header is read as C means it.
- `HeaderErrors.TagPrototypeIsDropped`: `struct point *make(void);` adds nothing.
- `HeaderErrors.AnonymousTagIsRejected`: one `enum { A };` and the whole header is rejected.
- `CapsToml.RoundTripExactly`, `CapsToml.SpreadSymbolBringsAnOverride`,
  `CapsToml.OpenHeadBringsCapability`: a symbol with line feeds can bring overrides in. The C
  parser produces identifiers only.
- `ConstantRoundTrip.MaskIsReadBackEmpty`: what is stripped from the end of a constant includes `f`
  and `F`, so `0xFF` is read as `0x`. `NumericConstants.StaysExactly` says which constants stay as
  they are, `NumericConstants.NumberSurvivesExactly` which numbers survive.
- `WasmHeap.NewKeepsExactly`: the heap starts at 32 KiB whatever data the module has there.
- `WasmHeap.NextBlockIsApartExactly`: the pointer is rounded as a 32-bit number, so blocks stay
  apart exactly while pointer + size + 7 < 2^31.

Narrowing is conservative, as the source announces: denying `net:http` takes `net:tcp` along when
only `net` is held (`Capabilities.ScopeDenyTakesTheFamily`). `Capabilities.NarrowsExactlyIff` says
exactly when it takes more than is denied.

## Model

| member | source | states |
|---|---|---|
| `Capabilities.TreeOrder` | compiler/crates/kryos-capabilities/src/model.rs:109-127 | what is satisfied from above is also overlapped from above: the tree facts every other result rests on |
| `Capabilities.SubsetTransports` | compiler/crates/kryos-capabilities/src/model.rs:202-218 | whatever a set satisfies, every set it is a subset of satisfies |
| `Capabilities.SubsetTransitive` | compiler/crates/kryos-capabilities/src/model.rs:216-218 | attenuation is transitive |
| `Capabilities.ExcessEmptyIffSubset` | compiler/crates/kryos-capabilities/src/model.rs:216-218 | an excess is reported exactly when the subset test fails (the excess itself is computed at lines 270-280) |
| `Capabilities.NarrowedGrantsAvoidDenied` | compiler/crates/kryos-capabilities/src/model.rs:236-245 | what a set narrowed by a denial still grants was granted before and overlaps nothing denied |
| `Capabilities.NarrowsExactlyIff` | compiler/crates/kryos-capabilities/src/model.rs:236-245 | narrowing keeps every grant that overlaps nothing denied iff, first, wherever one scope of a held family (or under `all`) is denied and neither the family nor `all` is, the sibling scope is denied too or held on its own, and second, if `all` is held and something is denied, every other capability that overlaps nothing denied is held on its own |
| `Capabilities.FamilyDenyIsExact` | compiler/crates/kryos-capabilities/src/model.rs:236-245 | a set without `all` that is denied whole families only loses exactly the grants that overlap them |
| `Capabilities.ScopeDenyTakesTheFamily` | compiler/crates/kryos-capabilities/src/model.rs:236-245 | denying one scope of a family takes a sibling scope too when it was held only through the family: a concrete input on which narrowing takes too much |
| `HotParams.ForwardToHotIsHot` | compiler/crates/kryos-capabilities/src/checker.rs:1725-1774 | a parameter forwarded bare into a hot position is hot |
| `HotParams.HotIsLeast` | compiler/crates/kryos-capabilities/src/checker.rs:1670-1777 | the chains of forwards that end in a direct call lie inside every set closed under the propagation |
| `HotParams.SeedFunction` | compiler/crates/kryos-capabilities/src/checker.rs:1680-1700 | the seed loop marks every directly called fn-typed parameter and only hot ones |
| `HotParams.SiteReachesHot` | compiler/crates/kryos-capabilities/src/checker.rs:1739-1768 | the argument scan finds a hot target iff one exists, the receiver offset applied to methods and not to handlers |
| `HotParams.SweepParam` | compiler/crates/kryos-capabilities/src/checker.rs:1735-1769 | a parameter that forwards into a hot position is marked; if nothing is added, nothing it forwards to is hot |
| `HotParams.SweepFunction` | compiler/crates/kryos-capabilities/src/checker.rs:1732-1770 | a sweep only adds hot positions, and one that changes nothing has closed the function |
| `HotParams.ComputeHotParams` | compiler/crates/kryos-capabilities/src/checker.rs:1670-1777 | the propagation terminates with exactly the parameters from which some chain of bare forwards ends in a direct call |
| `Inference.HotExtraIsLinear` | compiler/crates/kryos-capabilities/src/checker.rs:3932-4007 | the charge for arguments in hot positions is a fixed part plus the sets of the functions handed over |
| `Inference.CollectIsLinear` | compiler/crates/kryos-capabilities/src/checker.rs:4867-5293 | what the inference walk collects from a body is a fixed part plus the sets of everything the body refers to |
| `Inference.DemandsAreLeast` | compiler/crates/kryos-capabilities/src/checker.rs:4789-4856 | capabilities reachable through unannotated functions lie in every map closed under the inference step |
| `Inference.SoundAndClosedMapIsInferred` | compiler/crates/kryos-capabilities/src/checker.rs:4789-4856 | a closed map holding only demanded facts is the least fixed point |
| `Inference.CollectedIsDemanded` | compiler/crates/kryos-capabilities/src/checker.rs:4828-4840 | what a step collects over sound sets is reachable |
| `Inference.InferredMapIsClosed` | compiler/crates/kryos-capabilities/src/checker.rs:4789-4856 | the result is closed under the inference step and holds every declared set |
| `Inference.CeilingIsExact` | compiler/crates/kryos-capabilities/src/checker.rs:4659-4710 | the body under an annotation never widens its declared set |
| `Inference.DeclaredMapIsSound` | compiler/crates/kryos-capabilities/src/checker.rs:4659-4710 | the seed map holds declared sets only |
| `Inference.MergingStaysSound` | compiler/crates/kryos-capabilities/src/checker.rs:4836-4845 | merging a function's collected set keeps the map sound |
| `Inference.ComputeInferredCapabilities` | compiler/crates/kryos-capabilities/src/checker.rs:4789-4856 | the loop terminates and returns exactly the reachable capabilities, whatever the declaration order |
| `SecondOrder.InferenceIsReachability` | compiler/crates/kryos-capabilities/src/checker.rs:4789-4856 | a capability is inferred for a function iff a path of calls, and of functions handed over to be called, through unannotated functions leads to one whose body needs it or to a declaration of it; `all` is needed only where a name stands for nothing or what is handed over cannot be traced |
| `Inference.GrowingShrinksMissing` | compiler/crates/kryos-capabilities/src/checker.rs:4840-4845 | a merge that changes the size of a set removes a fact from a finite supply: why the loop ends |
| `Inference.FirstOrderInferenceIsReachability` | compiler/crates/kryos-capabilities/src/checker.rs:4789-4856 | in a first-order program a capability is inferred for f iff a call path through unannotated functions reaches a body needing it or an annotated function declaring it |
| `Enforcement.AcceptsIffFunctionsClean` | compiler/crates/kryos-capabilities/src/checker.rs:5295-5363 | a module has no error iff each function, checked from its own entry, has none |
| `Enforcement.CapabilityChecker.constructor` | compiler/crates/kryos-capabilities/src/checker.rs:5295-5363 | a new checker has an empty scope stack and no diagnostics |
| `Enforcement.CapabilityChecker.EnforceCalleeName` | compiler/crates/kryos-capabilities/src/checker.rs:6272-6380 | reports what the specification of a named call says, and nothing in a scope that does not enforce |
| `Enforcement.CapabilityChecker.CheckCallee` | compiler/crates/kryos-capabilities/src/checker.rs:6141-6226 | a call is charged for its name, its hot arguments and, if nothing names it, its resolution |
| `Enforcement.CapabilityChecker.CheckValueRef` | compiler/crates/kryos-capabilities/src/checker.rs:6386-6458 | a builtin or function in value position is checked against the grant |
| `Enforcement.CapabilityChecker.CheckArgs` | compiler/crates/kryos-capabilities/src/checker.rs:6386-6458 | every argument is checked, in order |
| `Enforcement.CapabilityChecker.CheckDenyBlock` | compiler/crates/kryos-capabilities/src/checker.rs:5731-5757 | pushes the narrowed scope, reports the body under it, and restores the stack |
| `Enforcement.CapabilityChecker.CheckBody` | compiler/crates/kryos-capabilities/src/checker.rs:5759-6133 | the walk reports exactly the specified diagnostics and leaves the stack as it was |
| `Enforcement.CapabilityChecker.CheckFunction` | compiler/crates/kryos-capabilities/src/checker.rs:5530-5604 | a function or handler is checked from the entry grant of its mode (handlers: lines 5606-5690) |
| `Enforcement.CapabilityChecker.CheckModule` | compiler/crates/kryos-capabilities/src/checker.rs:5295-5363 | hot parameters and the map first, then every declaration: the diagnostics of the whole module |
| `Acceptance.BodyCleanIff` | compiler/crates/kryos-capabilities/src/checker.rs:5759-6133 | the walk reports no error on a body iff everything the body demands is a subset of the grant |
| `Acceptance.DemandIsCollected` | compiler/crates/kryos-capabilities/src/checker.rs:4867-5293 | outside `deny!` the enforcement walk demands what the inference walk collects and the sets of functions named as values |
| `Acceptance.PlainFunctionIsClean` | compiler/crates/kryos-capabilities/src/checker.rs:5530-5604 | a function without `deny!` reports no error iff its grant covers what it collects and what it names as values |
| `Acceptance.AcceptsExactly` | compiler/crates/kryos-capabilities/src/checker.rs:5341-5357 | a program without `deny!` is accepted iff every boundary declares what its body collects and every function names as values only what its grant covers |
| `Acceptance.BodyCleanExactly` | compiler/crates/kryos-capabilities/src/checker.rs:5731-5757 | with `deny!` nested anyhow, a body reports no error iff each of its demands is granted by the original grant less everything denied around it |
| `Acceptance.AcceptsExactlyWithDeny` | compiler/crates/kryos-capabilities/src/checker.rs:5295-5363 | exact acceptance of every program of the language in every mode: each demand of each function, under the denials above it, is met by the function's entry grant |
| `SecondOrder.AcceptanceIsGranting` | compiler/crates/kryos-capabilities/src/checker.rs:5295-5363 | in every mode, and with `deny!`, a program is accepted iff each thing a function asks for (builtins and functions it calls, names or hands over to be called, and everything where they cannot be traced) is granted by what it declares or reaches, and overlaps nothing denied around it |
| `Acceptance.FirstOrderAcceptance` | compiler/crates/kryos-capabilities/src/checker.rs:5341-5357 | a first-order program without `deny!` is accepted iff `main`, every annotated function and every handler declares a set covering its reachable needs |
| `Acceptance.InteriorFunctionsAreSilent` | compiler/crates/kryos-capabilities/src/checker.rs:5576-5592 | no unannotated interior function of such a program reports an error |
| `RunSafety.Checked.NameSafe` | compiler/crates/kryos-capabilities/src/checker.rs:6272-6380 | a name the walk let pass denotes a value whose authority is granted under every open `deny!` |
| `RunSafety.Checked.HotArgSafe` | compiler/crates/kryos-capabilities/src/checker.rs:3932-4007 | an argument in a hot position is safe to call in the activation it is handed to |
| `RunSafety.Checked.EnteredFrameSafe` | compiler/crates/kryos-capabilities/src/checker.rs:6272-6380 | a call the walk let pass enters a safe activation |
| `RunSafety.Checked.CalledParamIsHot` | compiler/crates/kryos-capabilities/src/checker.rs:1680-1700 | a parameter that a run calls was marked |
| `RunSafety.Checked.ParamCallSafe` | compiler/crates/kryos-capabilities/src/checker.rs:4223-4245 | calling an own parameter is safe: free at the entry scope, charged `all` inside `deny!` |
| `RunSafety.Checked.GlobalCallSafe` | compiler/crates/kryos-capabilities/src/checker.rs:6272-6380 | a call of a name that is no parameter is safe: the entered activation, or the builtin it gates |
| `RunSafety.Checked.CallSafe` | compiler/crates/kryos-capabilities/src/checker.rs:6141-6226 | every call of a checked body keeps the invariant |
| `RunSafety.Checked.FiringIsGranted` | compiler/crates/kryos-capabilities/src/checker.rs:6141-6226 | in a safe state the operation about to execute is granted and avoids every open denial |
| `RunSafety.Checked.DenyStep` | compiler/crates/kryos-capabilities/src/checker.rs:5731-5757 | entering a `deny!` keeps the invariant for the narrowed grant |
| `RunSafety.Checked.StepKeepsSafe` | compiler/crates/kryos-capabilities/src/checker.rs:5759-6133 | every step of the machine keeps every activation safe |
| `RunSafety.Checked.InitialStackSafe` | compiler/crates/kryos-capabilities/src/checker.rs:5530-5604 | the start of `main` is safe |
| `RunSafety.Checked.RunStaysSafe` | compiler/crates/kryos-capabilities/src/checker.rs:5295-5363 | every state of every run is safe |
| `RunSafety.Checked.WholeRunSafety` | compiler/crates/kryos-capabilities/src/checker.rs:5295-5363 | in every state of every run of a program accepted in Inferred or Strict mode, the gated operation about to execute is granted by `main`'s declaration and overlaps nothing denied by a `deny!` open anywhere on the stack, provided no handler calls, inside a non-empty `deny!` of its own, a function-typed parameter that is named like a free function or builtin |
| `ShadowedHandler.Shadowing.Escapes` | compiler/crates/kryos-capabilities/src/checker.rs:5606-5690 | for every grant, every denied set, every gated builtin overlapping it, and every annotated free function without parameters whose declared set the denial leaves and whose body calls nothing and keeps to it (or builtin that needs nothing): a handler that calls a function-typed parameter of that name inside the `deny!` is accepted and executes the denied operation, so the condition of whole-run safety is needed |
| `Modes.StrictMapIsInferred` | compiler/crates/kryos-capabilities/src/checker.rs:20-42 | if Strict reports no error, the inferred sets are the declared ones |
| `Modes.StrictImpliesInferred` | compiler/crates/kryos-capabilities/src/checker.rs:20-42 | no error in Strict gives none in Inferred, for every program of the language, `deny!` included |
| `Modes.QuietIffClean` | compiler/crates/kryos-capabilities/src/checker.rs:6280-6282 | in an unannotated function Permissive reports no error iff nothing is checked against the empty set |
| `Modes.InferredImpliesPermissiveExactly` | compiler/crates/kryos-capabilities/src/checker.rs:5576-5592 | of the programs Inferred accepts, Permissive accepts exactly those whose unannotated functions hold no gated path call and no `deny!` with demands |
| `Modes.InferredImpliesPermissive` | compiler/crates/kryos-capabilities/src/checker.rs:20-42 | programs of bare-name calls without `deny!` that Inferred accepts are accepted by Permissive |
| `Modes.DenyBreaksTheHierarchy` | compiler/crates/kryos-capabilities/src/checker.rs:5731-5757 | a helper with a `deny!` that passes Inferred and fails Permissive |
| `ClosureReturns.ResolveIsMonotone` | compiler/crates/kryos-capabilities/src/checker.rs:1944-2177 | resolving over lower summaries gives a lower result |
| `ClosureReturns.MergeReturnsIsMonotone` | compiler/crates/kryos-capabilities/src/checker.rs:1909-1921 | so does merging all return positions |
| `ClosureReturns.RecomputeApproaches` | compiler/crates/kryos-capabilities/src/checker.rs:3868-3918 | each recomputation lowers the total rank and stays above every fixed point |
| `ClosureReturns.ComputeReturnSummaries` | compiler/crates/kryos-capabilities/src/checker.rs:3868-3918 | the loop terminates, results only descend from unknown, and the result is the greatest fixed point, whatever the order |
| `ClosureReturns.CombineReturns` | compiler/crates/kryos-capabilities/src/checker.rs:3897-3905 | the fold over return positions is the merge of their resolutions |
| `ClosureReturns.TameLambdaIsCovered` | compiler/crates/kryos-capabilities/src/checker.rs:1991-2088 | the classification of a tame lambda covers it in every environment |
| `ClosureReturns.TameExactly` | compiler/crates/kryos-capabilities/src/checker.rs:1991-2088 | the classification covers a lambda in every environment iff it is tame: no captured parameter beside an own call, no second captured parameter |
| `ClosureReturns.HiddenCaptureEscapes` | compiler/crates/kryos-capabilities/src/checker.rs:1991-2020 | a lambda that calls its own parameter hides a captured one: the environment that shows it |
| `ClosureReturns.SecondCaptureEscapes` | compiler/crates/kryos-capabilities/src/checker.rs:2061-2088 | a lambda that calls two captured parameters is charged for one: the environment that shows it |
| `ClosureReturns.ResolveIsSound` | compiler/crates/kryos-capabilities/src/checker.rs:2143-2177 | what a returned expression evaluates to is covered, calls of other summarised functions included |
| `ClosureReturns.MergeReturnsCovers` | compiler/crates/kryos-capabilities/src/checker.rs:1909-1921 | a merge covers what each return position covers |
| `ClosureReturns.FixedPointIsSound` | compiler/crates/kryos-capabilities/src/checker.rs:3868-3918 | every fixed point covers everything returned within any number of nested calls |
| `ClosureReturns.SummariesAreSound` | compiler/crates/kryos-capabilities/src/checker.rs:3868-3918 | the computed summary covers every closure a function returns: `Known` contains its authority, a deferred one bounds it by the argument's |
| `ReturnExactness.MergeOfKnown` | compiler/crates/kryos-capabilities/src/checker.rs:1909-1921 | a merge is known iff every return is, and then it is their union |
| `ReturnExactness.MergeOfDeferred` | compiler/crates/kryos-capabilities/src/checker.rs:1909-1921 | a merge is deferred to a parameter iff every return is |
| `ReturnExactness.KnownSummariesAreTight` | compiler/crates/kryos-capabilities/src/checker.rs:3868-3918 | the converse of `SummariesAreSound`: every capability of a known summary is carried by a closure that the function returns, whatever its arguments |
| `ReturnExactness.KnownSummariesAreExact` | compiler/crates/kryos-capabilities/src/checker.rs:3868-3918 | a known summary is exactly the union of the authorities of what is returned |
| `ReturnExactness.PlainReturnsExactly` | compiler/crates/kryos-capabilities/src/checker.rs:3868-3918 | if every return is a lambda that calls no parameter or a known global, the summary is known, and is exactly that union |
| `ReturnExactness.HandsIsDeferred` | compiler/crates/kryos-capabilities/src/checker.rs:2143-2177 | a function that returns its parameter, or a lambda that calls it, is deferred to it |
| `ReturnExactness.AllKnownIsKnown` | compiler/crates/kryos-capabilities/src/checker.rs:3868-3918 | the summary is known wherever nothing hides what is returned within any number of nested calls |
| `ReturnExactness.LambdaIsTightExactly` | compiler/crates/kryos-capabilities/src/checker.rs:1991-2088 | the classification of a lambda claims only what it can yield iff no own parameter it is deferred to has the name of a parameter around it |
| `Containers.EvalIsCovered` | compiler/crates/kryos-capabilities/src/checker.rs:2347-2457 | a literal covers the value it evaluates to, along every path |
| `Containers.ExtendedResolvesWider` | compiler/crates/kryos-capabilities/src/checker.rs:3124-3205 | an extended literal resolves every path to no less |
| `Containers.RebuildExtends` | compiler/crates/kryos-capabilities/src/checker.rs:3124-3205 | a path write only extends what is tracked |
| `Containers.RebuiltAllowsWritten` | compiler/crates/kryos-capabilities/src/checker.rs:3124-3205 | after a path write the written place allows what was written |
| `Containers.PushKeeps` | compiler/crates/kryos-capabilities/src/checker.rs:2994-3083 | `x = push(x, v)` keeps the snapshot |
| `Containers.BindKeeps` | compiler/crates/kryos-capabilities/src/checker.rs:2994-3083 | binding or aliasing a literal keeps the snapshot |
| `Containers.IndexWriteKeeps` | compiler/crates/kryos-capabilities/src/checker.rs:3092-3122 | an index write keeps the snapshot |
| `Containers.FieldWriteKeeps` | compiler/crates/kryos-capabilities/src/checker.rs:3092-3122 | a field write of the fragment keeps the snapshot |
| `Containers.GrowKeeps` | compiler/crates/kryos-capabilities/src/checker.rs:3124-3205 | giving a container a literal that resolves every path to at least what the old one did keeps every snapshot, whatever names the container |
| `Containers.BindGrownKeeps` | compiler/crates/kryos-capabilities/src/checker.rs:2994-3083 | so does assigning or declaring it again with such a literal or an alias of one |
| `Containers.WriteGrownKeeps` | compiler/crates/kryos-capabilities/src/checker.rs:3092-3122 | so does a path write after which the literal resolves to at least as much |
| `Containers.LetKeeps` | compiler/crates/kryos-capabilities/src/checker.rs:3207-3340 | a `let` of a new name, and of one declared before when its old literal is gone or is replaced while nothing names it, keeps the snapshot |
| `Containers.StatementKeepsSnapshot` | compiler/crates/kryos-capabilities/src/checker.rs:3207-3340 | every statement of the fragment keeps the snapshot |
| `Containers.BuildLocalContainerLits` | compiler/crates/kryos-capabilities/src/checker.rs:3207-3340 | the loop over a body computes the tracked map the lemmas speak of |
| `Containers.SnapshotsCoverTheRun` | compiler/crates/kryos-capabilities/src/checker.rs:3207-3340 | after any straight-line body whose statements are in the fragment where they run, a path that resolves to `Known(S)` leads at run time only to closures whose capabilities S contains |
| `ContainerExactness.BodyStaysTracked` | compiler/crates/kryos-capabilities/src/checker.rs:3207-3340 | every name declared by a body of literals, aliases, pushes, index writes and field writes stays tracked |
| `ContainerExactness.ResolvesToWhatWasPut` | compiler/crates/kryos-capabilities/src/checker.rs:2347-2457 | a path into such a name resolves to a known set iff what was put there is closures, and the set is the union of theirs, read off the statements |
| `ContainerExactness.ResolvesToTheRun` | compiler/crates/kryos-capabilities/src/checker.rs:3207-3340 | the converse of `SnapshotsCoverTheRun` for bodies of literals, aliases, pushes and field writes: every capability of a known set is carried by a closure that the path reaches at run time |
| `ContainerExactness.PushIsResolved` | compiler/crates/kryos-capabilities/src/checker.rs:2994-3083 | after `let xs = [cs]; xs = push(xs, d)` an index into `xs` resolves to the union of all |
| `Containers.TextSnapshotsCoverTheRun` | compiler/crates/kryos-capabilities/src/checker.rs:3207-3340 | the same for every body whose text is in the fragment: a condition on the tracked map, the names declared before and the statement, in which a field write goes through fields only, or resolves to at least as much |
| `Containers.FieldBelowIndexExactly` | compiler/crates/kryos-capabilities/src/checker.rs:3166-3185 | a field write below index steps at any depth, among any fields, into literals that take it, keeps the snapshot iff the new value allows every closure beside the written place |
| `Containers.FieldOfElementExactly` | compiler/crates/kryos-capabilities/src/checker.rs:3166-3185 | after `let a = [S{f: c0}, S{f: c1}, ..]; a[i].f = d` the snapshot is right iff the set of every other element lies within `d` |
| `Containers.OverwriteNamedExactly` | compiler/crates/kryos-capabilities/src/checker.rs:2347-2457 | giving new contents to a container that one literal names, at any field path, keeps the snapshots iff the new contents allow every closure that the naming value holds there |
| `Containers.NamedContainerExactly` | compiler/crates/kryos-capabilities/src/checker.rs:2347-2457 | a container named inside a literal is resolved late: after `let a = [cs]; let s = S{f: a}; a = [ds]` the snapshot of `s` covers it iff every set in `cs` lies within the union of `ds` |
| `Containers.RedeclaredArrayExactly` | compiler/crates/kryos-capabilities/src/checker.rs:3207-3340 | so `let a = [cs]; let a = f()` with `f` returning `[ds]` is right iff every set in `ds` lies within the union of `cs` |
| `Fannkuch.FlipSettles` | benchmarks/rust/fannkuch.rs:19-24 | a flip keeps a permutation and strictly raises the sum of 2^i over settled positions, which stays below 2^n |
| `Fannkuch.ReversalLaws` | benchmarks/rust/fannkuch.rs:21-21 | `Reversed` is the reversal: it leaves a single element alone and turns a concatenation round |
| `Fannkuch.FlipReverses` | benchmarks/rust/fannkuch.rs:21-21 | a flip of `a + b` at the end of `a` is the reversal of `a` followed by `b` |
| `Fannkuch.FlipsExactly` | benchmarks/rust/fannkuch.rs:19-24 | the flip count is n iff there is a chain of n flips, each reversing the prefix up to the position its front names, from the permutation down to a front of 0 |
| `Fannkuch.CountFlips` | benchmarks/rust/fannkuch.rs:18-24 | the in-place flip loop terminates with 0 in front and returns the length of the chain of flips: reversals of the prefix that the front names |
| `Fannkuch.RotationLaw` | benchmarks/rust/fannkuch.rs:35-39 | rotating a prefix by the length of its first part takes that part to the end of the prefix and leaves what is behind it |
| `Fannkuch.ChecksumAlternates` | benchmarks/rust/fannkuch.rs:28-28 | the checksum is the sum of the flip counts with alternating signs: of two lists of visits it is the first sum plus the second, negated if the first is odd in length |
| `Fannkuch.RotateInPlace` | benchmarks/rust/fannkuch.rs:35-39 | the shift loop rotates the prefix by one |
| `Fannkuch.AheadInRound` | benchmarks/rust/fannkuch.rs:29-45 | a level that has used up its rounds has restored its prefix |
| `Fannkuch.DescendKeepsPlan` | benchmarks/rust/fannkuch.rs:13-16 | resetting counters on the way down changes nothing about what is still to come |
| `Fannkuch.VisitsEveryPermutationOnce` | benchmarks/rust/fannkuch.rs:12-47 | the plan visits every permutation of 0..n exactly once, n! in all |
| `Fannkuch.AheadIsMixedRadix` | benchmarks/rust/fannkuch.rs:40-46 | the number of visits still ahead is the mixed-radix value of the counters |
| `Fannkuch.ResetCounters` | benchmarks/rust/fannkuch.rs:13-16 | the reset loop reaches the bottom level on the same plan |
| `Fannkuch.NextPermutation` | benchmarks/rust/fannkuch.rs:29-45 | the inner loop moves to the next permutation of the plan, or the plan is done |
| `Fannkuch.Visit` | benchmarks/rust/fannkuch.rs:17-28 | copies, flips the copy, updates the maximum and the alternating checksum |
| `Fannkuch.Run` | benchmarks/rust/fannkuch.rs:3-48 | for every n ≥ 1 the program visits the plan in order, n! times round its main loop, and returns its checksum and maximum |
| `Fannkuch.MaxFlipsIsMaximum` | benchmarks/rust/fannkuch.rs:25-27 | the recorded maximum bounds every visit and is attained |
| `Fannkuch.PfannkuchenNumber` | benchmarks/rust/fannkuch.rs:30-34 | the printed number is the length of the longest chain of flips over all permutations of 0..n |
| `CHeaderParsers.CHeaderParser.constructor` | compiler/crates/kryos-bindgen/src/c_parser.rs:100-109 | computes its grammar function: starts at position 0 with nothing collected |
| `CHeaderParsers.CHeaderParser.Advance` | compiler/crates/kryos-bindgen/src/c_parser.rs:123-125 | computes its grammar function: moves the cursor and never past the end |
| `CHeaderParsers.CHeaderParser.SkipWhitespace` | compiler/crates/kryos-bindgen/src/c_parser.rs:127-135 | computes its grammar function: stops at the first character that is no white space |
| `CHeaderParsers.CHeaderParser.SkipLine` | compiler/crates/kryos-bindgen/src/c_parser.rs:137-143 | computes its grammar function: moves past the next line feed, or to the end |
| `CHeaderParsers.CHeaderParser.SkipBlockComment` | compiler/crates/kryos-bindgen/src/c_parser.rs:145-152 | computes its grammar function: moves past the closing mark, or to the end |
| `CHeaderParsers.CHeaderParser.SkipWhitespaceAndComments` | compiler/crates/kryos-bindgen/src/c_parser.rs:154-166 | computes its grammar function: white space and comments, in any mixture |
| `CHeaderParsers.CHeaderParser.ExpectChar` | compiler/crates/kryos-bindgen/src/c_parser.rs:168-176 | computes its grammar function: consumes the character if it is next after blanks |
| `CHeaderParsers.CHeaderParser.ReadIdent` | compiler/crates/kryos-bindgen/src/c_parser.rs:178-193 | computes its grammar function: the next identifier, or none with the cursor behind the blanks |
| `CHeaderParsers.CHeaderParser.ParseBaseType` | compiler/crates/kryos-bindgen/src/c_parser.rs:197-250 | computes its grammar function: base type words, qualifiers dropped, backtracking over the first other word |
| `CHeaderParsers.CHeaderParser.ParsePointerSuffix` | compiler/crates/kryos-bindgen/src/c_parser.rs:257-290 | computes its grammar function: stars and qualifiers, backtracking over a parameter name |
| `CHeaderParsers.CHeaderParser.ParseType` | compiler/crates/kryos-bindgen/src/c_parser.rs:252-255 | computes its grammar function: a base type and its pointers |
| `CHeaderParsers.CHeaderParser.ParseArraySuffix` | compiler/crates/kryos-bindgen/src/c_parser.rs:566-574 | computes its grammar function: a trailing array size |
| `CHeaderParsers.CHeaderParser.ReadArraySize` | compiler/crates/kryos-bindgen/src/c_parser.rs:928-943 | computes its grammar function: decimal digits that fit 64 bits |
| `CHeaderParsers.CHeaderParser.ParseIntegerValue` | compiler/crates/kryos-bindgen/src/c_parser.rs:724-771 | computes its grammar function: decimal or hexadecimal, negative, suffixed, within 64 bits |
| `CHeaderParsers.CHeaderParser.ParseStructFields` | compiler/crates/kryos-bindgen/src/c_parser.rs:621-658 | computes its grammar function: each turn moves the cursor or ends; fields in order |
| `CHeaderParsers.CHeaderParser.ParseEnumVariants` | compiler/crates/kryos-bindgen/src/c_parser.rs:690-722 | computes its grammar function: each turn moves the cursor or ends; variants in order |
| `CHeaderParsers.CHeaderParser.SkipAttributes` | compiler/crates/kryos-bindgen/src/c_parser.rs:899-926 | computes its grammar function: one attribute and its balanced group |
| `CHeaderParsers.CHeaderParser.ParseVariantValue` | compiler/crates/kryos-bindgen/src/c_parser.rs:704-716 | computes its grammar function: the value and comma after an enumerator |
| `CHeaderParsers.CHeaderParser.ParseFunctionParams` | compiler/crates/kryos-bindgen/src/c_parser.rs:815-897 | computes its grammar function: parameters in order; a turn that does not move reports an error and ends |
| `CHeaderParsers.CHeaderParser.ParseFunctionOrSkip` | compiler/crates/kryos-bindgen/src/c_parser.rs:783-813 | computes its grammar function: a declaration, or the text up to the next semicolon skipped |
| `CHeaderParsers.CHeaderParser.ParseStruct` | compiler/crates/kryos-bindgen/src/c_parser.rs:591-619 | computes its grammar function: a struct, or a forward declaration skipped |
| `CHeaderParsers.CHeaderParser.ParseEnum` | compiler/crates/kryos-bindgen/src/c_parser.rs:660-688 | computes its grammar function: an enum, or a forward declaration skipped |
| `CHeaderParsers.CHeaderParser.ParseTypedef` | compiler/crates/kryos-bindgen/src/c_parser.rs:471-589 | computes its grammar function: all forms of typedef, an unfinished tag put back |
| `CHeaderParsers.CHeaderParser.ParseDefine` | compiler/crates/kryos-bindgen/src/c_parser.rs:413-469 | computes its grammar function: a constant, its continuation lines joined; function-like macros skipped |
| `CHeaderParsers.CHeaderParser.ParsePreprocessor` | compiler/crates/kryos-bindgen/src/c_parser.rs:394-411 | computes its grammar function: a define, or the line skipped |
| `CHeaderParsers.CHeaderParser.ParseExternBody` | compiler/crates/kryos-bindgen/src/c_parser.rs:343-373 | computes its grammar function: the declarations of an `extern` block under the progress guard |
| `CHeaderParsers.CHeaderParser.ParseTopDecl` | compiler/crates/kryos-bindgen/src/c_parser.rs:313-385 | computes its grammar function: dispatch on the first word |
| `CHeaderParsers.CHeaderParser.Parse` | compiler/crates/kryos-bindgen/src/c_parser.rs:294-392 | computes its grammar function: the whole header, ending at its end |
| `CHeaderParsers.ParseCHeader` | compiler/crates/kryos-bindgen/src/c_parser.rs:78-91 | on every ASCII text the parser terminates with the items of the grammar, or its errors if there are any |
| `HeaderGrammar.StructFields` | compiler/crates/kryos-bindgen/src/c_parser.rs:621-658 | the cursor only moves forward and stays inside the text; the recursion is on the text left |
| `HeaderGrammar.FunctionParams` | compiler/crates/kryos-bindgen/src/c_parser.rs:815-897 | the cursor only moves forward and stays inside the text, whatever the parameters look like |
| `HeaderGrammar.Guard` | compiler/crates/kryos-bindgen/src/c_parser.rs:387-390 | after the guard the cursor has moved past where the turn began |
| `HeaderGrammar.Header` | compiler/crates/kryos-bindgen/src/c_parser.rs:294-392 | the main loop ends with the cursor at the end of the text |
| `HeaderLayout.BlankTwice` | compiler/crates/kryos-bindgen/src/c_parser.rs:154-166 | skipping blanks twice is skipping them once |
| `HeaderLayout.GapIsSkipped` | compiler/crates/kryos-bindgen/src/c_parser.rs:154-166 | any mixture of white space, line comments and block comments is skipped up to the next token |
| `HeaderLayout.WordIsRead` | compiler/crates/kryos-bindgen/src/c_parser.rs:178-193 | the next word is read and the cursor stands before what follows |
| `HeaderLayout.LayoutStands` | compiler/crates/kryos-bindgen/src/c_parser.rs:154-193 | tokens laid out with any gaps, words kept apart, stand in the text one behind the other |
| `TypeSpellings.ResolvesExactly` | compiler/crates/kryos-bindgen/src/c_parser.rs:991-1033 | the words of a type are given the meaning C gives them, counted without regard to order, iff they stand in the order sign, size, `int`, and are not `intptr_t` or `ptrdiff_t` |
| `PrototypeRoundTrip.WordsAreRead` | compiler/crates/kryos-bindgen/src/c_parser.rs:216-235 | the words of a type are read with the qualifiers among them dropped, up to a star, a symbol or a name |
| `PrototypeRoundTrip.BaseIsRead` | compiler/crates/kryos-bindgen/src/c_parser.rs:197-250 | a base type is read, qualified anywhere, `struct` and `enum` tags among them |
| `PrototypeRoundTrip.StarsAreRead` | compiler/crates/kryos-bindgen/src/c_parser.rs:257-290 | any number of stars, each with its qualifiers, is read, and a name after them is left alone |
| `PrototypeRoundTrip.BehindIsSkipped` | compiler/crates/kryos-bindgen/src/c_parser.rs:262-270 | one qualifier between a tag and the stars is skipped |
| `PrototypeRoundTrip.TypeIsRead` | compiler/crates/kryos-bindgen/src/c_parser.rs:252-290 | a type is read up to what ends it |
| `PrototypeRoundTrip.TypeIsUnderstoodExactly` | compiler/crates/kryos-bindgen/src/c_parser.rs:991-1033 | it is read as C means it iff its words are understood |
| `PrototypeRoundTrip.BracketsAreRead` | compiler/crates/kryos-bindgen/src/c_parser.rs:566-574 | no brackets, empty ones or a size are read; a size beyond 64 bits is dropped |
| `PrototypeRoundTrip.ParamIsRead` | compiler/crates/kryos-bindgen/src/c_parser.rs:856-882 | a parameter, named or not, with or without brackets, is read with its comma |
| `PrototypeRoundTrip.VoidCloses` | compiler/crates/kryos-bindgen/src/c_parser.rs:843-854 | `void` closes a list iff it is the whole parameter and the parenthesis follows |
| `PrototypeRoundTrip.ListIsRead` | compiler/crates/kryos-bindgen/src/c_parser.rs:815-897 | a parameter list, fixed or variadic, is read up to its parenthesis but for a closing `void` |
| `PrototypeRoundTrip.AttributesAreSkipped` | compiler/crates/kryos-bindgen/src/c_parser.rs:899-926 | an attribute with any nesting of parentheses is skipped up to the semicolon |
| `PrototypeRoundTrip.PrototypeIsRead` | compiler/crates/kryos-bindgen/src/c_parser.rs:783-813 | a prototype, its attribute skipped, is read with no error |
| `PrototypeRoundTrip.PrototypeIsReadExactly` | compiler/crates/kryos-bindgen/src/c_parser.rs:783-813 | it is read as C means it iff its types are understood, no parameter is an array, and no longer list ends in a plain `void` |
| `StructRoundTrip.MembersAreRead` | compiler/crates/kryos-bindgen/src/c_parser.rs:621-658 | the members of a struct are read in order up to its brace |
| `StructRoundTrip.FieldsAreReadExactly` | compiler/crates/kryos-bindgen/src/c_parser.rs:621-658 | the fields are those that C means iff their types are understood and their sizes fit 64 bits |
| `EnumRoundTrip.NumeralIsRead` | compiler/crates/kryos-bindgen/src/c_parser.rs:724-781 | a decimal or hexadecimal number with sign and suffix is read with its value, if that fits |
| `EnumRoundTrip.ValueIsReadExactly` | compiler/crates/kryos-bindgen/src/c_parser.rs:724-771 | an enumerator value is read as C means it iff it fits 64 bits and is no octal number with a digit other than zero in front of its last one |
| `EnumRoundTrip.VariantsAreRead` | compiler/crates/kryos-bindgen/src/c_parser.rs:690-722 | enumerators with and without values, with and without a last comma, are read in order |
| `DefineRoundTrip.LineIsRead` | compiler/crates/kryos-bindgen/src/c_parser.rs:394-469 | a preprocessor line: a simple constant is kept as stripping leaves it; other macros and directives are skipped, the line and no more |
| `DefineRoundTrip.LineIsReadExactly` | compiler/crates/kryos-bindgen/src/c_parser.rs:394-469 | the line says what it did iff it is no simple constant or its value survives stripping |
| `DeclarationRoundTrip.StructIsRead` | compiler/crates/kryos-bindgen/src/c_parser.rs:591-619 | a struct with its members, and a variable behind it or none, is read with no error |
| `DeclarationRoundTrip.EnumIsRead` | compiler/crates/kryos-bindgen/src/c_parser.rs:660-688 | so is an enum |
| `DeclarationRoundTrip.ForwardIsRead` | compiler/crates/kryos-bindgen/src/c_parser.rs:604-609 | a forward declaration is skipped and adds nothing |
| `DeclarationRoundTrip.TypedefStructIsRead` | compiler/crates/kryos-bindgen/src/c_parser.rs:480-521 | `typedef struct [tag] { .. } *..alias;` gives the struct under its tag, or its alias if it has none, and the alias as a typedef of that name with its stars, unless it has no stars and is that name |
| `DeclarationRoundTrip.TypedefEnumIsRead` | compiler/crates/kryos-bindgen/src/c_parser.rs:525-553 | `typedef enum [tag] { .. } alias;` gives the enum and its alias in the same way |
| `DeclarationRoundTrip.TypedefIsRead` | compiler/crates/kryos-bindgen/src/c_parser.rs:471-589 | a typedef of a type, whatever word it starts with, is read with its brackets |
| `DeclarationRoundTrip.DeclIsRead` | compiler/crates/kryos-bindgen/src/c_parser.rs:313-385 | each declaration is read the same at the top and in an `extern` block |
| `DeclarationRoundTrip.BlockIsRead` | compiler/crates/kryos-bindgen/src/c_parser.rs:343-373 | the declarations of an `extern` block are read in order; its preprocessor lines are skipped |
| `DeclarationRoundTrip.ExternIsRead` | compiler/crates/kryos-bindgen/src/c_parser.rs:324-342 | `extern` and a language: a brace opens a block, anything else is left to be read |
| `DeclarationRoundTrip.UnitsBefore` | compiler/crates/kryos-bindgen/src/c_parser.rs:294-392 | the units of a header are read in order, whatever stands behind them |
| `DeclarationRoundTrip.BlanksAreGaps` | compiler/crates/kryos-bindgen/src/c_parser.rs:127-135 | every header has a layout: one blank before each token |
| `DeclarationRoundTrip.DeclarationsAreParsed` | compiler/crates/kryos-bindgen/src/c_parser.rs:294-392 | every list of prototypes, structs, enums, typedefs of all kinds, forward declarations, preprocessor lines and `extern` blocks, laid out with any white space and comments between its tokens, is read in order and without errors |
| `DeclarationRoundTrip.DeclarationsRoundTripExactly` | compiler/crates/kryos-bindgen/src/c_parser.rs:294-392 | the items are those that C means iff every type is understood, every number is read alike, no parameter is an array, no longer list ends in a plain `void`, and every simple constant survives stripping and stands in no block |
| `HeaderErrors.TagPrototypeIsDropped` | compiler/crates/kryos-bindgen/src/c_parser.rs:591-609 | a prototype whose type starts with `struct` or `enum` adds nothing |
| `HeaderErrors.ErrorsRemain` | compiler/crates/kryos-bindgen/src/c_parser.rs:294-392 | an error once reported stays reported |
| `HeaderErrors.AnonymousTagIsRejected` | compiler/crates/kryos-bindgen/src/c_parser.rs:591-601 | a header that goes on, behind any of the units above, with a struct or an enum without a name is rejected, whatever follows |
| `NumericConstants.StaysExactly` | compiler/crates/kryos-bindgen/src/c_parser.rs:1077-1088 | stripping leaves a text as it is iff it is quoted, its last character is none of those six, or all its characters are |
| `NumericConstants.NumberSurvivesExactly` | compiler/crates/kryos-bindgen/src/c_parser.rs:1077-1088 | for every integer constant, decimal, octal or hexadecimal, of either sign and with any suffix of `u` and `l`: what stripping leaves denotes the same number iff the constant is not a hexadecimal one whose last digit is `f` or `F` |
| `NumericConstants.MaskIsLost` | compiler/crates/kryos-bindgen/src/c_parser.rs:1077-1088 | `0xFF` is stripped to `0x`, which denotes no number |
| `NumericConstants.SuffixIsLost` | compiler/crates/kryos-bindgen/src/c_parser.rs:1077-1088 | `10UL` is stripped to `10`, which denotes the same number |
| `ConstantRoundTrip.NumberIsReadBackExactly` | compiler/crates/kryos-bindgen/src/c_parser.rs:413-469 | a header that defines an integer constant is read back as a value that denotes the same number iff the constant is not a hexadecimal one whose last digit is `f` or `F` |
| `ConstantRoundTrip.MaskIsReadBackEmpty` | compiler/crates/kryos-bindgen/src/c_parser.rs:456-463 | a header that defines `MASK` as `0xFF` reads back as `0x`; as `10UL`, as `10` |
| `WasmHeap.UnpackOfPack` | examples/wasm_runner.js:49-57 | the offset is the low word and the length the high word, through the signed 64-bit wrap; unpacking gives both modulo 2^32 |
| `WasmHeap.PackRoundTripsExactly` | examples/wasm_runner.js:49-57 | a handle round-trips iff offset and length are 32-bit |
| `WasmHeap.GetOfPut` | examples/wasm_runner.js:107-114 | eight bytes written little-endian read back as the same i64 |
| `WasmHeap.ReadOfWrite` | examples/wasm_runner.js:107-125 | an array written to memory reads back |
| `WasmHeap.WriteElsewhere` | examples/wasm_runner.js:107-114 | writing an array leaves every byte outside its block |
| `WasmHeap.ReadOfPut` | examples/wasm_runner.js:161-165 | setting one element changes that element and no other |
| `WasmHeap.GrownCovers` | examples/wasm_runner.js:62-73 | growth adds whole pages, no more than needed, keeps the old contents and covers the block |
| `WasmHeap.AlignExactly` | examples/wasm_runner.js:70-71 | 32-bit alignment rounds up to a multiple of 8 exactly while the sum stays below 2^31 |
| `WasmHeap.NextBlockIsApartExactly` | examples/wasm_runner.js:62-73 | the next block starts behind this one iff pointer + size + 7 < 2^31 |
| `WasmHeap.WasmHost.constructor` | examples/wasm_runner.js:60-60 | the heap starts at 32 KiB |
| `WasmHeap.WasmHost.BumpAlloc` | examples/wasm_runner.js:62-73 | the block starts at the old pointer; memory and pointer are those of the specification, and unchanged when the growth throws |
| `WasmHeap.WasmHost.WriteArrayToMem` | examples/wasm_runner.js:107-115 | the loop writes the array; a throw leaves the allocation and no cell |
| `WasmHeap.WasmHost.ReadArrayFromMem` | examples/wasm_runner.js:117-125 | the loop reads the array, or throws |
| `WasmHeap.WasmHost.KryosArrayNew` | examples/wasm_runner.js:149-155 | a zeroed block and its handle; a throw leaves the allocation |
| `WasmHeap.WasmHost.KryosArrayGet` | examples/wasm_runner.js:156-160 | one cell |
| `WasmHeap.WasmHost.KryosArraySet` | examples/wasm_runner.js:161-165 | one cell written, nothing else |
| `WasmHeap.WasmHost.KryosArrayPush` | examples/wasm_runner.js:224-228 | a copy with one element more; a throw leaves the allocation, or nothing if the read threw |
| `WasmHeap.WasmHost.KryosStringConcat` | examples/wasm_runner.js:139-148 | both sources copied in turn into a new block; a throw leaves the allocation and copies nothing |
| `WasmHeap.AllocationRepresents` | examples/wasm_runner.js:62-73 | a new block at the pointer leaves every live block, and the module's data, as they were |
| `WasmHeap.NewRefines` | examples/wasm_runner.js:149-155 | array_new adds an array of zeros to the store |
| `WasmHeap.SetRefines` | examples/wasm_runner.js:161-165 | array_set in bounds changes one element of one array |
| `WasmHeap.PushRefines` | examples/wasm_runner.js:224-228 | array_push adds a longer copy; the old handle keeps its array |
| `WasmHeap.ConcatRefines` | examples/wasm_runner.js:139-148 | string_concat adds the concatenation, even when memory grows between allocation and copy |
| `WasmHeap.StepRefines` | examples/wasm_runner.js:139-165 | every host call refines the store of values |
| `WasmHeap.RunRefines` | examples/wasm_runner.js:139-165 | every run of host calls refines the store |
| `WasmHeap.RunsReadBack` | examples/wasm_runner.js:107-165 | after any run every handle reads back its object; blocks are aligned, disjoint, inside memory and above the module's data |
| `WasmHeap.OnlySetsChange` | examples/wasm_runner.js:156-165 | an object that a run does not set is unchanged under the same handle at its end |
| `WasmHeap.RunKeepsAbove` | examples/wasm_runner.js:60-73 | after any run the module's data from the final pointer on is what it was |
| `WasmHeap.NewKeepsExactly` | examples/wasm_runner.js:149-155 | data that a new array covers, as it does when the module's data reaches above 32 KiB, stays what it was iff it was zero |
| `WasmHeap.PushKeepsExactly` | examples/wasm_runner.js:224-228 | data that a pushed copy covers stays what it was iff it already was the cells of the copy |
| `WasmHeap.ConcatKeepsExactly` | examples/wasm_runner.js:139-148 | data that a concatenation covers stays what it was iff it already was the two texts, the second as it reads once the first is copied |
| `CfgStrip.StripGroup` | compiler/crates/kryos-ast/src/cfg_strip.rs:161-185 | the depth loop finds the closing parenthesis, and only one at the very end counts |
| `CfgStrip.StripCall` | compiler/crates/kryos-ast/src/cfg_strip.rs:155-186 | the word in any case, white space, then one group and nothing else |
| `CfgStrip.SplitTopLevel` | compiler/crates/kryos-ast/src/cfg_strip.rs:189-219 | cuts at the commas of depth zero, trims the pieces and drops empty ones |
| `CfgStrip.PartsAreShort` | compiler/crates/kryos-ast/src/cfg_strip.rs:122-140 | no piece is longer than the text it is cut from: the recursion is on shorter strings |
| `CfgStrip.GroupPasses` | compiler/crates/kryos-ast/src/cfg_strip.rs:168-183 | balanced text in parentheses leaves both scanners' depth and pieces as they were |
| `CfgStrip.TreePasses` | compiler/crates/kryos-ast/src/cfg_strip.rs:155-219 | the text of every tree is balanced for both scanners |
| `CfgStrip.CallIsTaken` | compiler/crates/kryos-ast/src/cfg_strip.rs:155-186 | a rendered call is taken apart under its own word and no other |
| `CfgStrip.ListParts` | compiler/crates/kryos-ast/src/cfg_strip.rs:189-219 | the text of a list of trees splits into the texts of the trees |
| `CfgStrip.CoreIsEvaluated` | compiler/crates/kryos-ast/src/cfg_strip.rs:122-151 | evaluation follows the tree, level by level |
| `CfgStrip.RenderingIsEvaluated` | compiler/crates/kryos-ast/src/cfg_strip.rs:122-151 | evaluating the text of any tree of `not`, `all` and `any`, in any spacing and case, gives its Boolean meaning |
| `CfgStrip.NamesAreEvaluated` | compiler/crates/kryos-ast/src/cfg_strip.rs:141-150 | a name, in any case and with white space around it, holds iff it is the target, is `unix` and the target is Linux or macOS, or is the build mode |
| `CfgStrip.UnknownFailsClosed` | compiler/crates/kryos-ast/src/cfg_strip.rs:141-150 | unless under an odd number of `not`s, an unrecognised name never keeps code that would go if the name held or not |
| `CfgStrip.NegatedUnknownHolds` | compiler/crates/kryos-ast/src/cfg_strip.rs:125-132 | an unrecognised name under n `not`s, however spaced and spelt, holds iff n is odd, although the module comment (lines 22-24) says such a declaration is stripped |
| `CfgStrip.Module.constructor` | compiler/crates/kryos-ast/src/cfg_strip.rs:83-87 | a module of declarations |
| `CfgStrip.Module.StripCfg` | compiler/crates/kryos-ast/src/cfg_strip.rs:83-87 | retains the declarations to keep |
| `CfgStrip.StrippingFollowsTheTrees` | compiler/crates/kryos-ast/src/cfg_strip.rs:89-120 | a declaration is kept iff every predicate of every `cfg` annotation holds |
| `CfgStrip.KeptExactly` | compiler/crates/kryos-ast/src/cfg_strip.rs:83-98 | what is left are the declarations to keep; stripping twice is stripping once |
| `CapsToml.CapabilityRoundTrips` | compiler/crates/kryos-bindgen/src/caps.rs:41-59 | parsing a capability's token gives it back |
| `CapsToml.LinesOfUnlines` | compiler/crates/kryos-bindgen/src/caps.rs:237-241 | lines written are the lines read |
| `CapsToml.StripComment` | compiler/crates/kryos-bindgen/src/caps.rs:263-273 | cuts at the first `#` outside quotes |
| `CapsToml.ParseOverrides` | compiler/crates/kryos-bindgen/src/caps.rs:234-260 | the loop over lines computes the reader's specification |
| `CapsToml.GenerateCapsToml` | compiler/crates/kryos-bindgen/src/caps.rs:315-329 | the writer's text: header, suggestion tables, banner, entries |
| `CapsToml.TableReads` | compiler/crates/kryos-bindgen/src/caps.rs:242-245 | every table header but one closes the table |
| `CapsToml.EntryIsRead` | compiler/crates/kryos-bindgen/src/caps.rs:249-257 | a written entry is read back as its key and capability |
| `CapsToml.OverridesWin` | compiler/crates/kryos-bindgen/src/caps.rs:315-329 | for any tags, reading the file gives what the suggestions bring in, overridden by the overrides |
| `CapsToml.TableStatesItsTag` | compiler/crates/kryos-bindgen/src/caps.rs:318-323 | each suggestion table ends in the capability of its tag, which parses back to it, and in how it was found |
| `CapsToml.RoundTripExactly` | compiler/crates/kryos-bindgen/src/caps.rs:315-329 | the overrides read back exactly iff every key that some symbol brings is one of them: the key of an entry line behind an `[overrides]` line inside the symbol, and `capability` if the symbol leaves that table open |
| `CapsToml.SuggestionKeys` | compiler/crates/kryos-bindgen/src/caps.rs:318-323 | the reader finds in the suggestion tables exactly the keys that the symbols bring |
| `CapsToml.SingleLineBringsNothing` | compiler/crates/kryos-bindgen/src/caps.rs:318-323 | a symbol without a line feed brings nothing, a carriage return included |
| `CapsToml.OverridesRoundTrip` | compiler/crates/kryos-bindgen/src/caps.rs:310-329 | for all such tags, every comment header and every override map with plain keys, listed in any order, the overrides come back |
| `CapsToml.SpreadSymbolBringsItsEntry` | compiler/crates/kryos-bindgen/src/caps.rs:318-323 | a symbol with an `[overrides]` line and an entry line brings in any key |
| `CapsToml.OpenHeadBringsCapability` | compiler/crates/kryos-bindgen/src/caps.rs:318-323 | a symbol whose last line is `[overrides` brings in the key `capability` |
| `CapsToml.SpreadSymbolBringsAnOverride` | compiler/crates/kryos-bindgen/src/caps.rs:318-323 | a file written for one such symbol and no overrides reads back with an override |
| `ValueIf.AsValueIfExpr` | compiler/crates/kryos-ast/src/stmt.rs:142-175 | the reverse loop builds the nested expression, and none iff the statement is no `if` with an `else` |
| `ValueIf.ElseRunsTheRest` | compiler/crates/kryos-ast/src/stmt.rs:152-167 | the branch built for a suffix of clauses runs that suffix |
| `ValueIf.ValueIfKeepsMeaning` | compiler/crates/kryos-ast/src/stmt.rs:142-175 | the expression tries the same conditions in the same order, with the same effects, exits, final state and value |
| `ValueIf.ValueTailOnlyAddsAValue` | compiler/crates/kryos-ast/src/stmt.rs:134-141 | using it as the tail of a block changes the block's value and nothing else |
| `ValueIf.StatementTailHasNoValue` | compiler/crates/kryos-ast/src/stmt.rs:134-141 | without it a block ending in an `if` has no value |
| `Numerals.SignedParses` | compiler/self-host/kryos_runtime.c:196-221 | the text parses back to the number, has no leading zero and holds digits only after the sign |
| `IntToString.DecimalFits` | compiler/self-host/kryos_runtime.c:199-202 | at most 20 digits: every write is inside the 32-byte buffer |
| `IntToString.NumberRing.constructor` | compiler/self-host/kryos_runtime.c:193-194 | eight buffers of 32 bytes |
| `IntToString.NumberRing.WriteDigits` | compiler/self-host/kryos_runtime.c:214-217 | digits backwards from the end of one buffer, no other byte changed |
| `IntToString.NumberRing.WriteUnsigned` | compiler/self-host/kryos_runtime.c:199-218 | zero or the digits, then the terminator |
| `IntToString.NumberRing.WriteSigned` | compiler/self-host/kryos_runtime.c:203-221 | the sign in front of the digits of the magnitude, which is taken without overflow for the minimum too |
| `IntToString.NumberRing.I64ToString` | compiler/self-host/kryos_runtime.c:196-221 | for every 64-bit value including the minimum: the returned C string is its decimal text, and the last eight strings returned are intact |
| `IntToString.SlotsRecurEveryEight` | compiler/self-host/kryos_runtime.c:197-198 | a buffer is reused exactly at the eighth call after it |

## Left out

- Types, ownership, MIR, code generation, the lexer and the Kryos parser: not part of this model.
- Checker shapes outside the command language: lambdas and let-bound closures inside the run
  theorem, select and spawn, actor state fields, traits and dynamic dispatch, tuples, pipes,
  generic accessor paths, hot container paths, extern declarations, escalation names, raw memory.
- Builtin and native-symbol name tables: a map from names to capabilities is a parameter.
- Diagnostics' text, codes and spans; a diagnostic is its kind and the capabilities it names.
- Sending a message to an actor is a synchronous call of its handler. Handlers declare no explicit
  `self`: the offsets of `Language.Offset` and the binding of `RunSafety.Bind` rest on that.
- HotParams.ComputeHotParams: container parameters whose contents are called through a field or
  index chain, and the paths recorded for them, are not modelled; function-typed parameters are.
- Enforcement.CapabilityChecker.EnforceCalleeName: extern declarations are not modelled.
- Enforcement.CapabilityChecker.CheckCallee: nor are names of externs, actors and enum variants,
  and chains rooted at a local.
- Enforcement.CapabilityChecker.CheckValueRef: nor are externs used as values.
- Enforcement.CapabilityChecker.CheckBody: the statement and expression forms outside the command
  language.
- Enforcement.CapabilityChecker.CheckModule: constants, imports, externs and the pass over closure
  returns, which `ClosureReturns` models apart.
- RunSafety.Checked.WholeRunSafety: excludes only programs in which a handler calls, inside a
  non-empty `deny!` of its own, a function-typed parameter named like a free function or builtin,
  because there it fails (`ShadowedHandler.Shadowing.Escapes`); function values are named
  functions, builtins and own parameters, as the type checker is not modelled, and parameters that
  are not function-typed never hold one.
- SecondOrder.InferenceIsReachability: which parameters are called somewhere is `HotParams.Hot`.
- Inference.ComputeInferredCapabilities: function names are unique, so the union of same-named
  methods' sets does not arise.
- Acceptance.AcceptsExactly: for programs without `deny!`; `Acceptance.AcceptsExactlyWithDeny` is
  the form for all programs, without the split into collected and named sets.
- Acceptance.BodyCleanIff: without `deny!`, or at the empty grant; `Acceptance.BodyCleanExactly` is
  the form for every body and grant.
- Modes.InferredImpliesPermissive: for programs of bare-name calls without `deny!`; beyond them it
  is false, and `Modes.InferredImpliesPermissiveExactly` is the exact form.
- ClosureReturns.SummariesAreSound: for tame lambdas only (see above); a returned local variable
  and container literals in return position are not modelled.
- ReturnExactness.KnownSummariesAreTight: every function can return something, calls stay in the
  table, and no lambda is deferred to a parameter of its own that shares its name with one around
  it (without the last it fails: `ReturnExactness.LambdaIsTightExactly`).
- ContainerExactness.ResolvesToWhatWasPut: index writes add to what an element holds, as the
  tracker has one literal for all indices.
- ContainerExactness.ResolvesToTheRun: without index writes, since those overwrite at run time what
  the tracker keeps.
- Containers.SnapshotsCoverTheRun: straight-line bodies with value semantics, every struct
  literal's fields distinct. Excluded are: giving a container that a tracked literal names contents
  that resolve to less, declaring a tracked name again with an initializer the tracker does not
  know, and a field write that leaves a closure beside the written place uncovered. Each can fail,
  under the conditions of the lemmas above. `Containers.TextSnapshotsCoverTheRun` states the
  fragment over the text; of field writes below index steps it admits those that resolve to at
  least as much. The tracked map is one snapshot of the whole body, so the statement is about the
  body's end; a path used earlier in the body is resolved with that map too.
- Containers.NamedContainerExactly: an instance; `Containers.OverwriteNamedExactly` is the general
  form.
- Containers.EvalIsCovered: a name at the end of a path resolves to unknown, where the source reads
  the authority it tracks for the local; own parameters are not deferred.
- Containers.BuildLocalContainerLits: branches, loops, patterns and calls of factories without
  arguments are not modelled.
- CHeaderParsers.ParseCHeader: ASCII text; on other text the cursor, which counts bytes, can stop
  inside a character.
- TypeSpellings.ResolvesExactly: `long double` counts as `double`, the widest type the items have;
  the other words of the standard headers mean what the source's table says, but for the two it
  gets wrong.
- DeclarationRoundTrip.DeclarationsAreParsed: a header is made of the declarations listed, and its
  last comment is closed. What the parser skips or mangles has no text here: bit fields, several
  declarators at once, function pointers, nested bodies, enumerators that are expressions, storage
  classes other than `extern`, `extern` inside a block, lines with continuations.
- HeaderErrors.TagPrototypeIsDropped: where the next declaration starts is not said, as a comment
  with a semicolon in it would end the skip.
- NumericConstants.NumberSurvivesExactly: integers; for floating-point constants, and macros that
  name others, only `NumericConstants.StaysExactly` speaks.
- WasmHeap.RunsReadBack: calls with live handles, indices in bounds and counts that are not
  negative; string sources are live strings or the module's data below 32 KiB (what happens to data
  above it: `WasmHeap.RunKeepsAbove`, `WasmHeap.NewKeepsExactly`, `WasmHeap.PushKeepsExactly`,
  `WasmHeap.ConcatKeepsExactly`). JSON, regular expressions, the DOM stubs and freeing are not
  modelled; a host call that throws ends the run.
- CfgStrip.RenderingIsEvaluated: names of atoms hold no parenthesis or comma; the context is given,
  target triples are not parsed.
- CapsToml.OverridesRoundTrip: the two fixed comment headers are any comment lines; keys hold no
  quote, `#`, `=` or white space around them, as identifiers do not.
- CapsToml: classifying symbols by name patterns and generating wrapper stubs are easy members.
- ValueIf.ValueIfKeepsMeaning: expressions other than `if` are leaves with an arbitrary meaning.
- Fannkuch.Run: integers are unbounded where the program uses 64 bits; n! fits them for n ≤ 20.
- IntToString.NumberRing.I64ToString: a pointer is a buffer and an offset, a C string the
  characters up to the NUL; single-threaded, as the source says.
- Registry server, editor extensions, fuzz drivers, benchmark harnesses, floating-point programs.
