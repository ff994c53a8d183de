# Chromifer verification model

Chromifer decides when a component of Chromium may move from C++ to Rust and checks the evidence for each move. This
project models the decision logic of its crates in Dafny and proves what that logic promises. It is about six subsystems:

- **Migration** (`ManifestModel`, `Graphs`, `CycleSearch`, `Validation`, `Blockers`, `Planner`, `Migration`). A manifest
  is a graph of modules in the states legacy C++, bridged and Rust-owned. The reference checks of the manifest and the
  three-colour cycle finder are exact; the planner's assessment is exact, with every blocker listed once for its place
  and in order; and read as a step relation it terminates, is confluent, has a closed-form final state and keeps every
  edge at a Rust-owned module audited over whole runs.
- **GN import** (`GnProject`, `GnSelection`, `Flattening`, `LabelIds`, `IdAssignment`, `GnImport`, `ImportMeaning`).
  Aliases, the root closure as a least set, flattening of meta targets with reachability preserved, injective module ids
  given in the order of the labels, and the whole import: the exact selection, the exact conditions of its three kinds
  of errors, and the manifest it ends in.
- **Cargo to GN** (`CfgParsing`, `CfgLayout`, `CfgErrors`, `GnLanguage`, `CfgRender`, `CfgTranslation`, `CfgPlatforms`,
  `DependencySets`, `DependencyMeaning`, `Features`, `FeatureMeaning`). The cursor parser of `cfg(...)` accepts exactly
  the texts of its grammar; exactly the conditions all of whose leaves hold on some platform are translated; the GN text
  has the same truth value when lexed, parsed and evaluated as GN; the leaf table is exact but for three leaves;
  rendered dependency lists evaluate to exactly the labels that apply; feature resolution is a least set.
- **Evidence** (`EvidenceModel`, `GateInputs`, `GitStatus`, `GitCaptures`, `EvidenceStore`, `EvidenceRun`, `GateRecords`,
  `CheckoutRecords`, `EvidenceVerify`, `EvidenceMeaning`, `EvidenceTheorems`). The gate runner with its checks of the
  inputs and its looks at the Git checkout, the content-addressed store and the independent verifier with its comparison
  against a live machine: when exactly a run fails, what every record says about the answers of the system, what
  acceptance means and binds, with which error evidence is refused, exactly which runs produce evidence the verifier
  accepts, and that evidence stands over any sequence of runs in one directory.
- **Text and fixpoints** (`ConditionalModules`, `AbiExports`, `SourceItems`, `Comments`, `CommentSegments`,
  `AuthoredLines`, `CanonicalJson`, `JsonReading`, `MojomLexing`, `MojomPrinting`, `MojomElements`, `MojomParsing`,
  `MojomReading`, `MojomFaults`). The fixpoint of conditionally compiled sources and the exports it guards, the comment
  stripper with the exact condition under which it blanks the comments, the canonical JSON writer, and the Mojom lexer
  and parser, from printed text to records and to the line and reason of every error.
- **Components** (`Components`, `ComponentGroups`, `ComponentIds`, `ComponentEdges`, `ComponentCounts`,
  `ComponentMeaning`, `ComponentAnalysis`). Grouping of modules, component ids with the exact condition under which they
  are distinct, and aggregation of dependencies into component edges: every number of an edge or a metric is the size of
  a set of positions in the manifest, and nothing of the manifest is lost on the way.

`Wrappers`, `Ordering`, `Listing` and `Texts` hold option and result types, string order, sorting and facts about
sequences, lists made by visiting places in order, and trimming, lines and separated parts.

Code that changes state step by step is modelled by methods with loops or by classes (`Search`, `MetaWalk`, `CfgParser`,
`OutputDirectory`, `JsonWriter`), each proved against a specification; pure code is functions and lemmas. Hash
functions, text decoding, JSON encoding of bundles, source classification, Git output, file contents and the results of
processes are parameters: every statement is for all of them, with the hypotheses it needs stated. No hash is assumed
to be free of collisions; where a theorem excludes the collision of two named texts, it says so.

## Where the program falls short of its documentation

- `docs/build-bridge.md` promises exact pointer-width unions for CPUs, but the 32-bit list leaves out wasm. With
  watchOS and `target_vendor = "apple"`, and arm64e and `target_arch = "aarch64"`, these are the only leaves whose GN
  condition is wrong on some platform (`CfgPlatforms.LeafTableExact`).
- `docs/migration-exposure.md` counts non-blank, non-comment lines. The comment scan takes every apostrophe for the start
  of a character literal, also that of a Rust lifetime or a C++ digit separator, and then blanks no comment before the
  next apostrophe. For sources of code, literals, comments and lone apostrophes, exactly the comments are blanked if and
  only if every comment is behind an even number of lone apostrophes (`CommentSegments.StripByParity`,
  `CommentSegments.LifetimeKeepsComment`); the line of the first other comment counts as authored
  (`AuthoredLines.OddCommentAuthored`). For any other text outside of comments, raw strings among it,
  `CommentSegments.StripSegments` gives the exact condition.
- `docs/gate-evidence.md` says that a failed gate still produces a complete evidence bundle, and that evidence is to be
  verified again. The verifier rejects the evidence of five families of runs, and of no others, given the input digests
  a manifest must have to be loaded, absolute paths, digests and trimmed errors from the operating system, and no digest
  collision in the submodule output (`EvidenceTheorems.Agreement`):
  - a direct gate under executable attestation whose inputs fail before its program is resolved is recorded with neither
    an executable nor an executable error (`EvidenceTheorems.ChangedInputRejected` is one such run);
  - when a Git command fails silently, at the start or at the end of an attested run with no later error, the recorded
    error ends in a space (`EvidenceTheorems.FailedGitAccepted`);
  - when Git prints an attested checkout that is not plain, the recorded snapshot fails the verifier's own checks;
    submodule output that is not UTF-8 or ends a line with a carriage return is not plain
    (`EvidenceTheorems.UnplainSubmodulesRejected`, `EvidenceTheorems.ReturnIsNotPlain`);
  - the runner takes a program with whitespace around its name, as a manifest may have it, and records it as it stands;
    the verifier refuses such a record (`EvidenceTheorems.UntrimmedProgramRejected` is one such run);
  - the verifier refuses the record of an executable, also of Git, that is an empty file before or after the run.

  The last three happen even to passed runs: their evidence is accepted exactly when the checkout was printed plainly by
  a Git that is no empty file and every attested program has a trimmed name and a file that is not empty
  (`EvidenceTheorems.PassedRunAccepted`).
- `docs/component-ranking.md` promises that identical paths with different owners remain separate components, and edges
  refer to components by their ids. But an id made unique by a hash is not checked again: for every hash, among enough
  owners of one path two components share an id (`ComponentIds.OwnersCollide`), and so do two components of different
  paths among four (`ComponentIds.IdsCollide`). No two share one exactly when the hash of every group whose candidate is
  taken makes an id that is neither an earlier candidate nor an earlier hashed id (`ComponentIds.IdsDistinct`).

## Model

| member | source | states |
|---|---|---|
| CycleSearch.Search.Visit | crates/chromifer-manifest/src/lib.rs:853-897 | the depth-first visit either finishes the label, leaving the stack as it was and every finished label in topological order, or returns a closed walk of real edges without inner repetition; the active labels are exactly the stack, so the position of an active label is always found; the unvisited labels decrease |
| CycleSearch.FindCycle | crates/chromifer-manifest/src/lib.rs:846-905 | a cycle is returned exactly when the graph has one; otherwise the completion order is topological and lists every label (the Mojo target graph uses the same search) |
| Graphs.TopologicalIsAcyclic | crates/chromifer-manifest/src/lib.rs:846-905 | an order in which every successor comes earlier excludes all closed walks |
| Graphs.AcyclicMeansIrreflexive | crates/chromifer-manifest/src/lib.rs:846-905 | no closed walk exists exactly when no label reaches itself |
| Validation.ModuleGraphEdges | crates/chromifer-manifest/src/lib.rs:846-905 | the graph searched for cycles has exactly the edges of known dependencies, those of the last module where an id repeats |
| Validation.CheckGate | crates/chromifer-manifest/src/lib.rs:573-581 | the errors added are exactly the unknown targets of the gate, in order, one for each |
| Validation.CheckDependencies | crates/chromifer-manifest/src/lib.rs:620-637 | the errors added are exactly the self, unknown and duplicate dependencies of the module, in order, one for each |
| Validation.CheckModule | crates/chromifer-manifest/src/lib.rs:603-637 | the errors added are exactly a missing gate, the unknown gates and the problems of the dependencies, in this order, one for each |
| Validation.NoProblemIsWellFormed | crates/chromifer-manifest/src/lib.rs:485-671 | a manifest is well formed exactly when it has none of the problems and no cycle |
| Validation.ValidateReferences | crates/chromifer-manifest/src/lib.rs:485-671 | the errors are exactly the problems of ids, gates, modules and dependencies, in this order and one for each place that causes one, and a real cycle behind them exactly when the module graph has one; there are none exactly for well-formed manifests |
| Planner.IsCovered | crates/chromifer-planner/src/lib.rs:68-127 | whether some declared gate of the module covers the target |
| Planner.AssessGates | crates/chromifer-planner/src/lib.rs:68-127 | exactly the missing-gate, unknown-gate and uncovered-target blockers are added, in order, one for each gate and target |
| Planner.AssessModuleReviews | crates/chromifer-planner/src/lib.rs:68-127 | one blocker for every unresolved review of the module is added, in order |
| Planner.AssessOutgoing | crates/chromifer-planner/src/lib.rs:151-185 | one outgoing dependency adds a blocker for each unresolved review and behind them one for its boundary, and is counted exactly when it crosses languages |
| Planner.AssessOutgoingBoundaries | crates/chromifer-planner/src/lib.rs:151-185 | the blockers and the number of crossing edges over all outgoing dependencies |
| Planner.AssessIncoming | crates/chromifer-planner/src/lib.rs:187-224 | one incoming dependency adds a blocker for each unresolved review and behind them one for its boundary, and is counted exactly when it crosses languages |
| Planner.AssessIncomingBoundaries | crates/chromifer-planner/src/lib.rs:187-224 | the blockers and the number of crossing edges over the dependencies of all modules on this one |
| Planner.AssessTransition | crates/chromifer-planner/src/lib.rs:68-127 | the blockers are exactly those of the declarative relation, in the order of the places that cause them and one for each; the step is allowed exactly when it is permitted, an unknown module is an error, and gates and crossing edges are counted |
| Blockers.PermittedIffUnblocked | crates/chromifer-planner/src/lib.rs:68-127 | the positive rule for a legal step holds exactly when no blocker applies |
| Blockers.CausedMeans | crates/chromifer-planner/src/lib.rs:68-224 | a list of the blockers caused at all places holds exactly what blocks the step |
| Blockers.CrossingsComplement | crates/chromifer-planner/src/lib.rs:169-214 | the counted edges and the edges marked Rust to or from Rust-owned modules are together all edges of the module with a declared other end |
| Blockers.AuditedEdgesCross | crates/chromifer-planner/src/lib.rs:151-224 | when no edge at the module is marked Rust, every edge with a declared other end is counted |
| Planner.MigrationFrontier | crates/chromifer-planner/src/lib.rs:129-149 | the frontier lists exactly the permitted next steps with the gates and crossing edges of their modules, by fewest crossing edges, then fewest gates, then the id, and with distinct ids each module once |
| Ordering.StringLeqMeans | crates/chromifer-planner/src/lib.rs:142-147 | of two texts in order one starts the other, or the first difference is a smaller character |
| Migration.RunLength | crates/chromifer-planner/src/lib.rs:68-149 | every run has as many steps as states advance, and at most two for each module |
| Migration.TerminalReachable | crates/chromifer-planner/src/lib.rs:68-149 | from every manifest some run ends where no step is legal |
| Migration.RunIsLater | crates/chromifer-manifest/src/lib.rs:305-313 | over a run nothing but states changes and no state moves backwards |
| Migration.RunKeepsSafe | crates/chromifer-planner/src/lib.rs:151-224 | if every edge at a Rust-owned module is audited with resolved reviews, every run keeps it so, with declared dependencies and the gate rule |
| Migration.AuditedStepCountsAll | crates/chromifer-planner/src/lib.rs:151-224 | a permitted step of a module whose edges are all audited counts every one of them |
| Migration.RunKeepsWellFormed | crates/chromifer-manifest/src/lib.rs:603-608 | a manifest that validates still validates after any run |
| Migration.StepKeepsOthersEnabled | crates/chromifer-planner/src/lib.rs:68-224 | no legal step disables a legal step of another module |
| Migration.StepsCommute | crates/chromifer-planner/src/lib.rs:68-224 | two legal steps of different modules can be taken in either order with the same result |
| Migration.FinishedRun | crates/chromifer-planner/src/lib.rs:68-224 | the state of every module at the end of a complete run is a function of the first manifest alone |
| Migration.Confluence | crates/chromifer-planner/src/lib.rs:68-224 | all complete runs end in the same manifest after the same number of steps |
| Migration.MigratedFromScratch | crates/chromifer-planner/src/lib.rs:68-224 | without Rust-owned modules at first, a module ends Rust-owned exactly when its gates cover every required target, its reviews are resolved and all its edges are audited and resolved |
| GnProject.SplitToolchainRoundTrip | crates/chromifer-gn/src/lib.rs:476-483 | a label is split exactly when it is a text with a toolchain in parentheses behind it, into the two, and otherwise kept |
| GnProject.DefaultToolchainMeans | crates/chromifer-gn/src/lib.rs:467-474 | a target has the default toolchain when it says so, or says nothing and its label names that toolchain or none |
| GnProject.AnswersMeans | crates/chromifer-gn/src/lib.rs:307-322 | a target answers to its label, and one of the default toolchain also to its label without a toolchain and with the default one |
| GnProject.BuildAliases | crates/chromifer-gn/src/lib.rs:307-332 | every alias maps to the one target that answers to it or is marked ambiguous |
| GnProject.ResolveLabelMeaning | crates/chromifer-gn/src/lib.rs:334-362 | a name resolves to itself or else to the only target that answers to it, and is unknown exactly when none does |
| GnProject.ResolveErrors | crates/chromifer-gn/src/lib.rs:334-362 | a name or dependency is ambiguous exactly when no target is labelled so and two answer to it, and a dependency is unknown exactly when none does |
| GnSelection.SelectEligible | crates/chromifer-gn/src/lib.rs:142-196 | the eligible targets, and every other target counted under one reason |
| GnSelection.ResolveRoot | crates/chromifer-gn/src/lib.rs:370-388 | a root resolves to an eligible target, or the error says truly whether it is unknown, ambiguous, of another toolchain or for tests only |
| GnSelection.SelectRootClosure | crates/chromifer-gn/src/lib.rs:364-403 | the least set with the roots that is closed under eligible dependencies, whatever the order of the stack; an error exactly when a root is not eligible or a reached target has an unresolvable dependency, and what the error says of the label is true |
| GnSelection.CollectOmitted | crates/chromifer-gn/src/lib.rs:405-430 | exactly the dependencies that leave the selection, with their reasons, label by label in the order of the labels and in the order of each, one for each dependency |
| GnSelection.OmitReasonIsTrue | crates/chromifer-gn/src/lib.rs:405-430 | behind a closed selection a recorded reason is true of the dependency |
| LabelIds.SanitizeId | crates/chromifer-gn/src/lib.rs:594-615 | the id is the maximal runs of letters and digits of the label in lower case, joined by single underscores, behind `module_` when a digit is first, or `root` when there are none |
| LabelIds.HexReads | crates/chromifer-gn/src/lib.rs:572-575 | the hexadecimal text of a hash stands for it |
| LabelIds.DecimalReads | crates/chromifer-gn/src/lib.rs:572-577 | the decimal text of a number stands for it, without zeros in front |
| IdAssignment.FreshId | crates/chromifer-gn/src/lib.rs:564-583 | the retry loop ends with an unused id: the base, the base with its hash, or that with the first free number |
| LabelIds.NumberedInjective | crates/chromifer-gn/src/lib.rs:564-583 | ids with different numbers differ |
| IdAssignment.AssignModuleIds | crates/chromifer-gn/src/lib.rs:564-592 | in the order of the labels every label gets the id made of its own words, with its hash when that is taken, and with the first free number when both are; no two labels get the same, for any hash function |
| IdAssignment.IdentityMeans | crates/chromifer-gn/src/lib.rs:585-592 | the label an id is made from lacks the default toolchain and nothing else |
| GnImport.MetaWalk.Collect | crates/chromifer-gn/src/lib.rs:432-465 | the recursive search handles a target and everything behind it once, collecting only what is reached through selected targets that are not imported |
| GnImport.EffectiveDependencies | crates/chromifer-gn/src/lib.rs:432-465 | the collected dependencies are exactly the other imported targets reached by a path whose inner targets are all selected and not imported |
| GnImport.FlattenDependencies | crates/chromifer-gn/src/lib.rs:197-226 | the flattened graph lists exactly those dependencies for every imported target, each once |
| Flattening.FlatteningPreservesReachability | crates/chromifer-gn/src/lib.rs:197-226 | between different imported targets reachability is the same in the flattened and in the selected graph |
| Flattening.FlatteningCycles | crates/chromifer-gn/src/lib.rs:197-226 | the flattened graph is acyclic exactly when no two different imported targets reach each other |
| GnImport.BuildModules | crates/chromifer-gn/src/lib.rs:197-226 | one module for every imported target, sorted, with the ids, states and boundaries of the plan |
| GnImport.PlanAcyclic | crates/chromifer-gn/src/lib.rs:142-305 | renaming labels to ids neither adds nor removes cycles |
| GnImport.PlanWellFormed | crates/chromifer-gn/src/lib.rs:142-305 | the imported manifest validates exactly when the flattened graph is acyclic |
| GnImport.SelectTargets | crates/chromifer-gn/src/lib.rs:142-160 | the selection is the eligible targets, or the closure of the roots when there are any; it fails exactly when a root is not eligible or a selected target has an unresolvable dependency |
| GnImport.MakePlan | crates/chromifer-gn/src/lib.rs:142-305 | the imported targets, their ids and first states, and the flattened graph of the selection |
| GnImport.ImportProject | crates/chromifer-gn/src/lib.rs:142-305 | the import fails on a label exactly when the selection does, for want of a gate exactly when a state is not legacy C++ and no gate is given, and in validation exactly when neither is so and the flattened graph has a cycle; otherwise its manifest is that of the planned modules, sorted, with the given project, baseline, gate and target |
| ImportMeaning.ImportMeans | crates/chromifer-gn/src/lib.rs:142-305 | the modules of an imported manifest are those of the selected targets that have sources or are wanted all the same, in the order of their ids, each with the state of its target, the given gate and its flattened dependencies in order, and the gate comes with its one required target |
| ImportMeaning.BoundaryMeans | crates/chromifer-gn/src/lib.rs:549-562 | an imported dependency is Rust exactly when states are inferred and both ends are Rust-owned, unclassified exactly when they are inferred and the ends are not both C++ or both Rust, and never audited |
| GnImport.ImportPreservesReachability | crates/chromifer-gn/src/lib.rs:142-305 | dependencies between imported targets are reachability in the selected GN graph, and an acyclic GN graph never fails validation |
| CfgParsing.CfgParser.ParseExpression | crates/chromifer-build/src/lib.rs:830-871 | the cursor reads one expression exactly as the grammar says and stands behind it, or reports its error |
| CfgParsing.CfgParser.ParseIdentifier | crates/chromifer-build/src/lib.rs:873-886 | the cursor reads one identifier behind whitespace |
| CfgParsing.CfgParser.ParseString | crates/chromifer-build/src/lib.rs:888-913 | the cursor reads one quoted string with its escapes |
| CfgParsing.ParseCondition | crates/chromifer-build/src/lib.rs:808-828 | the parser agrees with the recursive grammar on every input |
| CfgLayout.ConditionRoundTrip | crates/chromifer-build/src/lib.rs:808-957 | an expression written with any whitespace, trailing commas and escapes parses back to itself, consuming everything |
| CfgLayout.ConditionExact | crates/chromifer-build/src/lib.rs:808-957 | a text parses to an expression exactly when it is one of its written forms |
| CfgErrors.ConditionUnsupported | crates/chromifer-build/src/lib.rs:808-871 | a condition whose first word is not `cfg` is refused as unsupported, and any other only if it calls something that is no operator |
| CfgErrors.UnknownCallRefused | crates/chromifer-build/src/lib.rs:855-870 | a condition with a well-formed call of something that is no operator is unsupported, whatever follows the call |
| CfgErrors.UnknownCallRead | crates/chromifer-build/src/lib.rs:855-870 | a call of something that is no operator is unsupported, and `not` of several arguments is a syntax error |
| CfgRender.ReadCondition | crates/chromifer-build/src/lib.rs:1033-1047 | a rendered condition lexes and parses as GN to the intended tree: parentheses and precedence are right |
| CfgRender.RenderIsShape | crates/chromifer-build/src/lib.rs:959-1031 | rendering fails exactly for the unsupported expressions and otherwise gives the text of a regular condition |
| CfgRender.RenderMeans | crates/chromifer-build/src/lib.rs:959-1047 | the rendered condition evaluates to the truth of the expression in every scope that agrees with it on the leaves |
| CfgTranslation.TranslationMeans | crates/chromifer-build/src/lib.rs:808-1047 | for every accepted condition text the GN text evaluates to the truth of the condition |
| CfgTranslation.TranslateTargetCondition | crates/chromifer-build/src/lib.rs:808-828 | a condition is accepted exactly when it parses and every leaf of it holds on some platform; what is emitted evaluates to its truth in every scope that agrees on the leaves; a condition that parses is refused only as unsupported |
| CfgPlatforms.LeafTableExact | crates/chromifer-build/src/lib.rs:959-1031 | on every platform the GN condition of a supported leaf is right but for three leaves, and wrong for these |
| CfgPlatforms.SupportedLeaf | crates/chromifer-build/src/lib.rs:959-1031 | a leaf has a GN condition exactly when it holds on some platform |
| CfgPlatforms.PlatformLeavesAgree | crates/chromifer-build/src/lib.rs:959-1031 | an expression without those leaves agrees with the platform on all its leaves |
| DependencySets.SplitMapped | crates/chromifer-build/src/lib.rs:1487-1513 | the labels without a condition and the labels of every condition, sorted and distinct, none lost |
| DependencySets.RenderDependencySet | crates/chromifer-build/src/lib.rs:1515-1535 | the emitted text is the list and one block for every condition in order |
| DependencySets.RenderDependencies | crates/chromifer-build/src/lib.rs:1391-1455 | splitting and rendering the dependencies of one visibility with extra labels |
| DependencyMeaning.SetTextYields | crates/chromifer-build/src/lib.rs:1515-1560 | the emitted statements lex, parse and execute to the unconditional labels and those of the true blocks |
| DependencyMeaning.RenderedDependencies | crates/chromifer-build/src/lib.rs:1487-1535 | the emitted list evaluates to exactly the labels of the dependencies whose condition holds or is absent |
| Features.ExpandFeature | crates/chromifer-build/src/lib.rs:1286-1341 | one feature queues exactly the features it enables and activates exactly the optional dependencies it names |
| Features.ResolveFeatures | crates/chromifer-build/src/lib.rs:1286-1341 | the least closed feature set and exactly the optional dependencies its features activate; an error exactly when a needed feature is unknown or forwards |
| FeatureMeaning.ResolutionMeans | crates/chromifer-build/src/lib.rs:1286-1341 | the features are those reached from the selected ones and the default by plain values that name features; the optional dependencies are those an enabled feature asks for by its own name, by `dep:` or by a plain value that names no feature; the error names a reached feature that is not declared or lists a value with a slash |
| Texts.TrimmedMeans | crates/chromifer-evidence/src/lib.rs:873-880 | a text is accepted as trimmed exactly when trimming leaves it alone and it is not empty |
| EvidenceModel.LogComponents | crates/chromifer-evidence/src/lib.rs:1090-1121 | the log path of a digest has exactly two components and never leaves the directory |
| EvidenceModel.ComponentsRead | crates/chromifer-evidence/src/lib.rs:1090-1103 | a path of proper names has exactly them as its components |
| GitStatus.CountEntries | crates/chromifer-evidence/src/lib.rs:752-777 | porcelain records are counted, a renamed one with its second path, or the first that is unknown or incomplete is named |
| GitStatus.RecordsAreWhole | crates/chromifer-evidence/src/lib.rs:752-777 | the count is the number of whole records, and there is one exactly when the fields are a sequence of whole records |
| GitStatus.FieldsFound | crates/chromifer-evidence/src/lib.rs:752-756 | fields without NUL bytes, each ended by one, are found again |
| GitStatus.RecordsBreak | crates/chromifer-evidence/src/lib.rs:752-777 | the fault found is that of the first record behind whole ones, an unknown kind or a missing second path |
| GitStatus.CaptureErrorText | crates/chromifer-evidence/src/lib.rs:637-750 | the text of a failed capture is trimmed but for a Git command that fails and prints nothing |
| GitStatus.CaptureSnapshot | crates/chromifer-evidence/src/lib.rs:637-695 | from the raw answers of the file system and Git, the snapshot is taken when all of them can be used; otherwise the first that cannot is the failure |
| GitCaptures.CaptureMeans | crates/chromifer-evidence/src/lib.rs:637-777 | a snapshot holds the canonical root with slashes, the trimmed revision and branch, and the digest, number of records and lines of the status and submodule outputs, each from its own command, all of which ended well; a failure is true of the first answer that cannot be used |
| GitStatus.SnapshotValidity | crates/chromifer-evidence/src/lib.rs:818-854 | a captured snapshot passes the verifier exactly when Git printed a full revision, no status or one with a record, and submodule lines that decode and end with bare line feeds |
| GitStatus.RejoinedIsOutput | crates/chromifer-evidence/src/lib.rs:844-852 | the recorded submodule lines give the output back exactly when it decodes and all its lines end plainly |
| EvidenceStore.VerifiesInExtension | crates/chromifer-evidence/src/lib.rs:1090-1121 | an artifact that verifies keeps verifying while the directory grows |
| EvidenceStore.StorableMeans | crates/chromifer-evidence/src/lib.rs:1613-1643 | logs can be stored one after the other exactly when no path of theirs holds other bytes and no two of them collide |
| EvidenceStore.OutputDirectory.WriteContentAddressed | crates/chromifer-evidence/src/lib.rs:1613-1643 | a file is created or left alone, never overwritten; refused exactly when it holds other bytes |
| EvidenceStore.OutputDirectory.PersistOutput | crates/chromifer-evidence/src/lib.rs:1593-1610 | a stored log verifies at once for every tail limit; storing fails exactly when its path holds other bytes |
| EvidenceStore.ArtifactMeans | crates/chromifer-evidence/src/lib.rs:1593-1610 | a log is described by its digest, its length and as many of its last bytes as the limit allows |
| EvidenceRun.SelectGates | crates/chromifer-evidence/src/lib.rs:1123-1152 | the requested gates, sorted and each once; an error exactly when something requested is unknown or nothing is requested, and it names what is |
| GateInputs.VerifyGateInputs | crates/chromifer-evidence/src/lib.rs:1329-1381 | from the raw answers of the file system there is no problem exactly when every input is a file in the working directory, no link, with the digest of the manifest |
| GateInputs.ProblemFromMeans | crates/chromifer-evidence/src/lib.rs:1329-1381 | the problem reported is what is wrong with the first input that does not match |
| GateInputs.ProblemMeans | crates/chromifer-evidence/src/lib.rs:1329-1381 | an input matches when it is no link, resolves to a file in the working directory and has the digest of the manifest, and otherwise the problem reported is true and everything looked at before is in order |
| GateInputs.InputProblemText | crates/chromifer-evidence/src/lib.rs:1329-1381 | with digests a manifest may have and trimmed errors of the operating system, every problem has a trimmed text |
| EvidenceRun.InputsDecide | crates/chromifer-evidence/src/lib.rs:1179-1254 | with a missing or changed input the program is not started and the gate is recorded as failed to launch; an input that changes while it runs keeps the gate from passing |
| EvidenceRun.RunProgram | crates/chromifer-evidence/src/lib.rs:1154-1300 | from the raw answers, the inputs being checked before and after, the status, exit code, executable and errors of a gate are those of the decision table |
| EvidenceRun.ExecuteGate | crates/chromifer-evidence/src/lib.rs:1154-1317 | the evidence of a gate is that of the decision table with both logs described; it fails exactly when a log cannot be stored |
| GateRecords.StatusMeans | crates/chromifer-evidence/src/lib.rs:1206-1300 | a gate failed to launch exactly when its program was not started, timed out exactly when it was killed at the limit, passed exactly when it ended with zero in time with inputs and executable unchanged, and failed exactly when it ended in time otherwise |
| GateRecords.ErrorsMean | crates/chromifer-evidence/src/lib.rs:1179-1280 | the recorded errors are that of starting the program, that of the inputs before or else behind it, and that of resolving or identifying an attested program |
| GateRecords.ExecutableMeans | crates/chromifer-evidence/src/lib.rs:1383-1435 | an attested program is recorded exactly when it was found and could be identified again, with both identities |
| GateRecords.LogsMean | crates/chromifer-evidence/src/lib.rs:1283-1327 | standard output is stored as it is, and standard error with the recorded errors behind it, each on a line of its own |
| EvidenceRun.FinishCheckout | crates/chromifer-evidence/src/lib.rs:563-635 | the checkout record holds the states captured before and after and all errors in order |
| CheckoutRecords.CheckoutMeans | crates/chromifer-evidence/src/lib.rs:528-635 | the record holds what was captured before and after and the identities of Git; it has no error exactly when both states could be captured, are equal and as asked for, and Git is the same file; otherwise all errors in order, with semicolons between them |
| CheckoutRecords.PreflightErrorMeans | crates/chromifer-evidence/src/lib.rs:528-561 | gates are kept from running exactly when the checkout is attested and Git is not found, its state cannot be captured, or that is not as asked for |
| EvidenceRun.ExecuteAll | crates/chromifer-evidence/src/lib.rs:303-318 | gates run in order, stopping behind the first failure only when told to, the others being skipped; it fails exactly when a log of a reached gate cannot be stored |
| EvidenceRun.RunGates | crates/chromifer-evidence/src/lib.rs:274-383 | exactly when a run fails and with which error: bad options, no directory, a bad selection, or a path named by a digest that holds other bytes; otherwise the stored bundle is the record of the run, its file is named by its digest and all its logs verify; the directory only grows in any case |
| EvidenceVerify.CheckSets | crates/chromifer-evidence/src/lib.rs:432-443 | accepted exactly when the selected gates are the executed and the skipped ones, each once |
| EvidenceVerify.CheckGate | crates/chromifer-evidence/src/lib.rs:451-471 | no error exactly when the gate is defined as recorded and both logs verify; otherwise the first of these that is not so |
| EvidenceVerify.CheckGates | crates/chromifer-evidence/src/lib.rs:451-472 | accepted exactly when every gate matches, and otherwise the fault of the first that does not; the log paths and the passed gates are collected |
| EvidenceVerify.VerifyLive | crates/chromifer-evidence/src/lib.rs:1037-1088 | no error exactly when Git, the checkout and every recorded executable are now as recorded at the end; otherwise the checkout, or the first gate whose executable differs |
| EvidenceVerify.VerifyEvidence | crates/chromifer-evidence/src/lib.rs:394-506 | a bundle is accepted exactly when it is named by its digest, the declarative acceptance holds of it, and a machine that is given is as it says; the summary counts what it holds; a refused bundle gets the error of the first check that fails |
| EvidenceMeaning.AcceptsMeans | crates/chromifer-evidence/src/lib.rs:394-506 | a bundle is accepted exactly when schema, project and digest are those of the manifest, the checkout and every gate are consistent with the policy, every selected gate is executed or skipped once, every executed one is defined as recorded with both logs in the directory, and it passed exactly when nothing failed or was skipped |
| EvidenceMeaning.AttestationMeans | crates/chromifer-evidence/src/lib.rs:856-1035 | nothing is wrong with the attestations exactly when checkout and gates say what they must, and otherwise the error is true |
| EvidenceMeaning.LogMeans | crates/chromifer-evidence/src/lib.rs:1090-1121 | a log verifies exactly when it is the file named by its digest, with that digest and length, and its tail is what follows the given byte |
| EvidenceMeaning.LogErrorMeans | crates/chromifer-evidence/src/lib.rs:1090-1121 | what is said to be wrong with a log is |
| EvidenceTheorems.AcceptanceBinds | crates/chromifer-evidence/src/lib.rs:394-506 | evidence that is accepted twice under one name has, but for colliding digests, the same bytes and the same manifest, and every executed gate has the same definition and logs |
| EvidenceTheorems.PassingEvidence | crates/chromifer-evidence/src/lib.rs:856-1035 | accepted passing evidence shows that every selected gate was executed, exited cleanly without any error, with stored logs and, where attested, an unchanged executable and checkout |
| EvidenceTheorems.GateAgreement | crates/chromifer-evidence/src/lib.rs:1154-1317 | the record of a gate is consistent exactly when its inputs did not fail before a program that must be attested, and an attested program has a trimmed name and a file that is never empty |
| EvidenceTheorems.CheckoutAgreement | crates/chromifer-evidence/src/lib.rs:540-635 | the checkout record of a run is consistent exactly when Git did not fail silently, every recorded snapshot was printed plainly, and Git is no empty file |
| EvidenceTheorems.ReachedIsRecorded | crates/chromifer-evidence/src/lib.rs:303-318 | exactly the gates that are reached are recorded: the checkout is in order and, when failing fast, all gates before pass |
| EvidenceTheorems.Agreement | crates/chromifer-evidence/src/lib.rs:274-506 | the verifier accepts the evidence of a run exactly when every gate that is reached can be recorded, Git did not fail silently and is no empty file, and the checkout was printed plainly |
| EvidenceTheorems.PassedRunAccepted | crates/chromifer-evidence/src/lib.rs:274-506 | the evidence of a passed run is accepted exactly when the attested checkout was printed plainly by a Git that is no empty file, and every attested program has a trimmed name and a file that is not empty |
| EvidenceTheorems.PassedRunInputs | crates/chromifer-evidence/src/lib.rs:1179-1254 | in a passed run every gate found exactly the files the manifest names, before and after its program ended with zero |
| EvidenceTheorems.UnchangedIsCurrent | crates/chromifer-evidence/src/lib.rs:1037-1088 | when nothing changed since the run, the comparison with the machine succeeds exactly when an attested checkout was recorded at both ends |
| EvidenceTheorems.PassedRunRecorded | crates/chromifer-evidence/src/lib.rs:563-635 | an attested checkout of a passed run was recorded at both ends |
| EvidenceTheorems.FailedGitAccepted | crates/chromifer-evidence/src/lib.rs:585-713 | when a Git command fails at the start or the end of a run, the evidence is accepted exactly when it printed something or a later error follows |
| EvidenceTheorems.UnplainSubmodulesRejected | crates/chromifer-evidence/src/lib.rs:844-852 | evidence of a passed run is rejected when the submodule output does not decode or a line of it does not end plainly |
| EvidenceTheorems.ReturnIsNotPlain | crates/chromifer-evidence/src/lib.rs:844-852 | a line that ends with a carriage return and a line feed is such an output |
| EvidenceTheorems.ChangedInputRejected | crates/chromifer-evidence/src/lib.rs:1179-1196 | a concrete run of a well-formed manifest, with an input of another digest and stored logs, whose evidence the verifier rejects |
| EvidenceTheorems.UntrimmedProgramRejected | crates/chromifer-evidence/src/lib.rs:794-803 | a concrete passed run of a well-formed manifest, with a program that ends in a space and stored logs, whose evidence the verifier rejects |
| EvidenceTheorems.AcceptedInExtension | crates/chromifer-evidence/src/lib.rs:1613-1643 | evidence accepted once is accepted in every directory that holds the same files and more |
| EvidenceTheorems.StoredEvidenceStands | crates/chromifer-evidence/src/lib.rs:274-506 | the stored file of a run decodes to its bundle, its logs verify, and it is accepted exactly under the condition of the agreement |
| EvidenceTheorems.RunSequence | crates/chromifer-evidence/src/lib.rs:274-383 | after any sequence of runs in one directory, failed ones among them, the evidence of every run that succeeded stands, and whatever was accepted before is still accepted |
| ConditionalModules.InheritedConditional | crates/chromifer-cabi/src/lib.rs:594-641 | a conditional parent makes every declaration conditional and changes nothing else |
| SourceItems.ExternalsMean | crates/chromifer-cabi/src/lib.rs:592-644 | the declarations are exactly those at some place of the item tree, below the directories of the inline modules around them and conditional when one of these or they themselves are |
| ConditionalModules.BaseDirectoryMeans | crates/chromifer-cabi/src/lib.rs:646-658 | modules are looked for beside a `lib`, `main` or `mod` file and otherwise in the directory named like the file |
| ConditionalModules.PropagateConditionalModules | crates/chromifer-cabi/src/lib.rs:594-641 | the set grows by exactly the available files of the conditional declarations; an error exactly when one of them has an explicit path, and it names one |
| ConditionalModules.ScanFile | crates/chromifer-cabi/src/lib.rs:567-586 | one file adds only conditional sources and adds nothing exactly where the set is stable |
| ConditionalModules.ConditionalModuleSources | crates/chromifer-cabi/src/lib.rs:561-592 | the least set of conditional sources for any order of files; an error exactly on a path conflict in that set, and it names one |
| AbiExports.RegisterMeans | crates/chromifer-cabi/src/lib.rs:660-740 | registering exports one by one succeeds exactly when none is a problem and no name repeats, and locates every name; otherwise it stops at the first fault, with what is wrong there |
| AbiExports.CollectExports | crates/chromifer-cabi/src/lib.rs:660-740 | the exports of an item tree are registered in order up to the first problem |
| SourceItems.MarkedMean | crates/chromifer-cabi/src/lib.rs:660-733 | the exports collected are exactly the functions marked at some place of the item tree, conditional when they or an inline module around them are |
| AbiExports.DiscoverExports | crates/chromifer-cabi/src/lib.rs:318-327 | the table of all exports, or an error exactly when a path conflicts or an export is conditional, malformed or duplicated; the error is that of a conflicting declaration or of the first export at fault |
| AbiExports.ConditionalSourcesExportNothing | crates/chromifer-cabi/src/lib.rs:660-740 | when a package has exports, no conditional source marks a function |
| Comments.ScanCharacter | crates/chromifer-migration/src/exposure_measure.rs:392-473 | one step of the automaton on its state variables; inside a block comment the depth is at least one |
| Comments.StripComments | crates/chromifer-migration/src/exposure_measure.rs:376-477 | the automaton computes the stripped text |
| Comments.StripKeepsPositions | crates/chromifer-migration/src/exposure_measure.rs:376-477 | the length and every line feed stay, every character stays or becomes a space |
| Comments.StripIdempotent | crates/chromifer-migration/src/exposure_measure.rs:376-477 | stripping twice is stripping once, whichever way comments nest in either pass |
| CommentSegments.StripSegments | crates/chromifer-migration/src/exposure_measure.rs:376-477 | exactly the comments of a source are blanked, nested ones as trees, if and only if the scan is in code at every comment and finds no other comment |
| CommentSegments.UnderstoodIsClear | crates/chromifer-migration/src/exposure_measure.rs:376-477 | that is so in every source of code, string and character literals, whatever the literals contain, and comments |
| CommentSegments.StripByParity | crates/chromifer-migration/src/exposure_measure.rs:419-423 | with lifetimes and digit separators, exactly the comments are blanked if and only if every comment is behind an even number of their apostrophes |
| CommentSegments.LifetimeKeepsComment | crates/chromifer-migration/src/exposure_measure.rs:419-423 | a source with one lifetime whose comment is not blanked |
| AuthoredLines.AuthoredMeans | crates/chromifer-migration/src/exposure_measure.rs:368-374 | a line number is reported exactly when the line holds a character that is not whitespace |
| AuthoredLines.AuthoredIsCode | crates/chromifer-migration/src/exposure_measure.rs:368-477 | where the scan is in code at every comment, a line is reported exactly when it is not blank outside of comments |
| AuthoredLines.OddCommentAuthored | crates/chromifer-migration/src/exposure_measure.rs:368-477 | the line of the first comment behind an odd number of lone apostrophes is reported even if it holds nothing else |
| AuthoredLines.AuthoredByParity | crates/chromifer-migration/src/exposure_measure.rs:368-477 | where comments have lines of their own, the lines that count are the lines with code if and only if every comment is behind an even number of lone apostrophes |
| CanonicalJson.JsonWriter.Write | crates/chromifer-checkout/src/lib.rs:837-870 | the writer appends exactly the canonical text |
| CanonicalJson.CanonicalText | crates/chromifer-checkout/src/lib.rs:836-873 | the canonical text of a value |
| JsonReading.ReadPrinted | crates/chromifer-checkout/src/lib.rs:836-873 | reading a printed value gives it back together with what follows |
| JsonReading.SameIsEqualNormal | crates/chromifer-checkout/src/lib.rs:853-868 | values are equal with objects as maps exactly when they are equal with members sorted |
| JsonReading.CanonicalExact | crates/chromifer-checkout/src/lib.rs:836-873 | two values have the same canonical text exactly when they are equal with objects read as maps (sections 4 and 7 of RFC 8259) |
| JsonReading.CanonicalRoundTrip | crates/chromifer-checkout/src/lib.rs:836-873 | the canonical text reads back to the same value, with the keys of every object distinct and ascending |
| MojomLexing.LexOne | crates/chromifer-mojo/src/lib.rs:704-808 | one step of the lexer yields what is there and the line behind it |
| MojomLexing.LexMojom | crates/chromifer-mojo/src/lib.rs:699-812 | for every text, each token's line is one more than the line feeds before it, and an error is on the line where its lexeme starts |
| MojomFaults.LexicalFaultMeans | crates/chromifer-mojo/src/lib.rs:699-812 | a lexical error is true of the text where it is reported: a comment that is nowhere closed, or a string that does not end on its line or holds a wrong escape |
| MojomPrinting.LexPrinted | crates/chromifer-mojo/src/lib.rs:699-812 | printed tokens with any whitespace and comments between them are lexed back at their positions |
| MojomElements.ElementsExact | crates/chromifer-mojo/src/lib.rs:560-697 | a token list is spelled by at most one list of elements, and that is what is read |
| MojomElements.ElementsAtDepthZero | crates/chromifer-mojo/src/lib.rs:560-697 | braces of a file that is read are balanced and every element starts at depth zero |
| MojomParsing.StatementAt | crates/chromifer-mojo/src/lib.rs:592-673 | one statement is read exactly as the grammar of elements says, or its fault is reported on its line |
| MojomParsing.ParseToken | crates/chromifer-mojo/src/lib.rs:568-675 | one step keeps what is known about the braces, the elements read, their records and the first fault still ahead, or reports that fault |
| MojomParsing.FaultlessMeans | crates/chromifer-mojo/src/lib.rs:560-697 | a token list has no fault exactly when it is read as elements with at most one module name |
| MojomFaults.GrammaticalFaultMeans | crates/chromifer-mojo/src/lib.rs:560-697 | well-formed elements stand before the first fault, and what it says of the token there is true: an unmatched or unclosed brace, a second module name, or a statement that cannot be read |
| MojomParsing.ParseMojom | crates/chromifer-mojo/src/lib.rs:560-697 | parsing succeeds exactly on files of elements with at most one module name, and records exactly their imports and declarations with their lines, sorted; otherwise the first fault is reported on its line, an open body on the last |
| MojomReading.ReadMojom | crates/chromifer-mojo/src/lib.rs:560-697 | from the text: the first lexical error on its line, or else the parse of its tokens |
| MojomReading.PrintedFileRead | crates/chromifer-mojo/src/lib.rs:560-812 | a file printed from elements, with any whitespace and comments, is read as their imports and declarations, each on the line of its first token; what follows them wrongly is the error, on the line where it starts |
| MojomReading.PrintedFileExact | crates/chromifer-mojo/src/lib.rs:560-812 | a printed file is read exactly when its tokens spell elements with at most one module name |
| ComponentGroups.BuildGroups | crates/chromifer-components/src/lib.rs:321-342 | the modules by owner and path, keys sorted and distinct, modules sorted within |
| ComponentGroups.GroupsPartition | crates/chromifer-components/src/lib.rs:321-342 | no module is lost or in two groups |
| ComponentGroups.MapModulesToComponents | crates/chromifer-components/src/lib.rs:452-466 | every grouped module is placed in a component of a group that holds it |
| ComponentGroups.PlacedWhenWellFormed | crates/chromifer-components/src/lib.rs:452-466 | in a well-formed manifest every module and dependency target has a component |
| ComponentEdges.ApplyIncidentEdge | crates/chromifer-components/src/lib.rs:534-556 | one edge adds its neighbour, counts each of its boundaries once as audited, unaudited or Rust, and adds its reviews and evidence |
| ComponentEdges.ScanModule | crates/chromifer-components/src/lib.rs:476-510 | the dependencies of one module are added to exactly the drafts and metrics they belong to, each review and evidence item once |
| ComponentEdges.BuildComponentEdges | crates/chromifer-components/src/lib.rs:468-532 | the edges are exactly the linked pairs of different components with their counts, sorted, and the metrics of every component are those of its own links and of its edges |
| ComponentEdges.DependenciesConserved | crates/chromifer-components/src/lib.rs:468-532 | the module edges of all component edges and the dependencies inside of components add up to all dependencies |
| ComponentEdges.NeighboursConserved | crates/chromifer-components/src/lib.rs:468-556 | summed over components, outgoing and incoming neighbours are each as many as the edges |
| ComponentMeaning.EdgesCounted | crates/chromifer-components/src/lib.rs:468-532 | there is an edge exactly where some dependency joins two components; its numbers are the numbers of positions of these dependencies, of their evidence items and of their open reviews, its boundaries are theirs in the order of the kinds, it crosses owners exactly when they differ, and edges ascend by their ends |
| ComponentMeaning.MetricsCounted | crates/chromifer-components/src/lib.rs:468-556 | the metrics of a component are its neighbours, the numbers of boundaries on its edges by their kind, the number of edges to other owners, and the numbers of open reviews and evidence items on its modules and on all dependencies that begin or end in it |
| ComponentMeaning.ItemsConserved | crates/chromifer-components/src/lib.rs:468-532 | the evidence items of all edges and inside of components add up to those of all dependencies, and so do the open reviews |
| ComponentMeaning.ModuleReviewsConserved | crates/chromifer-components/src/lib.rs:476-489 | every open review on a module belongs to exactly one component |
| ComponentIds.SanitizeId | crates/chromifer-components/src/lib.rs:419-441 | the loop over the characters computes the sanitised text, of which the next three rows say what it is |
| ComponentIds.SanitizedIsId | crates/chromifer-components/src/lib.rs:419-441 | a sanitised text starts with a letter, ends with a letter or digit and has single underscores between |
| ComponentIds.SanitizedKeepsIds | crates/chromifer-components/src/lib.rs:419-441 | such texts are left alone |
| ComponentIds.SanitizedLetters | crates/chromifer-components/src/lib.rs:419-441 | the letters and digits of the text are kept in order, behind `component` when there are none or a digit is first |
| ComponentIds.SanitizedWords | crates/chromifer-components/src/lib.rs:419-441 | the sanitised text is the maximal runs of letters and digits in lower case, joined by single underscores |
| ComponentIds.AssignComponentIds | crates/chromifer-components/src/lib.rs:390-417 | each id is what the groups alone determine: the candidate of its group, with the hash when an earlier candidate or hashed id has it |
| ComponentIds.UsedIds | crates/chromifer-components/src/lib.rs:398-416 | the ids in use are the candidates so far and the hashed ids of those that were taken |
| ComponentIds.IdsDistinct | crates/chromifer-components/src/lib.rs:390-417 | no two components have one id exactly when the hash of every group whose candidate is taken makes an id that no earlier group has as its candidate or hashed id |
| ComponentIds.SharedCandidate | crates/chromifer-components/src/lib.rs:408-413 | groups with one candidate that is taken share an id exactly when their hashes are equal |
| ComponentIds.OwnersCollide | crates/chromifer-components/src/lib.rs:390-450 | for every 32-bit hash, among enough owners of one path two components have one id |
| ComponentIds.IdsCollide | crates/chromifer-components/src/lib.rs:390-417 | for every hash, four modules in four groups of which two get one id |
| ComponentAnalysis.AnalyzeEdges | crates/chromifer-components/src/lib.rs:247-266 | from the manifest to the edges and metrics, each of which says what it counts; a well-formed manifest loses no module, dependency, evidence item, open review or edge, whatever the owners, paths and hashes |
| ComponentAnalysis.OwnerListed | crates/chromifer-components/src/lib.rs:259-263 | a component is owned by the owner of its group, the last one where components share an id |

## Left out

- File, Git, Cargo, GN, Ninja and process calls, clocks, timeouts, temporary files and symbolic links: their results are parameters, and errors in reading or writing files end a run without a bundle.
- SHA-256, Ed25519, FNV: hashes are arbitrary functions; the 32-bit hash of the importer is any function to 32 bits.
- Decoding of TOML, JSON and Rust syntax: the models start from decoded values; a Rust source is a tree of items with the marks the scans look at.
- Error message wording and the byte offsets in `cfg` errors; errors are kinds with the ids they name.
- Validation.ValidateReferences: the checks on text fields, source locations, owners and gate commands are not modelled, because each looks at one field alone.
- CfgPlatforms.LeafTableExact: which Rust target a GN platform builds for is the model's own table, because the repository does not state it.
- GnImport.ImportProject: which targets have sources and which state they start in are parameters, because they come from file names and command-line options; of validation it has the reference checks.
- GnLanguage: only the part of GN that generated files use.
- EvidenceTheorems.Agreement: takes absolute paths, digests and trimmed texts of the operating system's errors as hypotheses, because they are not the program's; of Git, of executables and of the manifest beyond its input digests it takes nothing.
- EvidenceVerify.VerifyLive: whether a program still resolves by its recorded paths and what its file holds is one answer of the machine.
- EvidenceRun.ExecutableOf: paths of executables are taken as they are displayed; replacing backslashes in them is left out.
- EvidenceRun.Preflight: the text for a dirty checkout leaves out the number of entries.
- CommentSegments: block comments end in the source; sources that end inside of one are covered by the position and idempotence laws alone.
- CanonicalJson: works on characters; UTF-8 encoding is injective and left out. A number is its decimal text.
- MojomLexing.LexMojom: a text is the list of its UTF-8 bytes, each a character of that code, as the program reads it; the value of a string is then its UTF-8 form.
- ComponentAnalysis.AnalyzeEdges: owners and paths of modules are parameters, because they come from annotations and file names; the hash of ids is any function to 32 bits.
- Scores, rankings, coverage, reports, the command line, attestation payloads and signing.
