# Models of the compiler tools

This project models the parts of the repository's tools where a small mistake would be silent, and
proves what those parts are for. `dafny verify dfyconfig.toml` checks all of it.

**SSA copy lowering** (`tools/vm_emit.rs`; files `Ssa{Syntax,Semantics}` and `Copy*`). The canonical VM has
no span copy, so three passes rewrite `SequenceCopy` into chains of projections and replacements, a
rebuild of the destination, or two checked empty views. `SsaSemantics` gives a module its meaning:
blocks, calls, effects, traps, failures, and a number of steps. A copy fails exactly when a window leaves
its sequence; a projection or replacement exactly when its index does. `CopyLowering` says what the passes
do, `CopyPasses` does it in loops over a module in place, and the rest proves that the outcome means the
same. Operations the passes do not touch, and all terminators, are arbitrary. `CopyCarriage`, `CopyExpansion` and
`CopyRecords` say, without the functions that emit code, what stands in the place of each copy and what is recorded of it.

**The artifact codec** (`tools/vm-artifact-codec`, `tools/account_vm_artifact.py`; files `Codec*`). What a value emits is
interned into a table of shared nodes, renumbered in place, validated under expansion limits, and decoded,
as an untyped value or at a type. The table that results is defined once without the algorithm: its i-th node is the i-th distinct subterm in
sorted-key postorder.

**Reachability projections** (`tools/vm_emit.rs`, `tools/stage0-probe/src/main.rs`; files `Reachability`,
`CallGraph`, `ApplicationLowering`, `BackendProjection`, `ProjectionAgreement`, `SsaProjection`, `SsaTables`,
`SsaHistory`, `SsaClosure`, `SsaIdempotence`, `SsaCommutation`, `ObligationCommutation`). Every worklist is proved against
one notion: the least set that contains the roots and is closed under the edges, equivalently what paths
reach. Program validation, SSA validation and lowering are parameters.

**The Unicode classifier** (`tools/generate_unicode_classifier.rs`; files `UnicodeTables`,
`UnicodeClassifier`). From an arbitrary predicate to packed tables and a twelve-step search, and back.

**The probe caches** (`tools/stage0-probe/src/cache_retention.rs`, `main.rs`; files `CacheRetention`,
`CacheNames`, `CacheDirectory`, `CacheLeases`, `FrontendReuse`). Pruning and publishing in a directory, the lock as a state
machine over any interleaving in which any process may die at any step, and the reuse of elaborated programs.

**Function extraction** (`tools/mncs_source.py`; files `SourceTokens`, `TokenMeaning`, `FunctionExtraction`). A lexer,
what its tokens are without scanning, and the cutting of one definition out of a source.

What the code does and its own text does not say, or says otherwise:

- The tool that checks artifacts asserts `old_ssa == new_ssa` to show the encoding lossless. Python's `==` takes
  `True` for `1`, `False` for `0`, `1.0` for `1` and `-0.0` for `0.0`, so the check confuses modules that differ in
  such ways, and no others (`CodecIdentity.ExpansionComparesValues`, `CodecIdentity.DifferentModulesCompareEqual`).
- The codec calls itself lossless and its order independent of the order of fields. The two floating-point zeros are
  equal nodes, so the first one emitted stands for both. Within the decoder's limits a value comes back, up to the
  order of fields, exactly when it does not hold both zeros (`CodecRoundTrip.LosslessExactly`,
  `CodecRoundTrip.BothZerosAreNotKept`), and the order of emission does not show in a value's graph exactly when it
  does not change which zero comes first (`CodecIdentity.EmissionOrderShows`, `CodecIdentity.TwoOrdersTwoGraphs`).
- At a type, a value is lost also where it emits null: reals that are infinite or not a number, and optional values
  that are there and emit null; nothing else is lost (`CodecTyped.TypedRoundTrip`, `CodecTyped.NullsAreNotKept`).
- The comment on the third lowering pass speaks of dynamic offsets; the code also lowers an empty copy both of
  whose offsets are constant, which the second pass left.
- Dropping unreachable bodies before lowering gives the same module as dropping lowered functions after it exactly
  when no obligation kept in the closure rests on one of a function outside it, and no trace entry or transformation
  of such a function is about something inside (`ObligationCommutation.ProjectionCommutes`). In `ObligationCommutation.ExampleLeaks` the two orders give
  different modules; the lowering there is hypothetical, one that lets a function's obligation rest on one of an
  unrelated function.
- Retention adds file sizes in 64 bits, saturating. For a directory's entries it leaves what the limits allow,
  whatever the limits and the clock, exactly when the sizes add up within 64 bits
  (`CacheRetention.SaturationExactly`); for one choice of limits, exactly when what it leaves is within the byte
  limit, and it errs in no other way (`CacheRetention.EvictionErrsByBytesOnly`). A directory that stays over its
  limit is `CacheDirectory.ExampleStaysOver`.
- A program one of whose modules was requested under two names is recorded and never reused
  (`FrontendReuse.ReuseIsExact`, `FrontendReuse.TwoNamesNeverMatch`).
- Re-encoding a decoded graph gives that graph only if it has no equal nodes and is numbered in walk order;
  validation does not ask for that (`CodecIdentity.Reencoding`, `CodecIdentity.SharingIsNotRequired`).
- An extracted definition's body balances its braces; its signature may hold braces inside of its parentheses and
  need not (`FunctionExtraction.BracesBalance`, `FunctionExtraction.BracesMayNotBalance`).

## Model

| member | source | states |
|---|---|---|
| CopyPreservation.LoweringPreservesMeaning | tools/vm_emit.rs:2299-2319 | For every well-formed program, every callable, arguments, effect trace, machine and step count: after the three passes the run returns the same values after the same effects, fails in the same mode, traps, or is still running, exactly as before; and the program is still well formed |
| CopyPreservation.SimulateFunction | tools/vm_emit.rs:871-1991 | The same for one pass, call by call |
| CopyPreservation.SimulateCode | tools/vm_emit.rs:871-1991 | Through a lowered block every name of the original keeps its value, and both runs stop alike |
| CopyPreservation.CopyRefines | tools/vm_emit.rs:1241-1245 | The code of a plan does to the lowered run what the copy does to the original one, including how it fails |
| CopyPreservation.OriginalCopies | tools/vm_emit.rs:1533-1536 | A copy yields the span copy when both windows fit and fails in its own mode otherwise |
| CopyPreservation.StaticWindow | tools/vm_emit.rs:925-1009 | When the first pass lowers a copy, the run's offsets and length are the constants it read and the window fits |
| CopyPreservation.WindowWindow | tools/vm_emit.rs:1295-1373 | When the second pass lowers a copy, the destination window fits and only the source can fail |
| CopyPreservation.OffsetWindow | tools/vm_emit.rs:1597-1672 | When the third pass lowers a copy, its length is the constant and its offsets are 64-bit values |
| CopyPreservation.CollectIsCoherent | tools/vm_emit.rs:888-920 | The collected types are those of the one definition of each name, and the collected constants are just the values of names defined by 64-bit unsigned constants |
| CopyPreservation.PassKeepsWellFormed | tools/vm_emit.rs:922-1236 | Each pass may be followed by the next: names defined once, before use, with their declared types |
| CopyCarriage.PlanCarries | tools/vm_emit.rs:871-1991 | Whatever a pass emits for a copy: the k-th instruction and its value are named after the copy with ordinals k and k + 1, belong to the block, and are one of a table of operations, types and failure modes; each addition owes its own obligation and the others none; the last instruction defines the copy's result with its type and block, and has the copy's provenance and obligations; the record names the copy, its operation, what took its place, and its rule; each new obligation names its addition, its requirement and the copy's operation |
| CopyCarriage.RuleTexts | tools/vm_emit.rs:1048-1055 | What the six rules are called |
| CopyExpansion.LoweringExpands | tools/vm_emit.rs:2299-2319 | For any program on which the three passes succeed: every function keeps its interface and blocks, every block its identity, parameters and terminator and, in their order, its instructions; only in the place of a copy can there be code, and it carries over what the copy had |
| CopyExpansion.StrategiesAreChosen | tools/vm_emit.rs:925-1672 | In a program of typed copies, the role of what takes a copy's place is the one that the constants of its own original function call for: up to 256 bytes unrolled, up to 512 rebuilt, empty, within static windows, or with dynamic offsets |
| CopyRecords.LoweringIsRecorded | tools/vm_emit.rs:2151-2177 | Over all functions, copies and passes: every record is about a copy and the instruction that took its place, every instruction is still there or is a copy with a record, no two records are about one copy, none is about a copy that is left, every new obligation is required by the record of the copy it speaks for, and no name is defined twice |
| CopyRecords.PassInOrder | tools/vm_emit.rs:2151-2177 | A pass lists its records in the order of the copies in the program that it found, and its obligations in the order of the additions in the program that it leaves |
| CopyRecords.ReplacedAndRecorded | tools/vm_emit.rs:2151-2177 | For each copy that is gone, exactly one lowered instruction defines its output; it has the same type and block, the copy's obligations and semantic identity; and exactly one record is about the copy, with that instruction's rule and output |
| CopyMeaning.PureCodeRuns | tools/vm_emit.rs:2127-2149 | Generated code runs the same in every program, on every machine, with any number of steps left |
| CopyMeaning.IndexRuns | tools/vm_emit.rs:1993-2081 | The index code leaves base + increment, or fails in the copy's mode exactly when that sum leaves 64 bits; a constant base is folded |
| CopyMeaning.StepRuns | tools/vm_emit.rs:1863-1968 | One step moves one byte, or fails in the copy's mode and the copy would fail; nothing but generated names and the result changes |
| CopyMeaning.ChainRuns | tools/vm_emit.rs:1859-1983 | A chain of any length from any offset ends in the span copy exactly when both windows fit, in unbounded arithmetic, and otherwise fails in the copy's mode |
| CopyMeaning.RebuildRuns | tools/vm_emit.rs:1060-1130 | The rebuild of the destination is the span copy |
| CopyMeaning.ViewRuns | tools/vm_emit.rs:1689-1754 | A checked empty view fails exactly when its offset exceeds its sequence |
| CopyMeaning.EmptyViewsRun | tools/vm_emit.rs:1681-1857 | The zero-length form fails exactly when an offset exceeds its sequence and otherwise yields the destination |
| CopyMeaning.EmptyRuns | tools/vm_emit.rs:1378-1425 | The constant zero-length form yields the destination |
| CopyResults.StrategiesAgree | tools/vm_emit.rs:970-978 | Chain and rebuild compute the same sequence, the span copy, for every window that fits, also within one value |
| CopyResults.StaticSurvivors | tools/vm_emit.rs:947-978 | Which statically exact copies are refused and which are left: exactly |
| CopyResults.RuntimeSurvivors | tools/vm_emit.rs:1305-1343 | Which runtime-checked copies outlive both later passes: exactly; neither pass refuses one |
| CopyResults.PassFails | tools/vm_emit.rs:941-969 | A pass fails exactly when some copy in some block must be refused |
| CopyResults.PassFailsFirst | tools/vm_emit.rs:941-969 | A pass that fails gives its refusal of the first copy in the program that it must refuse |
| CopyResults.ObligationsMatchAdditions | tools/vm_emit.rs:2036-2080 | One obligation for each checked addition, in order, all different, pointing at each other, and all required by the copy's record |
| CopySurvivors.CopiesLeft | tools/vm_emit.rs:2299-2319 | When the three passes succeed on a program of typed copies, each block is left with exactly its surviving copies, in order, each decided by the types and constants of its own original function |
| CopySurvivors.CopySurvives | tools/vm_emit.rs:2299-2319 | A copy is in the lowered block exactly when it was in the original one and meets the survivors' condition there |
| CopySurvivors.LoweringFails | tools/vm_emit.rs:941-969 | The three passes fail on typed copies exactly when some static copy's constant window breaks its promise; the later two never do |
| CopySurvivors.LoweringFailsAs | tools/vm_emit.rs:957-969 | The error is then that a copy's evidence is violated, and it names a copy whose constant window breaks its promise |
| CopySurvivors.FactsStay | tools/vm_emit.rs:888-920 | What a later pass collects about a name that an earlier one did not generate is what the earlier one collected |
| CopyObligations.LoweringOwes | tools/vm_emit.rs:2036-2080 | Over all functions, copies and passes: the added obligations have different names and answer one for one for the checked additions that were not there before, each about one of these, which refers to it alone |
| CopyObligations.TableStaysDistinct | tools/vm_emit.rs:2036-2080 | A table with different names still has them after the new obligations join it |
| CopyExample.ExampleIsLowered | tools/vm_emit.rs:2299-2319 | A program with a checked copy between offsets known at run time meets what these results ask for; the passes succeed on it and leave no copy |
| CopyNames.PlanFinishes | tools/vm_emit.rs:2083-2093 | All names a plan generates are different, rise in their ordinals, and the copy's own result is defined last |
| CopyNames.FinishedNames | tools/vm_emit.rs:1943-1967 | Finished code defines distinct names, the copy's result among them, and else only names generated for that copy |
| CopyNames.ProgramRenames | tools/vm_emit.rs:922-1236 | A pass over a program defines every name once; every new name is generated for a copy it removed |
| CopyNames.PassKeepsNames | tools/vm_emit.rs:2299-2319 | What a pass leaves keeps generated names apart from those of the next pass |
| CopyScopes.PlanSupplies | tools/vm_emit.rs:1859-1983 | Generated code uses only names in scope or defined before it, and leaves the copy's result defined |
| CopyScopes.FunctionStaysScoped | tools/vm_emit.rs:922-1236 | Whatever shows that definitions dominate uses in a function shows it for the lowered function |
| CopyPasses.RewriteInstructions | tools/vm_emit.rs:923-1234 | The loop over a block's instructions computes what the specification says, or gives the same refusal |
| CopyPasses.EmitChain | tools/vm_emit.rs:1859-1968 | The emitting loop computes the specified chain, its obligations and its last name; its last instruction takes the copy's place, with its result, provenance and obligations |
| CopyPasses.EmitRebuild | tools/vm_emit.rs:1060-1106 | The emitting loop computes the specified rebuild |
| CopyPasses.CollectFunction | tools/vm_emit.rs:889-920 | The collecting loops compute the specified types and constants |
| CopyPasses.SsaModule.LowerSequenceCopies | tools/vm_emit.rs:871-1239 | One pass over the module in place: functions, appended records and obligations, and the count returned; the appended records account for every copy that is gone, and records and obligations are in the order of the code |
| CopyPasses.SsaModule.LowerForVm | tools/vm_emit.rs:2299-2319 | The three passes in place, their error, and counts that add up to the appended records; when they succeed only copies have been replaced, by code that carries over what they had; and then every callable of a well-formed module still does what it did, there is one appended record for each copy that is gone, and the appended obligations answer one for one for the new checked additions, under different names |
| CodecTrees.CanonIsCanonical | tools/vm-artifact-codec/src/lib.rs:181-192 | Sorting the fields of every object leaves each in key order |
| CodecTrees.CanonMeasures | tools/vm-artifact-codec/src/lib.rs:181-192 | Sorting changes neither expanded size nor depth |
| CodecTrees.CanonUnique | tools/vm-artifact-codec/src/lib.rs:502-511 | Sorting neither creates nor removes repeated keys |
| CodecTrees.BeforeMeans | tools/vm-artifact-codec/src/lib.rs:183-191 | One key is before another exactly when it is a proper prefix of it, or has the smaller character at the first index at which the two differ |
| CodecTrees.SortMeans | tools/vm-artifact-codec/src/lib.rs:181-192 | Sorting gives the same elements, keys in the order of a dictionary, and elements with one key in the order in which they were emitted |
| CodecMeaning.DecodeMeans | tools/vm-artifact-codec/src/lib.rs:35-52 | A node of a well-formed table decodes to the one value it stands for, where what a node stands for is told by relating the two |
| CodecMeaning.SizeMeans | tools/vm-artifact-codec/src/lib.rs:482-497 | The expanded size is the number of a value's parts, as often as they occur |
| CodecMeaning.DepthMeans | tools/vm-artifact-codec/src/lib.rs:482-497 | The depth is the length of the longest chain of values inside each other |
| CodecMeaning.TermsMean | tools/vm-artifact-codec/src/lib.rs:73-75 | The terms are a value's parts, each once, in the order in which they first occur behind their own parts |
| CodecGraphs.DecodeKept | tools/vm-artifact-codec/src/lib.rs:35-52 | Appending nodes never changes what an older id stands for |
| CodecGraphs.DecodeInjective | tools/vm-artifact-codec/src/lib.rs:35-52 | In a table without equal nodes no two ids stand for one value |
| CodecGraphs.WalksAgree | tools/vm-artifact-codec/src/lib.rs:81-107 | The walk over ids finishes values in the order of the distinct subterms |
| CodecBuilder.Builder.Intern | tools/vm-artifact-codec/src/lib.rs:36-51 | Equal nodes get one id and the table never holds two equal nodes, whatever hash function fills the buckets; the two zeros are equal, and the first one stays |
| CodecEmission.EmitsExactly | tools/vm-artifact-codec/src/lib.rs:204-440 | Serialization refuses exactly 128-bit integers outside the JSON range and keys that are not strings |
| CodecEmission.FirstErrorStops | tools/vm-artifact-codec/src/lib.rs:204-440 | Serialization gives the first of all errors in emission order, where a key comes before its value |
| CodecEmission.EveryTreeIsEmitted | tools/vm-artifact-codec/src/lib.rs:204-440 | Every tree is what some value emits, so nothing proved of trees is about fewer values |
| CodecBuilder.Builder.Serialize | tools/vm-artifact-codec/src/lib.rs:204-440 | Gives the first error in emission order, or an id that stands for the emitted value with sorted fields and one zero; older ids keep their meaning, and only parts of the value were added. Infinities and not-a-number become null, and a variant is an object with one key |
| CodecZeros.SettledExactly | tools/vm-artifact-codec/src/lib.rs:36-51 | Giving all zeros the sign of the first changes nothing exactly when a value does not hold both |
| CodecZeros.FirstZeroMeans | tools/vm-artifact-codec/src/lib.rs:36-51 | The zero that stays is the first of a value's parts, in the order in which they are finished, that is a zero |
| CodecZeros.FirstZeroDecides | tools/vm-artifact-codec/src/lib.rs:36-51 | Values that are one up to the order of fields keep one sorted form exactly when they emit the same zero first |
| CodecBuilder.Builder.Finish | tools/vm-artifact-codec/src/lib.rs:181-202 | Entries sorted by the strings of their keys stand for the fields sorted by key; the interned node has the same entries, its keys in the order of a dictionary, and those with one key in their order |
| CodecBuilder.SortedEntriesDecode | tools/vm-artifact-codec/src/lib.rs:183-191 | Sorting entries and sorting the fields they stand for commute |
| CodecOrder.IdsAreNotMarks | tools/vm-artifact-codec/src/lib.rs:77-79 | No new id equals a mark of the table |
| CodecOrder.Walk | tools/vm-artifact-codec/src/lib.rs:81-107 | The recursive walk numbers what it reaches in postorder and meets no node being visited |
| CodecOrder.TurnStep | tools/vm-artifact-codec/src/lib.rs:144-152 | One swap of a cycle puts the node that belongs at the destination there and keeps the rest |
| CodecOrder.RotateCycle | tools/vm-artifact-codec/src/lib.rs:142-152 | A whole cycle is rotated and consumed; other places are untouched |
| CodecOrder.CanonicalOrder | tools/vm-artifact-codec/src/lib.rs:76-155 | In place, the buffer becomes the copying reference's graph; neither the cycle check nor the reachability count nor the size assertion can fail on interned tables |
| CodecOrder.Encode | tools/vm-artifact-codec/src/lib.rs:53-62 | Encoding any value with any bucket hash gives its canonical graph, all zeros with the sign of the first, or its first serialization error; none exactly when it has too many distinct parts to number; the keys of all its objects are strings in the order of a dictionary |
| CodecCanonical.ReferenceIsCanonical | tools/vm-artifact-codec/src/lib.rs:773-809 | The copying reference yields the canonical graph: its i-th node is the i-th distinct subterm |
| CodecCanonical.TermsComplete | tools/vm-artifact-codec/src/lib.rs:73-75 | The postorder list holds every part of a value, each once |
| CodecCanonical.WalkReachesAll | tools/vm-artifact-codec/src/lib.rs:113-117 | If every node stands for a part of the root's value, the walk from the root reaches every node |
| CodecValidate.Account | tools/vm-artifact-codec/src/lib.rs:452-467 | Sums saturate above the limit only, the depth fits 8 bits, and a reference that is not backward is reported |
| CodecValidate.NodeMeasured | tools/vm-artifact-codec/src/lib.rs:482-497 | One more than the references' sum and maximum is the exact size and depth of the tree a node stands for |
| CodecValidate.CheckKeys | tools/vm-artifact-codec/src/lib.rs:501-512 | Accepts exactly string keys each of which comes after those before it in the order of a dictionary |
| CodecValidate.Measure | tools/vm-artifact-codec/src/lib.rs:477-515 | The first loop accepts exactly backward references, rising string keys, and trees within both limits |
| CodecValidate.Sweep | tools/vm-artifact-codec/src/lib.rs:516-534 | One sweep from the root down accepts exactly when references lead from the root to every node |
| CodecValidate.Validate | tools/vm-artifact-codec/src/lib.rs:451-536 | Accepts exactly the valid graphs, and these are the acceptable ones |
| CodecValidate.ValidMeans | tools/vm-artifact-codec/src/lib.rs:451-536 | A graph is valid exactly when its root is its last node, each node names only earlier ones, objects have string keys that rise in the order of a dictionary, each node stands for a value of at most 8,500,000 parts none of them more than 128 deep, and a route of names leads from the root to each node |
| CodecRoundTrip.Deserialize | tools/vm-artifact-codec/src/lib.rs:441-449 | Read as an untyped value, a graph is decoded exactly when it is valid, to the value its root stands for |
| CodecRoundTrip.EncodedMeans | tools/vm-artifact-codec/src/lib.rs:53-62 | The k-th node of an encoded graph stands for the k-th different part of what stays of the value, the root for all of it, and keys are in the order of a dictionary |
| CodecRoundTrip.CanonicalAccepted | tools/vm-artifact-codec/src/lib.rs:498-500 | The canonical graph is accepted exactly when keys are unique and size and depth are within the limits |
| CodecRoundTrip.BoundedDecodes | tools/vm-artifact-codec/src/lib.rs:554-572 | Every node of a bounded graph stands for a value with unique, sorted keys |
| CodecRoundTrip.RoundTrip | tools/vm-artifact-codec/src/lib.rs:53-62 | Decoding an encoded value gives it back, fields in key order and zeros with the sign of the first, exactly when no object repeats a key, its expanded size is at most 8,500,000 and its depth at most 128; otherwise it is refused |
| CodecRoundTrip.LosslessExactly | tools/vm-artifact-codec/src/lib.rs:1-3 | Within those limits the sorted value comes back exactly when it does not hold both zeros, and otherwise it differs in the signs of zeros only |
| CodecRoundTrip.BothZerosAreNotKept | tools/vm-artifact-codec/src/lib.rs:36-51 | A list of both zeros comes back as a list of two negative ones |
| CodecTyped.NodesReadAlike | tools/vm-artifact-codec/src/lib.rs:552-712 | Reading nodes for a type's visitor is reading the value they stand for: options, enumerations by string or one entry, structs by field name or by position, tuples that ignore what follows |
| CodecTyped.DeserializeAs | tools/vm-artifact-codec/src/lib.rs:441-449 | At any type, a graph is read exactly when it is valid and of that type, to what its value is there |
| CodecReading.ReadMeans | tools/vm-artifact-codec/src/lib.rs:552-712 | Reading a value at a type gives exactly what it denotes there, by a relation between types, values and typed values: options, enumerations by string or one entry, structs by the first field of a name or by position, tuples that ignore what follows |
| CodecTyped.TypedRoundTrip | tools/vm-artifact-codec/src/lib.rs:1-3 | A value of any declared type comes back from its graph exactly when the limits allow it, no real in it is infinite or not a number, no optional value in it emits null, and it does not hold both zeros |
| CodecTyped.NullsAreNotKept | tools/vm-artifact-codec/src/lib.rs:589-595 | An optional value that is there and empty comes back as missing, and a real that is not a number is refused |
| CodecIdentity.EncodingIsCanonical | tools/vm-artifact-codec/src/lib.rs:73-75 | Two values without repeated keys have one graph exactly when they are equal up to the order in which fields were emitted, once all zeros have the sign of the first |
| CodecIdentity.EmissionOrderShows | tools/vm-artifact-codec/src/lib.rs:832-841 | Emitted in two orders of fields, a value has one graph exactly when both orders emit the same zero first |
| CodecIdentity.OneZeroIsCanonical | tools/vm-artifact-codec/src/lib.rs:73-75 | Two values neither of which holds both zeros have one graph exactly when they are equal up to the order of fields |
| CodecIdentity.TwoOrdersTwoGraphs | tools/vm-artifact-codec/src/lib.rs:832-841 | An object with both zeros, its fields emitted in two orders, within the limits, has two graphs |
| CodecIdentity.CanonIdentifies | tools/vm-artifact-codec/src/lib.rs:181-192 | Sorting forgets the order of fields and nothing else |
| CodecIdentity.EncodedIsCanonicalForm | tools/vm-artifact-codec/src/lib.rs:36-62 | No encoded graph has two equal nodes, which differ in the sign of zero at most, and all are numbered in walk order |
| CodecIdentity.Reencoding | tools/vm-artifact-codec/src/lib.rs:441-449 | Encoding what an accepted graph stands for gives that graph exactly when it is in canonical form, and never changes the value but for the signs of zeros |
| CodecIdentity.SharingIsNotRequired | tools/vm-artifact-codec/src/lib.rs:451-536 | A graph with two equal nodes is accepted, and encoding what it stands for gives another graph |
| CodecIdentity.ExpandAgrees | tools/account_vm_artifact.py:18-32 | The Python expansion is the decoder's value on every well-formed table |
| CodecIdentity.AsPyInjective | tools/account_vm_artifact.py:18-32 | Different canonical values expand to different data |
| CodecIdentity.EqualMeansBlurred | tools/account_vm_artifact.py:77-80 | Python's equality on expanded data holds exactly when they agree after true becomes 1, false 0, and whole floats and the negative zero integers |
| CodecIdentity.ExpansionComparesValues | tools/account_vm_artifact.py:77-80 | The tool's equality holds exactly when the two values are equal up to true and 1, false and 0, the signs of zeros, and whole numbers written as integer or as float |
| CodecIdentity.ModuleIsAccounted | tools/account_vm_artifact.py:35-74 | A module without functions that holds one more value is accepted, and its expansion has what the tool counts before it compares |
| CodecIdentity.DifferentModulesCompareEqual | tools/account_vm_artifact.py:77-80 | Three pairs of such modules that differ pass that check: true and 1, 1.0 and 1, -0.0 and 0.0 |
| Reachability.ReachIsLeast | tools/vm_emit.rs:578-610 | The reach contains the roots, is closed, and is within every set that is both |
| Reachability.ReachIsByPaths | tools/vm_emit.rs:578-610 | It is what paths from the roots end at |
| CallGraph.CalleesMean | tools/vm_emit.rs:827-850 | A body's callees are exactly what a call operation of some block names or some iteration lists |
| CallGraph.LastIsFound | tools/vm_emit.rs:794-806 | Of functions that share an identity the last one is found |
| ApplicationLowering.FindClosure | tools/vm_emit.rs:806-850 | The search gives the closure, or a refusal that is true of the program |
| ApplicationLowering.SpecializedMeans | tools/vm_emit.rs:829-842 | The check of a body passes exactly when no call names a specialization other than its callee |
| ApplicationLowering.StripMeans | tools/vm_emit.rs:852-862 | Every function stays in its place with its name; its body stays when it is one of these and is dropped when it is not |
| ApplicationLowering.CalledStayWhole | tools/vm_emit.rs:806-862 | Whatever is called from a body that is left is declared and left whole with its body, and so is every selected export |
| ApplicationLowering.LoweringProgram | tools/vm_emit.rs:777-863 | Succeeds exactly when there are roots, the program is valid and every function in the least call closure can be executed; then drops the bodies outside that closure and nothing else; every function called from a body that is left keeps its own body |
| ApplicationLowering.StrippingKeepsClosure | tools/vm_emit.rs:852-862 | Stripping keeps the closure and lowerability, and doing it again changes nothing |
| BackendProjection.Parse | tools/stage0-probe/src/main.rs:449-454 | A selector is split at its last separator, if it has one |
| BackendProjection.ParseMeans | tools/stage0-probe/src/main.rs:449-454 | A text is cut in front of its last `::` and behind it, also where nothing is on one side; without one it is a name |
| BackendProjection.SelectRoots | tools/stage0-probe/src/main.rs:417-492 | Succeeds exactly when identities are unique and each selector names one function; gives those functions, or a refusal that is true: a repeated identity, or a selector that no function or two functions answer |
| BackendProjection.ExpandRoots | tools/stage0-probe/src/main.rs:556-580 | A selected generic function stands for its specializations, and one without any is refused |
| BackendProjection.ExecutableExports | tools/stage0-probe/src/main.rs:494-537 | The exports are exactly the executable roots, and all are declared |
| BackendProjection.FindClosure | tools/stage0-probe/src/main.rs:582-621 | The stack search gives the least closure, everything to include, and metadata for what the closure does not hold |
| BackendProjection.CalledStayInProjection | tools/stage0-probe/src/main.rs:608-643 | Whatever is called from a body that is kept is declared, and is kept whole |
| BackendProjection.Project | tools/stage0-probe/src/main.rs:539-674 | Succeeds exactly when the selection can start, its closure is declared and the result is valid, and otherwise gives a refusal that is true; what it returns is defined by the least closure, and every function called from a body that is kept is kept whole |
| ProjectionAgreement.RootsMean | tools/stage0-probe/src/main.rs:556-580 | Execution starts at the selected functions that are not generic and at the specializations of those that are |
| ProjectionAgreement.IncludedMeans | tools/stage0-probe/src/main.rs:582-607 | Included is what execution needs, the selected generic functions, and the generic functions with a specialization among what execution needs |
| ProjectionAgreement.BodiesOnTheClosure | tools/stage0-probe/src/main.rs:630-643 | A function keeps its body exactly on the closure, and is kept at all exactly when included |
| ProjectionAgreement.SpecializationsStayWhole | tools/stage0-probe/src/main.rs:595-607 | Records of the closure, and of selected generic functions, are kept with their owners; no kept record dangles |
| ProjectionAgreement.ProjectionIsIdempotent | tools/stage0-probe/src/main.rs:1644-1668 | Projecting a projection with the same selection gives it back |
| ProjectionAgreement.ProjectionsAgree | tools/vm_emit.rs:807-850 | From the selection's exports, the application closure is the backend closure; both keep the same bodies; lowering the projection changes nothing |
| SsaProjection.IndexNames | tools/vm_emit.rs:565-577 | The index is built exactly when no name belongs to two functions |
| SsaProjection.SsaCalleesMean | tools/vm_emit.rs:599-608 | A function's callees are exactly what an instruction of some block invokes or some iteration lists |
| SsaProjection.KeptCallsKept | tools/vm_emit.rs:578-615 | Every callee of every kept instruction and iteration, and every root, is a name, semantic or not, of a kept function that has code |
| SsaProjection.KeptIsLeast | tools/vm_emit.rs:578-615 | What is kept is within every part of the module that holds the roots and everything that it calls |
| SsaProjection.FindFunctions | tools/vm_emit.rs:578-610 | The search over names gives the semantic names of the least closure, or a name in it that has no function or no blocks |
| SsaProjection.EverythingResolves | tools/vm_emit.rs:611-615 | The count of kept functions always equals the count of reached names |
| SsaTables.MentionedRecordsMean | tools/vm_emit.rs:422-501 | A record type is in the specified collection exactly when a type, an instruction of one of the kinds that name one, an iteration or a value of some kept function mentions it |
| SsaTables.CollectRecords | tools/vm_emit.rs:617-643 | The loops collect every record type mentioned anywhere in a kept function, kind by kind, and no other |
| SsaTables.RetainRecordClosure | tools/vm_emit.rs:503-541 | Fails exactly on a repeated identity or a needed type that is missing; keeps exactly the least set closed under nesting |
| SsaTables.RecordsAreComplete | tools/vm_emit.rs:503-541 | Every record type that a kept function or a field of a kept record type mentions is kept |
| SsaTables.RecordsAreLeast | tools/vm_emit.rs:503-541 | What is kept of the record types is within every part of the table that is complete in that way |
| SsaTables.AttachedObligationsMean | tools/vm_emit.rs:645-700 | An obligation is in the specified collection exactly when an iteration or an instruction of some kept function carries it |
| SsaTables.CollectObligations | tools/vm_emit.rs:645-700 | The loops collect exactly the obligations attached to kept code |
| SsaTables.FindObligations | tools/vm_emit.rs:702-728 | Marks exactly the attached identities closed under dependencies and assumptions that are themselves obligations |
| SsaTables.RetainObligations | tools/vm_emit.rs:729-730 | Keeps exactly the obligations in that set |
| SsaTables.ObligationsAreComplete | tools/vm_emit.rs:702-730 | Every obligation that kept code carries, or that a kept obligation depends on or assumes, is kept |
| SsaTables.ObligationsAreLeast | tools/vm_emit.rs:702-730 | What is kept of the obligations is within every part of the table that is complete in that way |
| SsaHistory.NamesInMean | tools/vm_emit.rs:645-700 | A name is in the specified collections exactly when it is that of a kept function or of a value, iteration, block or instruction in it |
| SsaHistory.CollectNames | tools/vm_emit.rs:645-700 | The loops collect exactly the names of kept code: SSA, semantic and HIR |
| SsaHistory.EntryStays | tools/vm_emit.rs:731-742 | An entry stays exactly when its semantic name or a name it leads to is kept, and leads to just its kept names |
| SsaHistory.KeptTraceMeans | tools/vm_emit.rs:731-742 | What is kept of a trace is what stays of its entries |
| SsaHistory.RetainTrace | tools/vm_emit.rs:731-742 | The loops over a trace and its entries keep that, in order |
| SsaHistory.TraceMeans | tools/vm_emit.rs:731-742 | For the functions that are kept: exactly the entries that name something in them stay, narrowed to such names |
| SsaHistory.RetainTransformations | tools/vm_emit.rs:743-747 | Records stay when they are about a kept name |
| SsaHistory.TransformationsMean | tools/vm_emit.rs:743-747 | Exactly the records stay whose operation or output is a name of a kept function or of something in it |
| SsaClosure.Project | tools/vm_emit.rs:547-770 | Succeeds exactly when roots, soundness checks, names and tables are in order; every callee of every kept instruction and iteration is a name of a kept function, and every table of the result belongs to the kept functions |
| SsaClosure.ProjectedBelongs | tools/vm_emit.rs:611-770 | The kept functions hold what they call; record types and obligations are complete for them, history is about them and narrowed to them, exactly the specializations that are among them stay, and the table of bindings is gone |
| SsaIdempotence.ProjectionSettles | tools/vm_emit.rs:543-551 | The application closure of an application closure is itself |
| SsaCommutation.FunctionsCommute | tools/vm_emit.rs:2874-2887 | Stripping before lowering and projecting after it select the same functions, those of the program's call closure |
| ObligationCommutation.ProjectionCommutes | tools/vm_emit.rs:2874-2887 | Stripping first succeeds when projecting does and gives the same functions, record types and specializations; the same module exactly when the closure's obligations are self-contained and no history of a function outside is about one inside |
| ObligationCommutation.ExampleLeaks | tools/vm_emit.rs:702-730 | A program and a lowering that keeps to every condition, for which both orders succeed and give different modules |
| UnicodeTables.PropertyRanges | tools/generate_unicode_classifier.rs:12-32 | The loop gives the maximal runs of included values |
| UnicodeTables.RunsAreExact | tools/generate_unicode_classifier.rs:12-32 | The runs are ordered, never touch, and cover exactly the scalar values from 128 up that have the property |
| UnicodeTables.RunsAreUnique | tools/generate_unicode_classifier.rs:12-32 | Any two lists with those three properties are equal |
| UnicodeTables.ClippingOrders | tools/generate_unicode_classifier.rs:47-56 | Clipped ranges stay ordered and inside their plane |
| UnicodeTables.ClippingIsExact | tools/generate_unicode_classifier.rs:47-56 | Clipped to a plane, ranges cover exactly what they covered in it |
| UnicodeTables.OrOfDisjointBits | tools/generate_unicode_classifier.rs:86-88 | Shifting and or-ing a smaller value adds it |
| UnicodeTables.PackingRoundTrip | tools/generate_unicode_classifier.rs:98-99 | A packed range fits 64 bits and division takes it apart again |
| UnicodeTables.EmitProperty | tools/generate_unicode_classifier.rs:34-117 | Fails exactly when a plane has more than 1024 ranges; otherwise the tables unpack to each plane's ranges |
| UnicodeClassifier.Search | tools/generate_unicode_classifier.rs:93-112 | In at most twelve steps, with every read in bounds and no overflow, finds whether a range of the table holds the value |
| UnicodeClassifier.Classify | tools/generate_unicode_classifier.rs:40-69 | The generated classifier is true exactly of the code points from 128 to 0x10FFFF, but for the surrogates, with the property, over all 64-bit values |
| UnicodeClassifier.Classifier | tools/generate_unicode_classifier.rs:34-117 | The same from the predicate itself, whenever generation succeeds |
| CacheRetention.SortingHolds | tools/stage0-probe/src/cache_retention.rs:104 | Sorting orders entries by time and name and loses none |
| CacheRetention.OrderIsUnique | tools/stage0-probe/src/cache_retention.rs:69-104 | The eviction order does not depend on the order in which the directory is read |
| CacheRetention.CutIsLongest | tools/stage0-probe/src/cache_retention.rs:106-114 | What is left is the longest run of most recent entries that is unexpired and within both limits |
| CacheRetention.StopsAtCut | tools/stage0-probe/src/cache_retention.rs:105-114 | If sizes add up within 64 bits, the first entry that passes all tests starts that run |
| CacheRetention.SaturationExactly | tools/stage0-probe/src/cache_retention.rs:97-114 | Eviction leaves that run for all limits and clocks exactly when the sizes add up within 64 bits |
| CacheRetention.EvictionErrsByBytesOnly | tools/stage0-probe/src/cache_retention.rs:105-114 | For given limits and clock it leaves that run exactly when what is left is within the byte limit; it never removes an entry too many |
| CacheRetention.SaturationHidesBytes | tools/stage0-probe/src/cache_retention.rs:97-112 | Three managed files of 2^63 - 1 bytes each, the largest a file can have: eviction stops with two of them over a limit of 2^63 |
| CacheNames.ManagedMeans | tools/stage0-probe/src/cache_retention.rs:58-64 | An entry is named by sixty-four hexadecimal digits and one of two endings, and no other name is managed |
| CacheNames.OlderMeans | tools/stage0-probe/src/cache_retention.rs:104 | Entries are ordered by time of use and, at one time, by name in the order of a dictionary |
| CacheNames.ExpiredMeans | tools/stage0-probe/src/cache_retention.rs:107 | An entry is expired when its time of use and the age limit together lie before now |
| CacheNames.SaturatingMeans | tools/stage0-probe/src/cache_retention.rs:97-112 | Sums stop at 2^64 - 1 and differences at zero |
| CacheNames.DecimalMeans | tools/stage0-probe/src/cache_retention.rs:85-86 | A number's digits count what they are, times ten for every digit behind |
| CacheNames.DigitMeans | tools/stage0-probe/src/cache_retention.rs:85-86 | One digit counts what it is |
| CacheNames.AbandonedMeans | tools/stage0-probe/src/cache_retention.rs:74-92 | A file is removed as a temporary exactly when it is named after a key, a process number of 32 bits and a time of 128 bits and that process is gone; the process can be read off the name in one way only |
| CacheDirectory.Directory.ReadEntries | tools/stage0-probe/src/cache_retention.rs:67-103 | Lists every managed entry once and nothing else, with their saturated total |
| CacheDirectory.Directory.Prune | tools/stage0-probe/src/cache_retention.rs:66-116 | Removes the oldest managed entries up to where the tests pass and, of the temporaries, those whose process is gone and none whose process is alive; touches nothing else |
| CacheDirectory.TemporariesGo | tools/stage0-probe/src/cache_retention.rs:74-92 | A temporary stays, unchanged, exactly when its process is alive |
| CacheDirectory.Directory.Publish | tools/stage0-probe/src/cache_retention.rs:118-133 | The directory after publishing, in each of its outcomes, and what it returns |
| CacheDirectory.PruningIsDeterministic | tools/stage0-probe/src/cache_retention.rs:66-116 | Pruning has one outcome |
| CacheDirectory.LeavesTheSuffix | tools/stage0-probe/src/cache_retention.rs:93-114 | The managed entries that stay are the suffix; unmanaged names stay as they are |
| CacheDirectory.PruningMeetsLimits | tools/stage0-probe/src/cache_retention.rs:105-114 | If sizes add up within 64 bits, what stays was within the limits when last looked at, and under one reading of the clock it is the longest such run |
| CacheDirectory.NewestSurvives | tools/stage0-probe/src/cache_retention.rs:105-114 | The newest entry stays when it is unexpired and fits by itself, if sizes add up within 64 bits |
| CacheDirectory.ExampleStaysOver | tools/stage0-probe/src/cache_retention.rs:66-116 | Pruning a directory of those three files leaves it over its byte limit |
| CacheDirectory.PublishingMeetsLimits | tools/stage0-probe/src/cache_retention.rs:118-133 | If sizes add up within 64 bits, every outcome of publishing (missing, refused or renamed) ends within the limits; a file reported as published is there, and one that is newest, unexpired and fits is published |
| CacheLeases.StepKeepsInvariant | tools/stage0-probe/src/cache_retention.rs:32-50 | Every step of any process keeps mutual exclusion, complete visible entries, and apart temporaries |
| CacheLeases.LeaseFreezes | tools/stage0-probe/src/cache_retention.rs:118-149 | Over any run, while any lease is held no managed entry is removed, replaced or added |
| CacheLeases.LeasedReadIsWhole | tools/stage0-probe/src/main.rs:1368-1402 | A read under one lease returns one entry in full, as its writer meant it, unchanged from start to finish |
| FrontendReuse.CacheMetadata | tools/stage0-probe/src/main.rs:942-1016 | Metadata is made exactly when sources, resolutions and dependencies fit together, and then describes them |
| FrontendReuse.CacheMatches | tools/stage0-probe/src/main.rs:1018-1085 | The loops decide exactly the stated match, for any metadata |
| FrontendReuse.LastSourceWins | tools/stage0-probe/src/main.rs:949-952 | Of sources that share a name the last one counts |
| FrontendReuse.ReuseIsExact | tools/stage0-probe/src/main.rs:1018-1085 | A match holds exactly when module and resolved sources are unchanged, no source name repeats, and no module was requested under two names |
| FrontendReuse.TwoNamesNeverMatch | tools/stage0-probe/src/main.rs:942-1085 | A program that resolved one module under two names, recorded with metadata that describes it and never reused, even when nothing changed |
| FrontendReuse.ReuseIsSound | tools/stage0-probe/src/main.rs:1018-1085 | If the elaborator reads only resolved modules, a match means elaborating again would give the cached program |
| FrontendReuse.EditsElsewhereReuse | tools/stage0-probe/src/main.rs:2854-2862 | Edits to modules that were not resolved never cause a miss |
| SourceTokens.Tokens | tools/mncs_source.py:10-71 | The loop gives the specified tokens or failure; tokens are ordered, apart and equal to their slices |
| TokenMeaning.LineEndMeans | tools/mncs_source.py:20-23 | A line comment ends after the first newline, or with the source |
| TokenMeaning.CommentEndMeans | tools/mncs_source.py:24-38 | A block comment ends where, for the first time, as many marks close as open |
| TokenMeaning.LiteralEndMeans | tools/mncs_source.py:39-52 | A literal ends after the first quote of its kind that an even number of adjacent backslashes stands before |
| TokenMeaning.WordEndMeans | tools/mncs_source.py:53-65 | A word is the longest run of letters, digits and underscores |
| TokenMeaning.ScanMeans | tools/mncs_source.py:15-70 | What starts at an offset, by these ends, byte values and pairs of bytes only |
| TokenMeaning.LexMeans | tools/mncs_source.py:10-71 | Lexing gives exactly the tokens between the cuts of a source into such items |
| TokenMeaning.LexFailsWhen | tools/mncs_source.py:10-71 | Lexing fails exactly where such cuts lead to a literal or a comment that does not end |
| SourceTokens.ScanIsLocal | tools/mncs_source.py:15-70 | What starts at an offset is the same in any slice that holds all of it, through nested comments and escapes |
| SourceTokens.LexingIsLocal | tools/mncs_source.py:10-71 | Lexing a slice cut at boundaries gives the tokens between them, moved |
| SourceTokens.TokensAreReached | tools/mncs_source.py:53-70 | Every token starts and ends at a boundary |
| FunctionExtraction.ExtractFunction | tools/mncs_source.py:74-125 | The loops compute the specified extraction or error; it succeeds exactly when the source lexes and holds one definition of the name whose signature and body are well formed, and the text is the slice between its offsets |
| FunctionExtraction.HeadsMean | tools/mncs_source.py:81-88 | A definition of a name starts at the word `fn`, that name, and a parenthesis or angle bracket |
| FunctionExtraction.ExtractionRefuses | tools/mncs_source.py:74-80 | A name with a byte above 127 is refused, and so is a source that does not lex, with the lexer's error |
| FunctionExtraction.Extracts | tools/mncs_source.py:74-125 | What is extracted runs from the first token of that definition to the brace that balances the one opening its body |
| FunctionExtraction.LocateMeans | tools/mncs_source.py:81-125 | By counting brackets only: the body opens at the first brace outside of all brackets, no bracket closed before it was open, and closes where its braces first balance |
| FunctionExtraction.LocateFails | tools/mncs_source.py:81-125 | Each refusal is given exactly for its cause: no or several definitions, a bracket closed that was not open, no body, or a body that never balances; the first counts the definitions |
| FunctionExtraction.BracesBalance | tools/mncs_source.py:115-125 | Braces of the body balance and are open throughout it; parentheses and brackets of the signature balance; the whole definition balances exactly when its signature does |
| FunctionExtraction.BracesMayNotBalance | tools/mncs_source.py:74-125 | From the source `fn f({){}` the function is extracted, with two braces opened and one closed |
| FunctionExtraction.Located | tools/mncs_source.py:81-109 | A located definition is the only one of its name and spans at least four tokens |
| FunctionExtraction.SliceTokens | tools/mncs_source.py:115-125 | The tokens of the extracted slice are the definition's tokens, moved |
| FunctionExtraction.ExtractionSettles | tools/mncs_source.py:74-125 | Extracting from an extracted definition returns all of it at offsets 0 and its length |

## Left out

- Hashes: SHA-256 identities of generated names, functions and sources are taken to be injective (constructors, or a parameter required to be); nothing is claimed of concatenated cache keys or of hashing a tree.
- Parameters: program validation, SSA identity and boundary validation, lowering, elaboration, the predicate on characters, and every SSA operation and terminator that the copy passes do not touch are arbitrary functions, under the conditions that the contracts state.
- Instruction detail: types other than booleans, 64-bit integers and sequences are opaque names, and evidence, HIR and machine-intent links are not modelled, because no copy pass reads them.
- CopyPasses.SsaModule.LowerSequenceCopies: a refused pass leaves the original module here, while the program abandons a half-rewritten one that its caller drops.
- Numbers: a finite floating-point number is a real number here, or the negative zero; its text, and the rounding of an integer that is read as one, are not modelled.
- Encoding limits: where a value has 2^32 - 2 or more distinct parts the program panics and the model returns nothing.
- CodecTyped.DeserializeAs: types are those whose visitors are derived, from the shapes that are listed; characters, bytes, borrowed text and the option to refuse unknown fields are not modelled.
- CacheDirectory.Directory.Prune: I/O errors in the middle of pruning; which processes are alive is a parameter, read once per name.
- CacheLeases.LeasedReadIsWhole: decompression and the check of the stored identity, which come after the read; temporary names are fresh when created.
- Projection metadata: the counts reported beside a projection.
- SsaCommutation.FunctionsCommute: lowering is any map that works function by function, keeps identities and callees, and gives no blocks, obligations or history for a bare declaration; state shared between functions while lowering is not modelled.
- ObligationCommutation.ProjectionCommutes: assumes that no two functions of a program owe obligations with one identity.
- Generated text: the source text of the classifiers, and the Unicode tables themselves.
- The compiler's own MNCS sources, providers, harnesses, telemetry and subprocess control.
