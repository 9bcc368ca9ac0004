# Saurus and its Lua 5.1 runtime: proofs about their core algorithms

A Dafny project that models the hard parts of the Saurus Lisp compiler and virtual machine (`src/`)
and of the Lua 5.1.4 runtime they are built on (`lua/`), and proves what they are for. Run
`dafny verify dfyconfig.toml` to check it.

| files | what they model |
|---|---|
| `LuaGcState`, `LuaGcInvariant`, `LuaGcSafety`, `LuaGcGarbage`, `LuaGcFull`, `LuaGcIdeal`, `LuaGcCollector` | the incremental tri-colour collector: a state machine with its mutator, whole-run safety, whole-cycle completeness, exactness of a full collection, agreement with a store that never frees, and the collector in place on mark bits and lists |
| `LuaTableNodes`, `LuaTablePlacement`, `LuaTableSizes`, `LuaTableContents`, `LuaTableTraversal`, `LuaTable`, `LuaTableForeach` | the table: chained scatter table with Brent's variation, rehash, size optimisation, traversal and length, in place |
| `HashTrie`, `HashBitmap`, `HashTrieMap`, `HashMapRefinement` | the persistent hash trie of `seq.c`, its bitmaps and their bit count |
| `PersistentVector` | the persistent vector of `seq.c` |
| `SaurusGen`, `StackFlow`, `SaurusStack`, `SaurusExact`, `SaurusGenerator` | the code generator: its specification with known jump targets, the stack discipline of its code and the exact condition for it, and the generator that patches jumps in place |
| `SaurusVm`, `SaurusOperators`, `SaurusInterpreter`, `SaurusCorrect`, `SaurusSafety`, `SaurusTail`, `SaurusWidth` | the interpreter loop as a step function and in place, operators and globals, compiler correctness, safety of whole runs, tail calls, and the limit of 8-bit operands |
| `SaurusEvaluator`, `SaurusBinding`, `SaurusScope`, `SaurusClosures`, `SaurusClosureForms`, `SaurusClosureCalls`, `SaurusClosureRuns`, `SaurusPrograms`, `SaurusTailCalls`, `SaurusCaptures` | compiler correctness for whole programs with closures, recursion and tail calls, against an evaluator that knows nothing of compilation, the exact condition under which no tail call is made too early, and what becomes of variables from further out than a function's creator |
| `SaurusBytecode`, `SaurusFormat`, `SaurusBytecodeIo`, `SaurusImage` | bytecode byte by byte, writing and reading it, through chunked buffers, and what it makes of generated code |
| `LuaPattern`, `LuaPatternItems`, `LuaPatternText`, `LuaPatternMeaning`, `LuaPatternSpans`, `LuaMatcher` | patterns: the matcher, how patterns are written, what items and captures stand for, the declarative meaning of a match, and the matcher in place on its captures |
| `LuaSort` | `table.sort` |
| `SaurusCollector` | the mark-sweep collector of the Saurus machine |
| `LuaJumpLists` | jump lists threaded through instruction operands |
| `Options`, `Arithmetic` | what several of these share |

Code that works step by step in the original is a method, most often of a class with the
original's fields, and its contract equates the new state with a function of the old one; the
properties are proved about these functions.

What comes from outside is a parameter: hash functions, native functions, floating-point operations
beyond `+`, `-`, `*` and comparison (`Host`), the order function of a sort, the chunks a reader
hands out, the eight bytes of a number (`Packing`). Numbers of the virtual machine are reals.

## Findings

Where the code does not meet what one would expect, the project keeps the code as it is, shows an
input, and proves the exact condition.

- Two-operand `not` (`src/compiler/gen.lua:374-385`, registered at 506) pushes two values for an instruction that takes one. `SaurusExact.NotBreaks` is an input; `SaurusExact.CompiledIsOkIff` shows that the stack discipline holds if and only if no such form is evaluated, and `SaurusExact.GenRises` that no context can make up for it.
- New objects hide older ones (`src/vm/gc.c:34-40`): only white objects are grayed, so the children of an object created since the last collection are not visited. `SaurusCollector.NewHides` is an input; `SaurusCollector.SurviveIff` gives the exact condition.
- More than 256 constants (`src/vm/core.c:72-76`, `src/compiler/compile.lua:70`): operands are cut to 8 bits without a report. `SaurusWidth.WideComputes` shows that a function of n constants computes its value if and only if n is at most 256; `SaurusVm.EncodeFits` and `SaurusImage.ReadsEncoded` give the condition for any prototype.
- Strings with a NUL, and the string "nil" (`src/compiler/writebin.c:115`, `src/compiler/compile.lua:78`): the first are cut, the second becomes the constant nil. `SaurusBytecode.SurvivesIff` gives the exact condition for whole functions.
- A call at the end of a `do` is a tail call wherever the `do` stands (`src/compiler/gen.lua:142`), so that (+ 1 (do (f))) returns what f returns. `SaurusPrograms.DoEscapes` is that input; `SaurusTailCalls.EscapesIff` shows that a program has a tail call with something left to do if and only if `SaurusClosures.DoOk`, a check on its text, fails, and `SaurusPrograms.ProgramAgrees` that without one it does what its text says.
- `or` is true of any two values, and `not` of anything but a boolean gives its truth instead of the opposite (`src/vm/core.c:964-982`). `SaurusOperators.LogicIs` shows that `or` gives the disjunction if and only if one of its operands is true, `SaurusOperators.NotIs` that `not` is right if and only if its operand is a boolean.
- A variable of a function further out than the creator (`src/vm/core.c:825-829`) is looked up by counting frames, and a `let` in tail position has given its frame up. `SaurusCaptures.CaptureFromBelow` is an input, (let (x 1) (let (y 2) (let (z 3) x))), which gives the program's argument instead of 1. `SaurusCaptures.CapturesIff` shows that a program has such captures if and only if a name is used from further out than its function's creator, a check on its text; without them `SaurusPrograms.ProgramAgrees` holds. With them a capture is right where the frames counted are those of the functions around it (`SaurusCaptures.CaptureIsLexical`), as in `SaurusCaptures.CaptureFromAncestor`.
- Setting the registry has no barrier (`lua/lapi.c:218-222`). `LuaGcSafety.RegistryLoses` is a state in which a reachable table is freed for it; `LuaGcSafety.RegistryInv` gives the exact condition under which the collector's invariant is kept, and `LuaGcSafety.RunSafety` is about the runs that meet it.
- `collision_node_set` (`src/vm/seq.c:648-677`) compares the new value with the leaf itself, so that it never recognises an unchanged entry. `HashMapRefinement.CollisionCopies` is an input; `HashMapRefinement.InsertSameIff` shows that inserting what is there already keeps the map's nodes if and only if the key lies in no collision node. The contents are right either way.

## Model

| member | source | states |
|---|---|---|
| `LuaGcSafety.RunSafety` | lua/lgc.c:407-607 | in every run from a state with the invariant, a new one or one whose registry is set among them, with collector steps, barrier-guarded stores, unguarded stack writes, stores in the registry, allocation, string reuse, resizes of the string table and full collections interleaved in any way, everything reachable, from the registry too, is allocated and no step frees an object that was reachable before it |
| `LuaGcSafety.RunTriColor` | lua/lgc.c:662-683 | in GCSpropagate no such run ever shows a black object that refers to a white one: this is what both barriers are for |
| `LuaGcIdeal.RunIsIdeal` | lua/lgc.c:556-607 | in every run, collector steps and barriers included, what the program can reach, its kind, its fixed bit and what stands in each of its slots are what they would be in a store in which nothing is ever coloured, swept or freed |
| `LuaGcIdeal.WriteStores` | lua/lgc.h:86-97 | a store with its barrier puts the value in the slot it names, changes no other slot of any object and no kind or fixed bit, and nothing of the state but colours and the two gray lists |
| `LuaGcIdeal.WriteColours` | lua/lgc.c:662-683 | which colours the barriers change: a black table gray again and into grayagain, a white value marked while marking lasts, the black object whitened afterwards; threads and all other stores change none |
| `LuaGcIdeal.NewPlaces` | lua/lgc.c:686-703 | a new string goes to the front of its bucket, a userdata behind the main thread, anything else to the front of the root list |
| `LuaGcSafety.ApplyInv` | lua/lgc.h:86-97 | each collector step and each mutator operation with its barrier macro keeps the invariant of its phase, and only a collector step frees, only dead objects, none of them reachable |
| `LuaGcSafety.OpeningRuns` | lua/lstate.c:70-82 | f_luaopen is such a run: the thread of a new state gets its globals and the state its registry, from which the registry table is reachable then |
| `LuaGcSafety.RegistryInv` | lua/lapi.c:203-225 | setting the registry, for which there is no barrier, keeps the invariant if and only if marking is not going on or the new value is marked already |
| `LuaGcSafety.RegistryLoses` | lua/lapi.c:218-222 | a table moved from the stack to the registry while marking lasts is reachable and freed by the sweep of the same cycle |
| `LuaGcSafety.SingleStepInv` | lua/lgc.c:556-607 | a collector step keeps the invariant in all five phases, and frees only while sweeping and only unfixed objects of the other white |
| `LuaGcSafety.WriteInv` | lua/lgc.h:86-97 | a store and its barrier, whichever of forward, backward, repainting or none the kinds, colours and phase call for, keeps the invariant and frees nothing |
| `LuaGcSafety.AtomicMarksReachable` | lua/lgc.c:525-553 | after the atomic step every reachable object is allocated and not white |
| `LuaGcSafety.SweepListInv` | lua/lgc.c:407-428 | sweeplist erases exactly the dead objects it passes, whitens every other one it passes, touches nothing else, and ends at the end of the list if the count allows |
| `LuaGcInvariant.ReallyMarkInv` | lua/lgc.c:69-112 | marking a white object of any kind, through chains of userdata and upvalues, keeps the tri-colour invariant and the gray lists |
| `LuaGcInvariant.PropagateMarkInv` | lua/lgc.c:277-320 | traversing one gray object keeps the tri-colour invariant; threads stay gray in grayagain |
| `LuaGcInvariant.AtomicMarkInv` | lua/lgc.c:525-553 | when atomic has marked, no object that is not white refers to a white one, from any kind of object and from the roots |
| `LuaGcGarbage.CycleFreesGarbage` | lua/lgc.c:556-607 | whatever the mutator does meanwhile, an object, not a string and not fixed, that was unreachable in GCSpause has been freed when the sweep of that cycle is over |
| `LuaGcGarbage.ApplyDoomed` | lua/lgc.c:556-607 | no step or mutator operation ever marks, or makes a reference to, an object nothing led to when marking began |
| `LuaGcFull.FullGcExact` | lua/lgc.c:636-659 | a full collection started in any phase ends, and leaves exactly the reachable and the fixed objects, strings included, unchanged but for their colour |
| `LuaGcFull.StepNearer` | lua/lgc.c:636-659 | each singlestep brings either loop of luaC_fullgc nearer to its end: a phase on, fewer white objects, or fewer gray objects, buckets or links to pass |
| `LuaGcFull.PrunedReachable` | lua/lgc.c:556-607 | collector steps do not change what can be reached |
| `LuaGcCollector.MarkBits` | lua/lgc.h:43-83 | the bit operations on marked and currentwhite do to the bits what the model does to colours, dead and surviving objects included |
| `LuaGcCollector.Collector.Step` | lua/lgc.c:556-607 | singlestep in place: the new state is that of the state machine, the invariant holds and every reachable object is still there |
| `LuaGcCollector.Collector.FullGc` | lua/lgc.c:636-659 | luaC_fullgc in place: afterwards exactly what was reachable or fixed is left |
| `LuaGcCollector.Collector.ReallyMarkObject` | lua/lgc.c:69-112 | reallymarkobject in place computes the state machine's marking |
| `LuaGcCollector.Collector.PropagateStep` | lua/lgc.c:277-320 | propagatemark in place computes the state machine's step |
| `LuaGcCollector.Collector.PropagateRest` | lua/lgc.c:323-327 | propagateall in place |
| `LuaGcCollector.Collector.Begin` | lua/lgc.c:501-512 | markroot in place |
| `LuaGcCollector.Collector.Finish` | lua/lgc.c:525-553 | atomic in place, the flip of the white included |
| `LuaGcCollector.Collector.SweepOver` | lua/lgc.c:407-428 | sweeplist in place, from any position and for any count |
| `LuaGcCollector.Collector.StoreSlot` | lua/lgc.h:86-97 | a store with the barrier its kind calls for puts the value in the slot it names and nowhere else, keeps the invariant and computes the state machine's write |
| `LuaGcCollector.Collector.BarrierForth` | lua/lgc.c:662-672 | luaC_barrierf in place |
| `LuaGcCollector.Collector.BarrierBackward` | lua/lgc.c:675-683 | luaC_barrierback in place |
| `LuaGcCollector.Collector.NewObject` | lua/lgc.c:686-692 | a new object is white and linked where luaC_link, or the string table, puts it; the sweep pointer keeps its place |
| `LuaGcCollector.Collector.ReuseString` | lua/lstring.c:82-91 | luaS_newlstr in place: a string that is found dead, waiting for the sweep, is whitened again |
| `LuaGcCollector.Collector.GiveUpMarking` | lua/lgc.c:636-648 | the start of luaC_fullgc: pending marking is dropped, a pending sweep is left alone |
| `LuaTable.Table.RawSet` | lua/ltable.c:494-505 | t[key] = v updates the table, read as a map, at key and nowhere else; it fails only for nil keys or with 2^26 live keys |
| `LuaTable.Table.Get` | lua/ltable.c:435-491 | the luaH_get family returns what the map holds |
| `LuaTable.Table.Set` | lua/ltable.c:494-529 | the cell of a key, added if absent; no other entry changes, and with room no rehash happens |
| `LuaTable.Table.NewKey` | lua/ltable.c:399-429 | a new key gets a cell with a nil value, by placement or after a rehash, and the recursion with rehash ends |
| `LuaTable.Table.PutKey` | lua/ltable.c:399-429 | newkey short of rehashing computes the placement function in place, and reports when no node is free |
| `LuaTable.Table.TakePlace` | lua/ltable.c:409-417 | the chain surgery on three nodes in place |
| `LuaTable.Table.GetFreePos` | lua/ltable.c:382-388 | getfreepos: the next free node below lastfree, or none |
| `LuaTablePlacement.PlaceInv` | lua/ltable.c:399-429 | newkey keeps chains acyclic, in-degrees at most one, every key findable, and lastfree below the free nodes, in each of its three cases |
| `LuaTablePlacement.NoRoomIff` | lua/ltable.c:399-407 | newkey asks for a rehash exactly if the main position is taken and no node is free |
| `LuaTablePlacement.PlaceContents` | lua/ltable.c:399-429 | moving the colliding node, or chaining behind it, loses no entry: every lookup sees what it saw before |
| `LuaTableNodes.FindComplete` | lua/ltable.c:435-491 | walking the chain from the main position finds a key wherever it is, and finds nothing else |
| `LuaTable.Table.Rehash` | lua/ltable.c:333-349 | rehash keeps every entry and leaves room for the extra key, so re-inserting it cannot rehash again; it fails only with 2^26 live keys |
| `LuaTable.Table.Resize` | lua/ltable.c:297-324 | resize moves every live entry and changes none; no re-insertion triggers a rehash |
| `LuaTable.Table.SetNodeVector` | lua/ltable.c:272-294 | a new hash part of the next power of two, empty, or the overflow error |
| `LuaTable.Table.SetArrayVector` | lua/ltable.c:263-269 | the array part is cut or extended with nil |
| `LuaTable.Table.CountInt` | lua/ltable.c:211-219 | countint adds a key to the one slice it lies in, and to none if it is no candidate |
| `LuaTable.Table.NumUseArray` | lua/ltable.c:222-244 | the slices hold exactly the live keys of the array part |
| `LuaTable.Table.NumUseHash` | lua/ltable.c:247-260 | afterwards the slices and both totals count exactly the live keys of the whole table |
| `LuaTableSizes.ComputeSizes` | lua/ltable.c:189-208 | the result is the largest power of two of which more than half is in use, and the count is exactly the keys up to it |
| `LuaTableSizes.OptimalUnique` | lua/ltable.c:189-208 | there is only one such size |
| `LuaTableSizes.EarlyExit` | lua/ltable.c:203-204 | once every key is counted no larger size can be half used |
| `LuaTableSizes.TooLarge` | lua/ltable.c:195 | a size of which half exceeds the number of keys cannot be half used |
| `LuaTable.Table.Next` | lua/ltable.c:162-179 | luaH_next returns the first entry with a value after the given key, array before hash, or the invalid-key error |
| `LuaTable.Table.FindIndex` | lua/ltable.c:137-159 | findindex: the place of a key, dead or alive, in traversal order |
| `LuaTableTraversal.TraversalComplete` | lua/ltable.c:137-179 | however values are cleared or changed between calls, a traversal returns every key that has a value throughout, none twice, and in order of place |
| `LuaTableTraversal.NextIndex` | lua/ltable.c:162-179 | after an index, or at the start, comes the next index of the array part with a value |
| `LuaTableTraversal.FirstNode` | lua/ltable.c:162-179 | behind the last value of the array part comes the first node with a value, or the end |
| `LuaTableTraversal.NextNode` | lua/ltable.c:162-179 | after a node comes the next one with a value, or the end |
| `LuaTableForeach.ForEach` | lua/ltablib.c:39-53 | foreach with a body that clears entries at will visits no key twice, none that had no value, and leaves out none that still has one |
| `LuaTable.Table.GetN` | lua/ltable.c:560-576 | luaH_getn returns a border: t[n] present or n = 0, and t[n + 1] absent |
| `LuaTable.Table.UnboundSearch` | lua/ltable.c:532-553 | the doubling search, with its fallback to a linear one, ends at a border |
| `LuaTable.Table.LinearSearch` | lua/ltable.c:540-543 | the linear fallback ends, because a table has finitely many keys |
| `LuaTable.Table.Bisect` | lua/ltable.c:547-551 | the binary search between a present and an absent index ends at a border |
| `HashMapRefinement.RunRefines` | src/vm/seq.c:836-887 | after any run of inserts and removes, with any hashes, full collisions included, get and length agree with the finite map that the run stands for |
| `HashMapRefinement.RunRefinesKeys` | src/vm/seq.c:836-887 | with a hash function of the key, however many keys it gives one hash, get follows a finite map from keys, and length is the number of its keys |
| `HashMapRefinement.GetIsLookup` | src/vm/seq.c:850-858 | get is lookup in the contents |
| `HashMapRefinement.InsertUpdates` | src/vm/seq.c:873-883 | insert updates the contents at one key and keeps the trie and its count in order |
| `HashMapRefinement.InsertSameIff` | src/vm/seq.c:873-883 | insert keeps the root it finds if and only if the key has that very value already and does not lie in a collision node |
| `HashMapRefinement.CollisionCopies` | src/vm/seq.c:648-677 | with two keys of one hash, putting either in again with its own value makes new nodes for the same contents |
| `HashMapRefinement.RemoveUpdates` | src/vm/seq.c:860-871 | remove takes one key out, and returns the very same map if it was not there |
| `HashTrieMap.SetNodeOk` | src/vm/seq.c:425-767 | setting a key in any node changes the lookup of that key only, keeps the invariant, and reports an added leaf exactly when the key was absent |
| `HashTrieMap.SetSameIff` | src/vm/seq.c:425-767 | setting a key makes no new node if and only if the key has that very value already and does not lie in a collision node, through any nesting of index and full nodes |
| `HashTrieMap.WithoutNodeOk` | src/vm/seq.c:446-760 | removing a key from any node changes the lookup of that key only; the node is the same if the key was absent, and none is left after the last |
| `HashTrieMap.BitAt` | src/vm/seq.c:507-510 | every bit of a bitmap belongs to exactly one child |
| `HashTrieMap.InsertIndex` | src/vm/seq.c:512-541 | setting a bit moves exactly the children above it by one |
| `HashTrieMap.AssembleFind` | src/vm/seq.c:600-632 | index and full nodes look a key up in the child of its bit, wherever the switch between them falls |
| `HashBitmap.BitCountCounts` | src/vm/seq.c:409-421 | the five masked and shifted additions of bit_count give the number of bits set, for every word of 32 bits |
| `HashBitmap.IndexCounts` | src/vm/seq.c:507-510 | bit_count(bitmap & (bit - 1)) is the number of children before the one of the bit |
| `HashBitmap.TestBitIs` | src/vm/seq.c:519-541 | the test of a bit in the bitmap asks whether its slice has a child |
| `HashTrie.IndexOrder` | src/vm/seq.c:409-421 | the number of bits below a bit orders the children as the bits are ordered |
| `HashBitmap.MaskIs` | src/vm/seq.c:399-400 | the slice of a hash at a level is its quotient by 32 to that power modulo 32, for negative hashes too |
| `HashTrie.SlicesDetermine` | src/vm/seq.c:600-632 | two different 32-bit hashes differ in one of the seven slices, so splitting ends by shift 30 |
| `HashTrie.CollisionFindIndex` | src/vm/seq.c:636-646 | the search loop finds the leaf of the key, or reports -1 |
| `PersistentVector.RunRefines` | src/vm/seq.c:208-392 | in any mix of push, set and pop on any versions, every version holds exactly its sequence for ever |
| `PersistentVector.Index` | src/vm/seq.c:211-224 | the walk from the root returns the element of the sequence at every height, or the bounds error |
| `PersistentVector.PushAppends` | src/vm/seq.c:248-306 | push appends and keeps the trie dense, through a full tail and a full root |
| `PersistentVector.SetUpdates` | src/vm/seq.c:308-336 | set replaces one element and no other, or reports the index |
| `PersistentVector.PopDrops` | src/vm/seq.c:338-392 | pop drops the last element and keeps the trie dense, or reports the empty vector |
| `PersistentVector.ShapeCanonical` | src/vm/seq.c:208-392 | equal contents have equal structure |
| `PersistentVector.PopUndoesPush` | src/vm/seq.c:338-392 | pop(push(v, x)) is v, structure and all |
| `SaurusStack.GenGood` | src/compiler/gen.lua:454-478 | whatever expression gen is given, unless it evaluates a two-operand not, its code leaves one value on every control path, never reaches below its entry height, jumps strictly forward inside itself and names only what exists |
| `SaurusStack.CompiledIsOk` | src/compiler/gen.lua:480-487 | the same of whole programs and of every function inside them |
| `SaurusStack.GenIfGood` | src/compiler/gen.lua:170-197 | the conditional, whose both branches meet at one height |
| `SaurusStack.GenLetGood` | src/compiler/gen.lua:305-341 | let: the closure, the values and the call |
| `SaurusStack.GenLambdaGood` | src/compiler/gen.lua:271-303 | lambda with fixed or with variable arguments |
| `SaurusExact.CompiledIsOkIff` | src/compiler/gen.lua:374-385 | compiled code keeps the stack discipline if and only if the source evaluates no two-operand not |
| `SaurusExact.GenRises` | src/compiler/gen.lua:454-478 | generated code with consistent heights leaves at least one value, and exactly one only if no two-operand not is in it, at any depth |
| `SaurusExact.NotBreaks` | src/compiler/gen.lua:506 | (not 1 2) compiles to code that breaks the discipline |
| `StackFlow.Branch` | src/compiler/gen.lua:170-197 | a conditional of balanced parts is balanced, its two jumps included |
| `SaurusGenerator.Compile` | src/compiler/gen.lua:480-487 | the generator with its growing lists and patched jumps emits the code of the specification, or fails when that does |
| `SaurusGenerator.FuncState.Gen` | src/compiler/gen.lua:454-478 | gen in place: what it appends is the specified code, and its lists are the specified ones |
| `SaurusGenerator.FuncState.GenIf` | src/compiler/gen.lua:170-197 | the two jumps emitted without target and patched later are the specified ones |
| `SaurusGenerator.FuncState.GenArms` | src/compiler/gen.lua:178-196 | patching rewrites the two jumps and nothing between or behind them |
| `SaurusGenerator.FuncState.GenLambda` | src/compiler/gen.lua:271-303 | lambda in place, with the inner function generated into lists of its own |
| `SaurusBinding.NamesAre` | src/compiler/gen.lua:279-288 | the parameters of a lambda are its symbols in the order written; anything else among them is an error |
| `SaurusBinding.KeysAre` | src/compiler/gen.lua:319-326 | the keys of a let are every other element from the first, in the order written |
| `SaurusBinding.LastLabel` | src/compiler/gen.lua:51-57 | a label is found if and only if it is there, and of several of one name the last |
| `SaurusBinding.LambdaBinds` | src/compiler/gen.lua:271-303 | in the body of a called lambda the k-th parameter, as written, is the k-th argument |
| `SaurusBinding.CallPicks` | src/compiler/gen.lua:271-303 | ((lambda (p0 p1 ...) pk) e0 e1 ...) is the value of ek, for any number of parameters |
| `SaurusBinding.RestBinds` | src/compiler/gen.lua:289-290 | a lambda whose parameter is no list gets the vector of all arguments in order |
| `SaurusBinding.LetBinds` | src/compiler/gen.lua:305-341 | in the body of a let the k-th key is the k-th value |
| `SaurusGenerator.FuncState.GenLet` | src/compiler/gen.lua:305-341 | let in place |
| `SaurusGenerator.FuncState.GenCall` | src/compiler/gen.lua:111-118 | calls in place, tail calls included |
| `SaurusGenerator.FuncState.GenRec` | src/compiler/gen.lua:120-128 | rec in place |
| `SaurusGenerator.FuncState.GenBody` | src/compiler/gen.lua:135-143 | do and function bodies in place: all values but the last are dropped |
| `SaurusGenerator.FuncState.GenFetch` | src/compiler/gen.lua:91-109 | a name is a parameter, a capture or a global, in that order |
| `SaurusGenerator.FuncState.PushConst` | src/compiler/gen.lua:76-89 | push_const: the index of the first equal constant |
| `SaurusGenerator.FuncState.FindLabelIn` | src/compiler/gen.lua:51-57 | find_lable: the last label of the name |
| `SaurusCorrect.GenComputes` | src/compiler/gen.lua:454-478 | compiler correctness on literals, nil, parameters, if, do, arithmetic and comparisons: run from its first instruction, the code stops just behind its last with exactly the source value pushed and nothing below changed, or raises exactly the source error |
| `SaurusCorrect.CallComputes` | src/vm/core.c:991-1077 | calling a function compiled from such a body takes callee and arguments off the stack and pushes the value of the body, or raises its error |
| `SaurusCorrect.IfComputes` | src/compiler/gen.lua:170-197 | conditionals compute the chosen branch and only it |
| `SaurusCorrect.OperatorComputes` | src/compiler/gen.lua:356-411 | operators compute their operands in the order of the code, right to left for > and >=, and then the result or the type error |
| `SaurusPrograms.ProgramAgrees` | src/compiler/gen.lua:480-487 | compiler correctness for whole programs with closures: any text of literals, variables, if, do, lambda, let, rec, calls, arithmetic and comparison that fits its bytes and whose do outside tail position ends in no call, run on any argument, ends with a value standing for the evaluator's, raises the evaluator's error, or is still running after as many turns as the evaluator was allowed calls |
| `SaurusPrograms.ProgramExact` | src/vm/core.c:895-1110 | conversely, when the machine stops after n turns it has stopped with the value or the error that the evaluator finds with n calls: the two end together |
| `SaurusPrograms.CallAgrees` | src/vm/core.c:1016-1077 | calling a compiled closure, or a vector, with any arguments puts a value standing for the evaluator's in the place of callee and arguments and leaves all below as it was, or raises the evaluator's error, arity errors included, or runs on as the evaluator does |
| `SaurusPrograms.ProgramCompiles` | src/compiler/gen.lua:480-487 | a text of that language compiles, evaluates no two-operand not, and has functions that all capture from their creator's frame if and only if no name in it is used from further out than its function's creator |
| `SaurusPrograms.ProgramInside` | src/compiler/gen.lua:454-478 | the evaluator gives such a text a value, an error of the language, or runs out of fuel, and never meets a form or a callee it does not cover |
| `SaurusClosureRuns.GenRuns` | src/compiler/gen.lua:454-478 | the code of an expression, wherever it is placed in a frame for its variables, pushes its value; in tail position the function returns it, through tail calls or not |
| `SaurusClosureRuns.ApplyRuns` | src/vm/core.c:1016-1046 | by induction on the number of calls: whoever calls a function, ordinarily or by a tail call, gets what the evaluator gives for it |
| `SaurusClosureRuns.LambdaRuns` | src/compiler/gen.lua:271-303 | lambda, with named parameters or one for all arguments, makes a closure over the values its creator's parameters have now |
| `SaurusClosureRuns.LetRuns` | src/compiler/gen.lua:305-341 | let calls a closure over the keys with the values |
| `SaurusClosureRuns.RecRuns` | src/compiler/gen.lua:120-128 | rec calls the running function again |
| `SaurusClosureCalls.CaptureIs` | src/vm/core.c:825-829 | captures with lv 1 are the values of the creator's parameters |
| `SaurusClosureCalls.CallEnters` | src/vm/core.c:1018-1038 | the callee finds itself, its arguments, packed into a vector if it takes any number, and its captures in its frame, and its return finds the caller |
| `SaurusClosureCalls.TailCallFinishes` | src/vm/core.c:1005-1046 | a call in tail position moves callee and arguments down and lets the callee return to the caller's caller |
| `SaurusClosureCalls.VectorCalled` | src/vm/core.c:1047-1062 | a vector called with one number gives the element at it, truncated, or the errors for the number, type and range of arguments |
| `SaurusBinding.TruncateIs` | src/vm/core.c:398-400 | the cast of su_tointeger goes towards zero, is odd, and leaves whole numbers alone |
| `SaurusBinding.VectorElement` | src/vm/core.c:1047-1062 | a vector called with the number i gives its element i, the first being element 0, or the range error |
| `SaurusBinding.ElementIs` | src/vm/core.c:1047-1062 | the evaluator's vectors do the same |
| `SaurusOperators.OperatorText` | src/compiler/gen.lua:356-411 | each of the fourteen operators computes its operands in the order written, > and >= the other way round, and then its own instruction |
| `SaurusOperators.OperatorValue` | src/vm/core.c:932-982 | what (name x y) is on any two numbers, for each operator but not |
| `SaurusOperators.OperandError` | src/vm/core.c:902-914 | an operand that is no number is an error that names its type; the operand computed first is checked first |
| `SaurusOperators.LogicIs` | src/vm/core.c:971-982 | and is the conjunction of any two values; or is true of any two, hence their disjunction exactly if one of them is true |
| `SaurusOperators.NotIs` | src/vm/core.c:964-970 | not gives the opposite truth of a value if and only if it is a boolean |
| `SaurusOperators.EqualIs` | src/vm/core.c:952-961 | req tells types apart, compares numbers by value and all else by identity |
| `SaurusOperators.BranchIs` | src/vm/core.c:983-987 | a branch is taken for every value but nil and false |
| `SaurusOperators.ConstKept` | src/compiler/gen.lua:76-89 | a constant is found where its instruction looks for it, those that were there keep their places, and none is added twice |
| `SaurusOperators.GlobalText` | src/compiler/gen.lua:91-109 | a name that is no parameter of any function around it is fetched as a global of that name |
| `SaurusOperators.LiteralText` | src/compiler/gen.lua:457-462 | nil, true and false are constants of their names, quoted or not; the machine reads that of nil as nil |
| `SaurusOperators.DefineText` | src/compiler/gen.lua:342-354 | (define name e) computes e and gives its value the name |
| `SaurusOperators.DefineIs` | src/vm/core.c:1090-1099 | a definition changes that name and no other, and defining it again is an error |
| `SaurusOperators.GlobalIs` | src/vm/core.c:1082-1089 | fetching a global gives its value, or the error that there is none |
| `SaurusOperators.NativeCalled` | src/vm/core.c:1039-1046 | a native function gets its arguments in order, and its result, or nil, takes the place of the call |
| `SaurusOperators.QuotedText` | src/compiler/gen.lua:145-168 | a quoted list of atoms calls the function list with the atoms in order, numbers as numbers and symbols as their names |
| `SaurusOperators.UnquoteText` | src/compiler/gen.lua:145-168 | inside quoted text (unquote e) is e again |
| `SaurusTailCalls.EscapesIff` | src/compiler/gen.lua:135-143 | a program makes a tail call with something left to do if and only if a do whose value is not its function's ends in a call, in a function whose tail calls are generated as such |
| `SaurusPrograms.DoEscapes` | src/compiler/gen.lua:142 | in (+ 1 (do (f))) the function returns what f returns and never adds |
| `SaurusCaptures.CaptureFromBelow` | src/vm/core.c:825-829 | (let (x 1) (let (y 2) (let (z 3) x))) as a program gives 1 by scoping and its own argument on the machine: the lets in tail position have given up the frames the capture counts on |
| `SaurusCaptures.CapturesIff` | src/compiler/gen.lua:59-66 | in a program whose names are all bound, at any depth, every capture is from the creator's frame if and only if no name is used from further out than its function's creator |
| `SaurusCaptures.CaptureIsLexical` | src/vm/core.c:825-829 | if the frames below are those of the functions around the closure's text, a capture from any depth has the value that scoping gives the name |
| `SaurusCaptures.CaptureFromAncestor` | src/vm/core.c:825-829 | (let (x 1) (- (let (y 2) (- (let (z 3) x))))), with the same capture but the lets outside tail position, gives 1 by scoping and on the machine |
| `SaurusCaptures.CaptureSlots` | src/vm/core.c:825-829 | each capture reads the slot of its variable in the frame that lies lv below the top one, whoever's it is |
| `SaurusInterpreter.Interpreter.Turn` | src/vm/core.c:895-1110 | one turn of vm_loop on stack, frames and pc in place is one step of the machine |
| `SaurusInterpreter.Interpreter.Run` | src/vm/core.c:895-1110 | the loop runs the steps of the machine in order |
| `SaurusInterpreter.Interpreter.CallOp` | src/vm/core.c:1016-1077 | OP_CALL of a function: arity, packed arguments and the new frame |
| `SaurusInterpreter.Interpreter.TailCallOp` | src/vm/core.c:1005-1046 | OP_TCALL: the frame is given up and the call made in its place |
| `SaurusInterpreter.Interpreter.ReturnOp` | src/vm/core.c:991-1000 | OP_RETURN in place |
| `SaurusInterpreter.Interpreter.Captured` | src/vm/core.c:811-836 | the loop of lambda copies the captured values |
| `SaurusSafety.CompiledNeverStuck` | src/vm/core.c:895-1110 | a compiled program that fits and captures locally never reads below its stack, leaves its code or names a constant or function that is not there, however long it runs |
| `SaurusSafety.StepSafe` | src/vm/core.c:895-1110 | every turn keeps a well-placed state well placed, raises an error of the language, or ends the run |
| `SaurusTail.TailCallEquivalent` | src/vm/core.c:1005-1046 | a run from TCALL n and a run from CALL n; RETURN end in the same way with the same state, values and errors, in turns that differ by at most one, and the one is endless exactly when the other is |
| `SaurusTail.ChainFrames` | src/vm/core.c:1005-1046 | a chain of tail calls, of any length, never raises the number of frames |
| `SaurusTail.LiftStep` | src/vm/core.c:895-1110 | with one finished frame and some values more in the middle of the stack, one turn does the same |
| `SaurusWidth.WideComputes` | src/vm/core.c:72-76 | a function with n constants computes its value if and only if n is at most 256 |
| `SaurusVm.EncodeFits` | src/vm/core.c:72-81 | a prototype passes through operand fields of 8 and 16 bits unchanged if and only if its operands fit |
| `SaurusBytecode.GetProtoPut` | src/compiler/compile.lua:65-111 | reading the bytes of a function, whatever follows them, yields the machine's form of it and leaves what follows |
| `SaurusBytecode.SurvivesIff` | src/compiler/writebin.c:47-130 | the machine gets the function as it was compiled if and only if all operands fit their fields and no string has a NUL or, as a constant, is "nil" |
| `SaurusFormat.SectionsAre` | src/compiler/compile.lua:65-111 | the bytes of a function: count and instructions of four bytes each, count and constants, count and captures, count and inner functions, name, count and lines, in that order, low bytes first |
| `SaurusFormat.InstBytesAre` | src/compiler/compile.lua:66-72 | the four bytes of an instruction: its number, its first operand, and the low and the high byte of the second |
| `SaurusFormat.UpBytesAre` | src/compiler/compile.lua:95-99 | the four bytes of a capture: how far out, then which variable, low bytes first |
| `SaurusFormat.ConstIs` | src/compiler/compile.lua:74-93 | the tag of each constant, and what follows it |
| `SaurusFormat.StringIs` | src/compiler/writebin.c:96-125 | a string is its length with the terminator, its characters up to the first NUL, and the terminator |
| `SaurusBytecode.BytesDetermine` | src/compiler/compile.lua:65-111 | no function's bytes begin another's that the machine would see differently |
| `SaurusBytecode.GetInstPut` | src/compiler/compile.lua:65-72 | an instruction comes back with id and a modulo 2^8 and b as a signed 16-bit number |
| `SaurusBytecode.GetStringPut` | src/compiler/writebin.c:96-125 | a string comes back up to its first NUL, with its terminator |
| `SaurusBytecode.GetConstPut` | src/compiler/compile.lua:74-93 | constants come back as themselves, "nil" as the constant nil |
| `SaurusBytecodeIo.Writer.CompileFunc` | src/compiler/compile.lua:65-111 | compile_func in place appends exactly the bytes of the function |
| `SaurusBytecodeIo.ReaderBuffer.Read` | src/vm/core.c:155-181 | buffer_read delivers the next n bytes from as many chunks as it takes, or reports the end |
| `SaurusBytecodeIo.FlatJoins` | src/vm/core.c:155-181 | what a reader hands out is its chunks one after the other, up to the first empty one |
| `SaurusBytecodeIo.ReaderBuffer.Refill` | src/vm/core.c:170-178 | the buffer grows until the next chunk fits and then holds it |
| `SaurusBytecodeIo.ReaderBuffer.ReadString` | src/vm/core.c:732-745 | read_string in place |
| `SaurusBytecodeIo.ReaderBuffer.ReadPrototype` | src/vm/core.c:747-807 | read_prototype in place computes the reading function, failures included |
| `SaurusBytecodeIo.Reload` | src/vm/core.c:747-807 | however the bytes are cut into chunks, a compiled function is read back as the machine's form of it, the very same exactly when it fits |
| `SaurusImage.ReadsEncoded` | src/vm/core.c:747-807 | what the machine sees of a generated prototype after writing and reading is that prototype with its operands cut to their fields, and is the same exactly if they fit |
| `SaurusImage.OpOrder` | src/compiler/compile.lua:25-63 | the number of each instruction is its place in the list that compiler and machine have in the same order |
| `SaurusImage.OpSeen` | src/compiler/compile.lua:29-63 | the numbers of instruction_matrix are those of the machine's enumeration |
| `LuaPatternMeaning.MatchDecides` | lua/lstrlib.c:365-440 | match fails only if every choice of repetitions fails, and otherwise gives the end, captures or error of the first choice in greedy and lazy order that does not |
| `LuaPatternSpans.MatchSpans` | lua/lstrlib.c:329-351 | for every match there is a way through pattern and subject on which each item passes over what it may, and each capture holds what stands between its two parentheses on that way, or its position |
| `LuaPatternSpans.CapturesLieWithin` | lua/lstrlib.c:343-351 | every closed capture of a match lies between its start and its end |
| `LuaPattern.CloseCapture` | lua/lstrlib.c:343-351 | closing a capture keeps its start, ends it before the place given, and changes no other |
| `LuaPatternText.ItemReads` | lua/lstrlib.c:365-440 | the text of every item, parentheses, %b, %f, back references, anchors and suffixes, is read as that item, and the next one begins behind it |
| `LuaPatternText.SingleReads` | lua/lstrlib.c:202-278 | the text of a single-character item, sets with their ranges, classes and complement included, ends where it should and matches the characters it stands for |
| `LuaPatternText.MalformedReads` | lua/lstrlib.c:202-223 | an escape or %b cut short, %f without a set and a set never closed are the errors they should be |
| `LuaPatternItems.LettersAre` | lua/lstrlib.c:225-243 | the classes of letters and digits |
| `LuaPatternItems.SignsAre` | lua/lstrlib.c:225-243 | the classes of punctuation, space, control characters and NUL |
| `LuaPatternItems.EscapedIsItself` | lua/lstrlib.c:225-243 | any other character after the escape stands for itself |
| `LuaPatternItems.ReferenceIs` | lua/lstrlib.c:186-191 | %n is the n-th capture, counted from 1, if it is closed, and an error otherwise |
| `LuaPatternItems.RepeatsCapture` | lua/lstrlib.c:354-363 | a back reference reaches over exactly a repetition of the captured characters; a position capture matches nowhere |
| `LuaPatternItems.FrontierIs` | lua/lstrlib.c:383-395 | %f: the character before is not in the set and the one here is, NUL standing for both ends of the subject |
| `LuaPatternItems.BracketIsUnion` | lua/lstrlib.c:245-265 | a bracketed set stands for the union of the ranges, classes and characters written in it, and with ^ for the complement of the union |
| `LuaPatternItems.UpperComplements` | lua/lstrlib.c:225-243 | a class letter in upper case matches exactly what the lower-case one does not |
| `LuaPatternItems.MatchBalanceIs` | lua/lstrlib.c:281-298 | %b reaches from an opening delimiter to behind the first place where as many have closed as opened, and matches nowhere if there is no such place |
| `LuaPatternMeaning.MaxTryDecides` | lua/lstrlib.c:301-313 | max_expand tries the most repetitions first |
| `LuaPatternMeaning.MinTryDecides` | lua/lstrlib.c:316-326 | min_expand tries the fewest repetitions first |
| `LuaMatcher.MatchState.DoMatch` | lua/lstrlib.c:365-440 | match with its array of captures computes the specified outcome; on failure the level and all open captures are as before |
| `LuaMatcher.MatchState.MaxExpand` | lua/lstrlib.c:301-313 | max_expand in place, with captures restored between tries |
| `LuaMatcher.MatchState.MinExpand` | lua/lstrlib.c:316-326 | min_expand in place |
| `LuaMatcher.MatchState.StartCapture` | lua/lstrlib.c:329-340 | start_capture: a failed match gives the level back |
| `LuaMatcher.MatchState.EndCapture` | lua/lstrlib.c:343-351 | end_capture: the capture ends here; a failed match opens it again |
| `LuaMatcher.MatchState.CaptureToClose` | lua/lstrlib.c:194-199 | the last open capture, or the error |
| `LuaMatcher.MatchState.MatchBracketClass` | lua/lstrlib.c:245-265 | the loop over a bracketed set decides membership, ranges, classes and complement |
| `LuaMatcher.MatchState.FindClassEnd` | lua/lstrlib.c:202-223 | classend: the end of a single-character item, or its errors |
| `LuaMatcher.MatchState.FindBalance` | lua/lstrlib.c:281-298 | matchbalance: the place behind the balancing character |
| `LuaMatcher.MatchState.Find` | lua/lstrlib.c:515-532 | the search loop finds the first starting place with a match, and reports none only if every choice at every place fails |
| `LuaMatcher.MemFind` | lua/lstrlib.c:444-463 | lmemfind finds the first occurrence, or there is none |
| `LuaSort.Sort` | lua/ltablib.c:256-264 | with any strict weak order the array ends up a sorted permutation, and no order function is reported invalid |
| `LuaSort.AuxSort` | lua/ltablib.c:193-254 | the range is sorted in place; the recursion is never deeper than log2 of the range length plus one |
| `LuaSort.Partition` | lua/ltablib.c:218-243 | the two scans and exchanges leave the pivot between smaller and larger elements, and permute only inside the range |
| `LuaSort.ScanUp` | lua/ltablib.c:226-229 | the upward scan never leaves the range |
| `LuaSort.ScanDown` | lua/ltablib.c:231-234 | the downward scan never leaves the range |
| `SaurusCollector.Machine.Collect` | src/vm/gc.c:118-228 | a collection frees exactly the white objects that no path of white objects leads to, keeps the others in their order, and leaves them white |
| `SaurusCollector.Machine.Scan` | src/vm/gc.c:133-186 | scan ends, scans every object at most once, and blackens exactly the white objects reached through white ones |
| `SaurusCollector.Machine.Sweep` | src/vm/gc.c:188-209 | end unlinks exactly the white objects of the list, first, last and adjacent ones included, whitens the rest and keeps num_objects the length of the list |
| `SaurusCollector.Machine.Begin` | src/vm/gc.c:118-131 | begin grays the roots that are white |
| `SaurusCollector.Machine.AddToGray` | src/vm/gc.c:34-40 | an object is grayed once, and only if it is white |
| `SaurusCollector.Machine.Trace` | src/vm/gc.c:211-219 | gc_trace does the same only beyond the threshold |
| `SaurusCollector.SurviveIff` | src/vm/gc.c:118-209 | every reachable object survives if and only if new objects hide no older one |
| `SaurusCollector.OldAllSurvive` | src/vm/gc.c:118-209 | when no object is new, every reachable object survives |
| `SaurusCollector.NewHides` | src/vm/gc.c:34-40 | a new object that alone refers to an older one loses it |
| `SaurusCollector.OldKeepChildren` | src/vm/gc.c:133-186 | an older object that survives keeps everything it refers to |
| `LuaJumpLists.FuncState.Concat` | lua/lcode.c:185-196 | luaK_concat of two disjoint lists is list append, and fails exactly when the last jump cannot reach the second list |
| `LuaJumpLists.FuncState.PatchListAux` | lua/lcode.c:150-160 | every listed jump gets the target its control calls for, its TESTSET the register, and nothing else changes; it fails exactly when a target is out of range |
| `LuaJumpLists.PatchedLands` | lua/lcode.c:117-160 | a listed jump behind a TESTSET goes to vtarget and any other one to dtarget; the TESTSET stores into the register, or tests its own if there is none or it is that one; nothing else changes |
| `LuaJumpLists.CanPatchIff` | lua/lcode.c:80-87 | patching fails exactly if one of those targets is out of reach |
| `LuaJumpLists.FuncState.Link` | lua/lcode.c:185-196 | luaK_concat on the code: the last jump of the first list is led to the second |
| `LuaJumpLists.FuncState.Code` | lua/lcode.c:797-809 | emitting an instruction makes every waiting jump land on it |
| `LuaJumpLists.FuncState.Jump` | lua/lcode.c:59-66 | luaK_jump returns the list of the new jump and those that were waiting |
| `LuaJumpLists.FuncState.PatchToHere` | lua/lcode.c:179-182 | the list is appended to the waiting one |
| `LuaJumpLists.FuncState.PatchList` | lua/lcode.c:169-176 | patching to an earlier place, or to the next instruction |
| `LuaJumpLists.FuncState.FixJump` | lua/lcode.c:80-87 | fixjump, and its range error |
| `LuaJumpLists.PatchToHereLands` | lua/lcode.c:179-182 | after luaK_patchtohere and the next instruction every jump of the list lands on it, and of the rest at most a controlling TESTSET has changed |
| `LuaJumpLists.EveryJump` | lua/lcode.c:80-106 | at any time each jump goes where it was last made to go or is in exactly one list, without cycles |
| `LuaJumpLists.ChainUnique` | lua/lcode.c:100-106 | the first jump determines a list |
| `LuaJumpLists.ChainAcyclic` | lua/lcode.c:100-106 | a list that ends has no cycle |
| `LuaJumpLists.LinkAppends` | lua/lcode.c:185-196 | redirecting the last jump appends a disjoint list |

## Left out

- lua/lgc.c: weak tables, finalizers and userdata with `__gc`, open upvalues, the pacing arithmetic of luaC_step, the clearing of stack slots above top, the shrinking of the string table and of stacks, luaC_freeall.
- lua/ltable.c: dead keys made by the collector, NaN and -0 as keys, the state after "table overflow", array parts beyond 2^26, the metamethod flags.
- lua/ltable.c: luaH_resizearray, a call of resize with sizes of its own.
- src/vm/seq.c: iterator sequences over strings, vectors and maps; the 32-bit widths of counts and shifts; keys -0.0 and 0.0, which are equal but hash differently. Keys are compared by one equality. Nodes hold their bitmaps as sets of bit positions, which HashBitmap ties to words.
- src/compiler/gen.lua: macros and quoting through the host's state; line information.
- src/compiler/gen.lua: values of `true` and `false`, which are written as strings.
- src/vm/core.c: maps as callees (lines 1064 to 1077), string and vector primitives, error handlers by setjmp, the stack and frame limits, inf and nan. A native function is a pure function of its arguments.
- src/vm/core.c: runs of whole programs with captures of lv above 1, beyond the two in SaurusCaptures: SaurusSafety.CompiledNeverStuck asks for captures from the creator's frame, and SaurusPrograms.ProgramAgrees for names from no further out.
- SaurusPrograms.ProgramAgrees: the evaluator has no globals, no quoting, no native functions, and none of `and`, `or`, `not`, `req`, `/`, `%`, `^`.
- SaurusPrograms.ProgramExact: the same language.
- lua/lapi.c: the registry set while marking lasts to what is not marked yet is no operation of the runs in LuaGcSafety, since it breaks the invariant (LuaGcSafety.RegistryInv).
- src/vm/core.c: verify_header, failing allocations, and an unknown constant id in a release build; reader and writer are taken to agree on byte order.
- src/vm/gc.c: the fixed capacity of the gray stack, the prototypes owned by functions, and the registry of local references. The gray stack is taken to be empty between collections, so that the first loop of su_gc has nothing to do.
- lua/lstrlib.c: gsub, gmatch, format and the conversion of captures to values; character classes are those of the C locale.
- lua/ltablib.c: order functions that raise errors or change the array; elements that are nil.
- lua/lcode.c: expressions and registers; only the lists and the instructions they touch are modelled.
- The parser of either language, the read-eval-print loop, and all input and output.
