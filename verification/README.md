# Verified models of the notebook's algorithms

This project models the programs of the notebook that carry a deep correctness argument, and proves what they
promise. Each model is written in the form of its source: classes with fields where objects are updated in place,
loops with invariants where the source loops, and plain functions where it only computes.

- **SSA construction** (`Ir`, `Dominance`, `Cfg`, `DominatorTree`, `Lowering`, `Builder`, `Renaming`,
  `ReachingDefs`, `SsaForm`, `Pipeline`, `Structured`, `Naming`, `Compile`, `SsaMeaning`, `Preservation`, `NestedThen`): a small
  compiler middle end, from syntax trees to a control flow graph, its dominator tree and dominance frontiers, phi
  placement and renaming, up to the proof that the program in SSA form does what its trees do.
  Dominance is defined over paths alone. The renaming pops its stack for assignments and not for phis, so entries
  of phis stay behind. The naming properties are therefore equivalences. For one read or phi argument: it carries
  the definition that reaches it on every path if and only if no block between that definition and the read has an
  earlier sibling in the dominator tree with a phi below it. For a whole program: all names of a variable are right
  if and only if no else-arm takes a value from before a conditional that has a phi for it in its then-arm, which
  can be read off the graph before renaming and never happens without a conditional under a then-arm. `NestedThen`
  compiles a small program for which it happens.
- **Suffix automaton** (`SuffixTheory`, `SuffixStep`, `SuffixAutomaton`): the online construction with clones and
  redirected transitions, against plain substrings.
- **Prim's algorithm** (`SpanningTrees`, `Prim`): a lazy priority queue with stale entries, and minimality by the
  cut and exchange argument.
- **Strassen multiplication** (`MatrixTheory`, `Strassen`): flat buffers, the triple loop and the recursion over
  exact integers.
- **Shell sort** (`ShellSort`): h-sorting keeps k-order, and what follows for the order and the number of writes.
- **Task queue** (`TaskQueue`): the worker pool as a state machine over all interleavings of one controller, any
  number of workers and any number of pushing threads.
- **Memory pool** (`MemoryPool`, `StackAllocator`): block, bump and free-list allocation with address arithmetic,
  and the stack built on it.
- **SHA-2** (`Sha512`, `Sha256`, `Sha256Stream`, `Roots`, `Sha2Constants`, `Sha256Answers`, `Sha512Answers`): the
  rolling schedule against the full one, the byte stream with its padding, the constants as digits of roots of primes,
  and published digests.
- **CRC-32** (`Crc32`): the macro-generated table and the byte loop against the division one bit at a time.
- **LRU cache** (`LruCache`): list and index against a recency specification.

`Common` holds the few notions that several of them share.

Modelling notes:

- Blocks of the control flow graph are named by their index in `BasicBlocks`, which is the block's `Index` field;
  `Dominator` starts as null. `VisitedMap` is the set of blocks whose entry is nonzero.
- `operator new` is a parameter of the allocating methods: a block address aligned for the slot type and apart
  from the blocks the pool owns. Memory words are kept at the address where they start; writing one forgets
  every other word that shares a byte with it, and releasing a block forgets all its words.
- The priority queue is a multiset with extraction of the least pair. A list iterator of the cache is the identity
  of its node.
- In the task queue a step is the part of a thread between two points where another thread may act; waking from
  the condition variable, also without notice, takes the mutex and evaluates the predicate again. The history of
  accepted, taken and finished tasks is part of the state.
- Strassen splits each operand in its own loop where the source splits both in one.
- The expression evaluator of the lowered programs is a parameter.

`dafny verify dfyconfig.toml` checks everything.

## Model

| member | source | states |
|---|---|---|
| Cfg.CFG.PredOrderDFS | 2022-03-17-SSA-form-implementation/main.cpp:220-226 | Marks and lists exactly the blocks reachable from the start without touching marked ones, and every listed block comes after a predecessor that led to it. |
| Cfg.CFG.ComputePredOrder | 2022-03-17-SSA-form-implementation/main.cpp:213-218 | The preorder lists exactly the reachable blocks, each once, entry first. |
| Cfg.CFG.PostOrderDFS | 2022-03-17-SSA-form-implementation/main.cpp:235-241 | Same set of blocks, each once, and any block that a listed block strictly dominates is listed before it. |
| Cfg.CFG.ComputePostOrder | 2022-03-17-SSA-form-implementation/main.cpp:228-233 | The postorder lists exactly the reachable blocks, and what a block dominates comes before it. |
| Cfg.CFG.DomDFS | 2022-03-17-SSA-form-implementation/main.cpp:262-269 | With some blocks marked beforehand, marks exactly the blocks reachable while avoiding the marked ones. |
| Cfg.CFG.MarkAround | 2022-03-17-SSA-form-implementation/main.cpp:248-250 | With one block pre-marked, a reachable block stays unmarked exactly when the pre-marked one is a strict dominator of it. |
| Cfg.ExploredExactly | 2022-03-17-SSA-form-implementation/main.cpp:262-269 | A finished depth-first search holds exactly what is connected to its start outside the avoided set. |
| Cfg.PreorderDominators | 2022-03-17-SSA-form-implementation/main.cpp:220-226 | In the preorder every strict dominator of a block stands before it. |
| Cfg.PostorderDominated | 2022-03-17-SSA-form-implementation/main.cpp:235-241 | In the postorder every block a block strictly dominates stands before it. |
| Cfg.LastDominatorIsImmediate | 2022-03-17-SSA-form-implementation/main.cpp:247-254 | The strict dominator that comes last in preorder is the immediate one, so the last overwrite wins rightly. |
| Cfg.CFG.AssignDominator | 2022-03-17-SSA-form-implementation/main.cpp:251-253 | One round records the chosen block as dominator of exactly the blocks it strictly dominates. |
| Cfg.CFG.ListChildren | 2022-03-17-SSA-form-implementation/main.cpp:256-259 | Each block lists exactly the blocks whose dominator it is, in block order. |
| Cfg.CFG.ComputeDominatorTree | 2022-03-17-SSA-form-implementation/main.cpp:243-260 | Every reachable block except the entry has its immediate dominator (defined over paths), all others have none, and the child lists mirror the dominators. |
| Cfg.FrontierEquation | 2022-03-17-SSA-form-implementation/main.cpp:278-287 | The path definition of the dominance frontier satisfies the local/up recurrence used by the loops. |
| Cfg.CollectedFrontier | 2022-03-17-SSA-form-implementation/main.cpp:278-287 | Collecting from successors and from dominator-tree children yields exactly the frontier of the path definition. |
| Cfg.CFG.AddSuccessors | 2022-03-17-SSA-form-implementation/main.cpp:279-281 | The first inner loop adds exactly the successors the block does not immediately dominate. |
| Cfg.CFG.AddFromChild | 2022-03-17-SSA-form-implementation/main.cpp:283-286 | One child contributes exactly its frontier blocks that are not immediately dominated. |
| Cfg.CFG.FrontierOf | 2022-03-17-SSA-form-implementation/main.cpp:278-287 | After its round a block holds its whole dominance frontier. |
| Cfg.CFG.ComputeBaseDominanceFrontier | 2022-03-17-SSA-form-implementation/main.cpp:271-288 | The table maps every block to its dominance frontier: the Y such that it dominates a reachable predecessor of Y and does not strictly dominate Y. |
| Cfg.CFG.GetMergedDominanceFrontierFromSubset | 2022-03-17-SSA-form-implementation/main.cpp:290-302 | The union of the frontiers of the subset. |
| Cfg.CFG.GetDominanceFrontierForSubset | 2022-03-17-SSA-form-implementation/main.cpp:304-320 | Terminates on every subset and returns the least set T with T = DF(S and T together). |
| Cfg.CFG.CommitAllChanges | 2022-03-17-SSA-form-implementation/main.cpp:322-327 | From a fresh graph: orders, dominator tree and frontier table all right, code unchanged. |
| Dominance.DomChain | 2022-03-17-SSA-form-implementation/main.cpp:243-269 | Two dominators of a reachable block are ordered by dominance. |
| Dominance.IDomExists | 2022-03-17-SSA-form-implementation/main.cpp:243-254 | Every reachable block other than the entry has an immediate dominator, which lies on any path to it. |
| Dominance.FrontierUp | 2022-03-17-SSA-form-implementation/main.cpp:283-286 | A frontier block of a dominator-tree child that is not immediately dominated is in the frontier. |
| Dominance.FrontierDown | 2022-03-17-SSA-form-implementation/main.cpp:283-286 | A frontier block that is not local comes from a child of the dominator tree. |
| DominatorTree.SiblingsDisjoint | 2022-03-17-SSA-form-implementation/main.cpp:535-536 | Subtrees of different children of the dominator tree have no block in common. |
| DominatorTree.BelowSplits | 2022-03-17-SSA-form-implementation/main.cpp:535-536 | The blocks a block dominates are itself and those below its children. |
| Builder.CFGBuilder.constructor | 2022-03-17-SSA-form-implementation/main.cpp:584-592 | A new builder has the entry block alone, and the building invariant holds. |
| Builder.CFGBuilder.CreateBlock | 2022-03-17-SSA-form-implementation/main.cpp:584-589 | Appends one empty block and returns its index. |
| Builder.CFGBuilder.AddLink | 2022-03-17-SSA-form-implementation/main.cpp:174-179 | Adds the edge on both sides unless it is there already. |
| Builder.MirroredLink | 2022-03-17-SSA-form-implementation/main.cpp:174-179 | A link added to both lists keeps predecessors the mirror of successors. |
| Builder.CFGBuilder.CreateBranch | 2022-03-17-SSA-form-implementation/main.cpp:594-597 | Links the current block to the target and appends the jump. |
| Builder.CFGBuilder.CreateConditionalBranch | 2022-03-17-SSA-form-implementation/main.cpp:599-603 | Links the current block to both targets, in order, and appends the branch. |
| Builder.CFGBuilder.VisitAssign | 2022-03-17-SSA-form-implementation/main.cpp:609-612 | Appends the assignment, records the block for the variable, and keeps the invariant; the new code does what the assignment does. |
| Builder.CFGBuilder.OpenIf | 2022-03-17-SSA-form-implementation/main.cpp:615-621 | Creates the three blocks and the branch on the condition, with the then-block current. |
| Builder.CFGBuilder.JumpAndEnter | 2022-03-17-SSA-form-implementation/main.cpp:623-629 | Ends an arm with a jump to the merge block and enters the next block. |
| Builder.CFGBuilder.VisitIf | 2022-03-17-SSA-form-implementation/main.cpp:614-630 | Lowers a conditional: the new part of the graph does what the tree does, changes only the current and new blocks, and is a single-entry region with a record of its arms. |
| Builder.CFGBuilder.VisitBinary | 2022-03-17-SSA-form-implementation/main.cpp:632-635 | Lowers both operands one after the other, as a statement sequence. |
| Builder.CFGBuilder.Traverse | 2022-03-17-SSA-form-implementation/main.cpp:605-607 | For every tree the invariant is kept, the graph built implements the tree from the old current point to the new one, and the state is the one the lowering function gives. |
| Builder.IfLowered | 2022-03-17-SSA-form-implementation/main.cpp:614-630 | If both arms are lowered, the whole conditional is. |
| Builder.SequenceLowered | 2022-03-17-SSA-form-implementation/main.cpp:632-635 | Two lowered parts in sequence are lowered. |
| Lowering.ImplementsIf | 2022-03-17-SSA-form-implementation/main.cpp:614-630 | A branch, two implementing arms and jumps to the merge point implement the conditional, for every evaluator. |
| Lowering.ImplementsSequence | 2022-03-17-SSA-form-implementation/main.cpp:632-635 | Implementations compose in sequence. |
| Lowering.ImplementsAssign | 2022-03-17-SSA-form-implementation/main.cpp:609-612 | An assignment statement performs the assignment of its tree. |
| Lowering.RunExtends | 2022-03-17-SSA-form-implementation/main.cpp:584-635 | Adding code elsewhere does not change a run. |
| Compile.BuildProgram | 2022-03-17-SSA-form-implementation/main.cpp:584-635 | For every program and every evaluator, running the graph from Entry performs the assignments of the trees in the same order with the same store and stops at the end; predecessors mirror successors and every block is listed. |
| Compile.BuiltGraph | 2022-03-17-SSA-form-implementation/main.cpp:584-635 | The built graph is acyclic and every block is reachable. |
| Structured.RegionDominated | 2022-03-17-SSA-form-implementation/main.cpp:614-630 | The first block of a region dominates all of it. |
| Structured.MergeDominator | 2022-03-17-SSA-form-implementation/main.cpp:614-630 | The immediate dominator of a merge block is the block that branched. |
| Pipeline.BuildArguments | 2022-03-17-SSA-form-implementation/main.cpp:647-649 | One argument per predecessor, each a fresh symbol of the variable. |
| Pipeline.InsertPhisFor | 2022-03-17-SSA-form-implementation/main.cpp:646-653 | Puts one phi for the variable in front of every block of the frontier set and changes nothing else. |
| Pipeline.InsertPhiNodes | 2022-03-17-SSA-form-implementation/main.cpp:643-655 | Each variable gets phis exactly in the iterated frontier of its assigned blocks; other code is unchanged. |
| Pipeline.OnePhiEach | 2022-03-17-SSA-form-implementation/main.cpp:646-653 | A block has exactly one phi for a variable if it is in the iterated frontier, and none otherwise. |
| Pipeline.InsertionPlacesPhis | 2022-03-17-SSA-form-implementation/main.cpp:643-655 | After insertion every block in the frontier of a definition, phi definitions included, has a phi. |
| Pipeline.SuppliedIsStrict | 2022-03-17-SSA-form-implementation/main.cpp:500-545 | The demand on the program (every block that takes a value from above has a definition or a phi above it) holds if and only if every read and phi argument of the graph with phis has a definition strictly above it, so that no stack is read empty. |
| Pipeline.AssignedFirstNeverEmpty | 2022-03-17-SSA-form-implementation/main.cpp:643-662 | If Entry assigns every variable before reading it, the demand is met. |
| Renaming.SSABuilder.RenameStatement | 2022-03-17-SSA-form-implementation/main.cpp:501-523 | One statement: reads take the top of the stack, definitions take and push the counter. |
| Renaming.SSABuilder.FillBlock | 2022-03-17-SSA-form-implementation/main.cpp:526-532 | Phi arguments for this predecessor and variable take the top of the stack. |
| Renaming.SSABuilder.FillSuccessors | 2022-03-17-SSA-form-implementation/main.cpp:525-533 | The same for all successors. |
| Renaming.SSABuilder.PopAssignments | 2022-03-17-SSA-form-implementation/main.cpp:538-544 | Pops one entry per assignment of the variable, none for its phis. |
| Renaming.SSABuilder.VisitBlock | 2022-03-17-SSA-form-implementation/main.cpp:500-545 | What a block does on entry: blocks, stack and counter once its statements are renamed and the phis of its successors have their arguments. |
| Renaming.SSABuilder.TraverseBlockWithVar | 2022-03-17-SSA-form-implementation/main.cpp:500-545 | Visits exactly the blocks of the dominator subtree, once each; the counter grows by the definitions there, and the stack by exactly the entries that too few pops leave, one for each phi. |
| Renaming.SSABuilder.RenameVarToSSAForm | 2022-03-17-SSA-form-implementation/main.cpp:494-498 | Entry is visited with counter 0 and an empty stack, every reachable block once after its dominator; the blocks are the renaming described by the counter and stack of each visit, and the indices below the final counter are given without a gap. |
| Renaming.RenamingUnique | 2022-03-17-SSA-form-implementation/main.cpp:494-545 | The graph decides the whole result: numbers follow the dominator tree in preorder from 0, and every index is determined, also where a read meets a leftover entry. |
| ReachingDefs.LastDefDominates | 2022-03-17-SSA-form-implementation/main.cpp:494-545 | With phis placed, the last definition on any path to a block dominates it. |
| ReachingDefs.LastDefIsNearest | 2022-03-17-SSA-form-implementation/main.cpp:494-545 | It is the nearest definition up the dominator tree, so it is the same on every path. |
| ReachingDefs.PollutedMeans | 2022-03-17-SSA-form-implementation/main.cpp:538-544 | Leftover entries exist on entry to a block exactly when an earlier sibling has a phi in its subtree. |
| ReachingDefs.DefinitionsDistinct | 2022-03-17-SSA-form-implementation/main.cpp:505-520 | All definitions of a variable, phis and assignments, carry distinct indices. |
| ReachingDefs.LocalUse | 2022-03-17-SSA-form-implementation/main.cpp:510-513 | A read after a definition in its own block carries that definition. |
| ReachingDefs.IncomingUse | 2022-03-17-SSA-form-implementation/main.cpp:510-513 | Any other read carries the definition that reaches it on every path if and only if no leftover entry lies between. |
| ReachingDefs.PhiArgument | 2022-03-17-SSA-form-implementation/main.cpp:525-533 | The same, if and only if, for phi arguments. |
| SsaForm.RenamingGivesSsa | 2022-03-17-SSA-form-implementation/main.cpp:494-545 | Renaming one variable numbers its definitions 0 to n - 1, each number once, and gives right reads exactly where nothing is left over. |
| SsaForm.RenamingNumbers | 2022-03-17-SSA-form-implementation/main.cpp:494-523 | The indices of the reachable definitions are exactly 0 to n - 1. |
| SsaForm.OnlyDefinitionZero | 2022-03-17-SSA-form-implementation/main.cpp:494-523 | In SSA form a variable with a single definition has index 0 there. |
| SsaForm.RenamingKeepsSsa | 2022-03-17-SSA-form-implementation/main.cpp:657-662 | Renaming another variable keeps that. |
| Pipeline.BuildSSAForm | 2022-03-17-SSA-form-implementation/main.cpp:657-662 | After all variables were renamed every one of them is in SSA form; apart from indices the code is unchanged. |
| Compile.CommitSSAFormBuilding | 2022-03-17-SSA-form-implementation/main.cpp:637-641 | The three stages together, for every program in which each read and phi argument has a definition above it: same code, dominator tree, phis at the iterated frontiers, SSA form with indices from 0 without a gap for every variable. |
| Compile.FinalGraph | 2022-03-17-SSA-form-implementation/main.cpp:637-641 | The committed graph still has the built structure, its dominator tree, and phis only at frontiers. |
| Naming.PollutedSplits | 2022-03-17-SSA-form-implementation/main.cpp:538-544 | Leftover entries meet either a block with a phi of its own or the first block of an else-arm whose then-arm has a phi. |
| Naming.OldMisread | 2022-03-17-SSA-form-implementation/main.cpp:538-544 | In the else-arm of a conditional with a phi in the then-arm, every read of the value from before the conditional is misnamed. |
| Naming.OldMisargued | 2022-03-17-SSA-form-implementation/main.cpp:538-544 | And so is every phi argument that hands that value on. |
| Naming.NamedExactly | 2022-03-17-SSA-form-implementation/main.cpp:494-545 | All reads and phi arguments of a variable are named right if and only if no else-arm takes a value from before a conditional that has a phi for it in its then-arm. |
| Compile.ProgramsNamedExactly | 2022-03-17-SSA-form-implementation/main.cpp:637-662 | The same for every built and committed program, with the condition stated on the graph before renaming. |
| Compile.FlatProgramsNamedRight | 2022-03-17-SSA-form-implementation/main.cpp:494-545 | For programs with no conditional under a then-arm, every use and every phi argument carries the index of the definition that reaches it on every path. |
| Structured.ElseArmPolluted | 2022-03-17-SSA-form-implementation/main.cpp:538-544 | A phi in a then-arm is always left over when the else-arm is entered. |
| Compile.NestedThenMisreads | 2022-03-17-SSA-form-implementation/main.cpp:538-544 | In a committed program a block of such an else-arm, anywhere in it, misnames every read of the old value and every phi argument it hands on. |
| NestedThen.ProgramLowered | 2022-03-17-SSA-form-implementation/main.cpp:584-635 | The builder turns `x = 0; if (c) { if (d) x = 1; }` into the seven blocks written out. |
| NestedThen.CompileNestedThen | 2022-03-17-SSA-form-implementation/main.cpp:637-662 | Building and committing that program yields an outer phi whose argument for the else-block does not name the assignment in Entry, the only definition that reaches it. |
| SsaMeaning.ReadIsCurrent | 2022-03-17-SSA-form-implementation/main.cpp:510-513 | Along any path, a statement that reads a variable names its current definition. |
| SsaMeaning.ArgumentIsCurrent | 2022-03-17-SSA-form-implementation/main.cpp:525-533 | The phi argument for the block a run came from is the current definition. |
| SsaMeaning.LockStep | 2022-03-17-SSA-form-implementation/main.cpp:404-426 | Where reads are named right, a step with one register per index and phis as copies matches the step with the indices forgotten. |
| SsaMeaning.SsaMeansTheSame | 2022-03-17-SSA-form-implementation/main.cpp:494-545 | A graph whose reads are named right performs, with registers, the same assignments as with the indices forgotten, and never reads an unset register. |
| Preservation.CommittedLaidOut | 2022-03-17-SSA-form-implementation/main.cpp:637-662 | After the pass phis stand first, one per variable, with an argument for every predecessor; branches stand last; Entry has no phi. |
| Preservation.PassPreservesMeaning | 2022-03-17-SSA-form-implementation/main.cpp:637-662 | For every program whose names come out right the graph in SSA form performs what the graph before the pass performs, for every evaluator that looks at its variables only. |
| Preservation.ProgramsKeepMeaning | 2022-03-17-SSA-form-implementation/main.cpp:584-662 | From trees to SSA form: built and committed, such a program performs exactly the assignments of its trees, in order. |
| Preservation.CompileProgram | 2022-03-17-SSA-form-implementation/main.cpp:584-662 | The whole compiler in one method: names come out right exactly as the condition says, always so without conditionals under then-arms, and then the compiled program run with registers performs the assignments of its trees. |
| SuffixStep.StepKeepsInv | 2022-06-25-C++-notes/Sandbox/suffix_automaton.hpp:109-163 | Adding one symbol, with or without a clone, keeps the invariant that ties states to the substrings of the text. |
| SuffixStep.StepTotal | 2022-06-25-C++-notes/Sandbox/suffix_automaton.hpp:109-163 | Every substring of the longer text has a state. |
| SuffixStep.StepUnique | 2022-06-25-C++-notes/Sandbox/suffix_automaton.hpp:109-163 | No substring has two. |
| SuffixStep.StepUniform | 2022-06-25-C++-notes/Sandbox/suffix_automaton.hpp:109-163 | All strings of one state end at the same positions of the text. |
| SuffixStep.StepFirst | 2022-06-25-C++-notes/Sandbox/suffix_automaton.hpp:109-163 | The recorded first position is the earliest end of the state's strings. |
| SuffixStep.OldStateMoves | 2022-06-25-C++-notes/Sandbox/suffix_automaton.hpp:118-160 | Transitions of old states and of the clone lead to the state of the longer string after the step. |
| SuffixAutomaton.ClimbStep | 2022-06-25-C++-notes/Sandbox/suffix_automaton.hpp:118-123 | One link climbed: the states passed hold exactly the longer suffixes, and none could read the symbol. |
| SuffixAutomaton.RootCase | 2022-06-25-C++-notes/Sandbox/suffix_automaton.hpp:123-131 | If no suffix could read the symbol, the new state hangs off the root. |
| SuffixAutomaton.LinkCase | 2022-06-25-C++-notes/Sandbox/suffix_automaton.hpp:136-143 | If the target is as long as it must be, it becomes the link. |
| SuffixAutomaton.SplitCase | 2022-06-25-C++-notes/Sandbox/suffix_automaton.hpp:144-160 | Otherwise the clone takes over exactly the shorter strings. |
| SuffixAutomaton.RedirectDone | 2022-06-25-C++-notes/Sandbox/suffix_automaton.hpp:153-160 | The redirected states are exactly those that read the symbol into the split state from strings that moved to the clone. |
| SuffixAutomaton.Automaton.AddState | 2022-06-25-C++-notes/Sandbox/suffix_automaton.hpp:177-183 | Appends a state with the given length and the next index. |
| SuffixAutomaton.Automaton.Climb | 2022-06-25-C++-notes/Sandbox/suffix_automaton.hpp:114-132 | The climbing loop ends, at the root or at a state that can read the symbol. |
| SuffixAutomaton.Automaton.Redirect | 2022-06-25-C++-notes/Sandbox/suffix_automaton.hpp:153-160 | The redirecting loop ends with the step complete. |
| SuffixAutomaton.Automaton.SplitState | 2022-06-25-C++-notes/Sandbox/suffix_automaton.hpp:144-160 | The clone case yields the automaton of the longer text, and needs a text of two symbols. |
| SuffixAutomaton.Automaton.AddSymbol | 2022-06-25-C++-notes/Sandbox/suffix_automaton.hpp:109-163 | One round yields the automaton of the longer text with at most two more states. |
| SuffixAutomaton.Automaton.BuildAutomaton | 2022-06-25-C++-notes/Sandbox/suffix_automaton.hpp:101-175 | The automaton of the input, with at most 2n-1 states for n at least 2; every link climb ends. |
| SuffixAutomaton.Automaton.constructor | 2022-06-25-C++-notes/Sandbox/suffix_automaton.hpp:48-51 | A valid automaton of its input, with at most 2n-1 states for n at least 2. |
| SuffixAutomaton.LinkClimbs | 2022-06-25-C++-notes/Sandbox/suffix_automaton.hpp:165-174 | Links lead to strictly shorter states or out of the root. |
| SuffixTheory.WalkFinds | 2022-06-25-C++-notes/Sandbox/suffix_automaton.hpp:53-62 | Reading a pattern ends in its state exactly when it is a substring. |
| SuffixAutomaton.Automaton.Read | 2022-06-25-C++-notes/Sandbox/suffix_automaton.hpp:54-60 | The loop shared by the queries finds the state of the pattern, or -1 if it is no substring. |
| SuffixAutomaton.Automaton.Contains | 2022-06-25-C++-notes/Sandbox/suffix_automaton.hpp:53-62 | True exactly when the pattern is a substring of the text. |
| SuffixAutomaton.FirstPosition | 2022-06-25-C++-notes/Sandbox/suffix_automaton.hpp:192-194 | The normalized position is the least offset where the pattern starts. |
| SuffixAutomaton.Automaton.First | 2022-06-25-C++-notes/Sandbox/suffix_automaton.hpp:64-73 | For a nonempty pattern the least start offset, or -1 if it is absent. |
| SuffixAutomaton.Automaton.ComputeSuffixReferences | 2022-06-25-C++-notes/Sandbox/suffix_automaton.hpp:185-190 | Each state lists exactly the states that link to it, in order; nothing else changes. |
| SuffixAutomaton.TraverseStep | 2022-06-25-C++-notes/Sandbox/suffix_automaton.hpp:89-96 | The stack never holds a state twice nor one already visited, so the traversal ends. |
| SuffixAutomaton.CollectedPositions | 2022-06-25-C++-notes/Sandbox/suffix_automaton.hpp:86-97 | The positions of the visited states are exactly the offsets where the pattern starts. |
| SuffixAutomaton.Automaton.Positions | 2022-06-25-C++-notes/Sandbox/suffix_automaton.hpp:75-98 | For a nonempty pattern exactly the set of all start offsets; the empty set if it is absent. |
| Prim.AddEdge | 2022-05-28-Prim-algorithm/main.cpp:5-8 | The edges are the old ones and the new one in both directions; an undirected graph stays undirected. |
| Prim.Top | 2022-05-28-Prim-algorithm/main.cpp:28-28 | The least entry of the queue, by key and then by vertex. |
| Prim.TopIsCheapest | 2022-05-28-Prim-algorithm/main.cpp:27-34 | An unvisited vertex on top comes with a cheapest edge out of the visited vertices, although stale entries are queued too. |
| SpanningTrees.Exchange | 2022-05-28-Prim-algorithm/main.cpp:27-42 | Any spanning tree that agrees with the tree so far can take in a cheapest crossing edge without growing heavier. |
| SpanningTrees.GrowPromising | 2022-05-28-Prim-algorithm/main.cpp:27-42 | Taking a cheapest edge keeps the tree extensible to one no heavier than any spanning tree. |
| SpanningTrees.FullTree | 2022-05-28-Prim-algorithm/main.cpp:44-45 | Once all vertices are taken it is a spanning tree of least weight. |
| Prim.Visit | 2022-05-28-Prim-algorithm/main.cpp:31-34 | Visiting the vertex on top keeps the invariant of the run. |
| Prim.TakeEdge | 2022-05-28-Prim-algorithm/main.cpp:36-41 | Relaxing an edge keeps it. |
| Prim.RelaxEdges | 2022-05-28-Prim-algorithm/main.cpp:36-41 | After the loop all edges of the vertex were looked at. |
| Prim.Run | 2022-05-28-Prim-algorithm/main.cpp:10-46 | Terminates; a vertex gets a parent exactly when edges lighter than INF reach it; if they connect the graph, the edges (Parent[i], i) form a spanning tree of minimum total weight among all spanning trees. |
| Strassen.LayoutSound | 2022-06-25-C++-notes/Sandbox/strassen_algorithm.hpp:96-98 | The flat index with the row count as stride keeps cells apart and inside the buffer exactly for squares and single rows. |
| Strassen.StoredPut | 2022-06-25-C++-notes/Sandbox/strassen_algorithm.hpp:96-98 | Writing one flat position of a square changes exactly one cell. |
| Strassen.Matrix.constructor | 2022-06-25-C++-notes/Sandbox/strassen_algorithm.hpp:71-72 | A buffer of rows times cols cells. |
| Strassen.Matrix.Get | 2022-06-25-C++-notes/Sandbox/strassen_algorithm.hpp:96-101 | Reads the cell. |
| Strassen.Matrix.Set | 2022-06-25-C++-notes/Sandbox/strassen_algorithm.hpp:96-98 | Writes the cell and no other. |
| Strassen.Matrix.Arithmetic | 2022-06-25-C++-notes/Sandbox/strassen_algorithm.hpp:307-316 | Cell by cell the operator applied to both matrices, for every shape with a sound layout. |
| Strassen.Matrix.Sum | 2022-06-25-C++-notes/Sandbox/strassen_algorithm.hpp:103-105 | The cellwise sum. |
| Strassen.Matrix.Difference | 2022-06-25-C++-notes/Sandbox/strassen_algorithm.hpp:106-108 | The cellwise difference. |
| Strassen.MultiplyLinear | 2022-06-25-C++-notes/Sandbox/strassen_algorithm.hpp:220-235 | Every cell is the dot product of a row and a column. |
| Strassen.Matrix.Linear | 2022-06-25-C++-notes/Sandbox/strassen_algorithm.hpp:216-218 | The product. |
| Strassen.Split | 2022-06-25-C++-notes/Sandbox/strassen_algorithm.hpp:247-267 | Four fresh matrices holding the four quarters. |
| Strassen.SevenProducts | 2022-06-25-C++-notes/Sandbox/strassen_algorithm.hpp:269-286 | The ten sums and seven recursive products. |
| Strassen.Combine | 2022-06-25-C++-notes/Sandbox/strassen_algorithm.hpp:288-291 | The four combinations of the products. |
| Strassen.Join | 2022-06-25-C++-notes/Sandbox/strassen_algorithm.hpp:293-300 | The quarters of the result are the four combinations. |
| MatrixTheory.QuarterOfProduct | 2022-06-25-C++-notes/Sandbox/strassen_algorithm.hpp:216-316 | A quarter of a product is the sum of two products of quarters. |
| MatrixTheory.StrassenIdentities | 2022-06-25-C++-notes/Sandbox/strassen_algorithm.hpp:269-291 | The four combinations of the seven products are the four quarters of the product. |
| MatrixTheory.IdentityNeutral | 2022-06-25-C++-notes/Sandbox/strassen_algorithm.hpp:216-218 | The identity matrix is neutral for the product on both sides. |
| Strassen.MultiplyByQuarters | 2022-06-25-C++-notes/Sandbox/strassen_algorithm.hpp:241-303 | The recursive case gives the product. |
| Strassen.MultiplyStrassen | 2022-06-25-C++-notes/Sandbox/strassen_algorithm.hpp:241-303 | For every size that is a power of two the result equals the product by definition, at every recursion depth. |
| Strassen.Matrix.StrassenTimes | 2022-06-25-C++-notes/Sandbox/strassen_algorithm.hpp:237-239 | Strassen's product is the same matrix as the triple loop gives. |
| ShellSort.SortingKeepsOrder | 2022-06-25-C++-notes/Sandbox/shell_sort.hpp:77-94 | h-sorting a k-ordered sequence leaves it k-ordered, for all h and k. |
| ShellSort.AtMostOneMove | 2022-06-25-C++-notes/Sandbox/shell_sort.hpp:80-90 | If elements more than the gap apart are in order, at most one element below on the stride is larger. |
| ShellSort.SwapKeepsStrides | 2022-06-25-C++-notes/Sandbox/shell_sort.hpp:83-85 | A shift along a stride keeps the values of every stride. |
| ShellSort.Insert | 2022-06-25-C++-notes/Sandbox/shell_sort.hpp:81-89 | Puts one element in place among those before it on its stride; the values of every stride stay; the moves counted are one more than the larger elements below it on its stride. |
| ShellSort.GapPass | 2022-06-25-C++-notes/Sandbox/shell_sort.hpp:80-90 | After the pass the array is ordered at the gap and a permutation stride by stride; the counter is the number of insertions plus the inversions along the strides of the array before. |
| ShellSort.InversionsCount | 2022-06-25-C++-notes/Sandbox/shell_sort.hpp:80-90 | The inversions are the pairs on one stride that stand in the wrong order. |
| ShellSort.PassesUnique | 2022-06-25-C++-notes/Sandbox/shell_sort.hpp:20-94 | The gaps decide every state between the passes, and so the counter. |
| ShellSort.DownGaps | 2022-06-25-C++-notes/Sandbox/shell_sort.hpp:79-79 | The gaps n, n - 1, ..., 1. |
| ShellSort.HalvingGaps | 2022-06-25-C++-notes/Sandbox/shell_sort.hpp:22-22 | The gaps n/2, n/4, ... down to the last one above 0. |
| ShellSort.PassOrders | 2022-06-25-C++-notes/Sandbox/shell_sort.hpp:79-91 | After the pass with gap g elements at least g apart are in order. |
| ShellSort.ShellSortOwn1 | 2022-06-25-C++-notes/Sandbox/shell_sort.hpp:77-94 | Sorted permutation of the input; the counter returned is the sum over the passes, one per gap from n down to 1, and lies between n(n-1)/2 and n(n-1). |
| ShellSort.ShellSortShell | 2022-06-25-C++-notes/Sandbox/shell_sort.hpp:20-37 | Sorted permutation of the input, ordered at every gap that was used; the counter returned is the sum over the passes with halving gaps. |
| TaskQueue.InitialInv | 2022-06-25-C++-notes/Sandbox/task_queue.hpp:66-72 | The invariant holds at construction. |
| TaskQueue.WorkerKeepsInv | 2022-06-25-C++-notes/Sandbox/task_queue.hpp:165-186 | Every step of a worker keeps the invariant. |
| TaskQueue.ControllerKeepsInv | 2022-06-25-C++-notes/Sandbox/task_queue.hpp:88-136 | Every step of start, stop and wait_for_completion keeps it. |
| TaskQueue.ProducerKeepsInv | 2022-06-25-C++-notes/Sandbox/task_queue.hpp:188-224 | Every step of a push keeps it. |
| TaskQueue.RunKeepsInv | 2022-06-25-C++-notes/Sandbox/task_queue.hpp:88-224 | It holds in every reachable state of every interleaving. |
| TaskQueue.TasksAccountedFor | 2022-06-25-C++-notes/Sandbox/task_queue.hpp:165-224 | In every run tasks are taken in push order, and each accepted task is queued, in one worker's hands, or finished, never two of these. |
| TaskQueue.FrontNeverEmpty | 2022-06-25-C++-notes/Sandbox/task_queue.hpp:172-181 | In every run front is never called on an empty deque, and no two workers hold the mutex. |
| TaskQueue.JoinedMeansDone | 2022-06-25-C++-notes/Sandbox/task_queue.hpp:96-107 | When the workers are joined nothing is in anyone's hands; under wait_for_completion all that was accepted before the flag was set has finished if and only if there is a worker or the queue was empty when the flag was set. |
| TaskQueue.RunExtends | 2022-06-25-C++-notes/Sandbox/task_queue.hpp:88-224 | Nothing accepted, taken or finished is ever taken back. |
| TaskQueue.CompletionLasts | 2022-06-25-C++-notes/Sandbox/task_queue.hpp:128-136 | What wait_for_completion waited for stays finished in every later state. |
| TaskQueue.HistoryTold | 2022-06-25-C++-notes/Sandbox/task_queue.hpp:188-224 | Read off the actions of a run alone: the stop flag, what each pushing thread was let in with, and what was accepted, in the order of the pushes. |
| TaskQueue.OffersKept | 2022-06-25-C++-notes/Sandbox/task_queue.hpp:188-224 | All that a thread offered while the flag was clear has been queued, in its order, except the one work it may still be about to queue. |
| TaskQueue.PushAppends | 2022-06-25-C++-notes/Sandbox/task_queue.hpp:197-221 | A push that has the mutex puts its work at the end of the queue. |
| TaskQueue.StopTakesNothing | 2022-06-25-C++-notes/Sandbox/task_queue.hpp:176-178 | A worker that reads the flag of a plain stop takes no task any more. |
| TaskQueue.Settles | 2022-06-25-C++-notes/Sandbox/task_queue.hpp:165-186 | No deadlock among the workers: from every reachable state of a running pool they can finish every task and come to rest. |
| TaskQueue.CompletionPossible | 2022-06-25-C++-notes/Sandbox/task_queue.hpp:88-186 | From there wait_for_completion can return, with all that was accepted finished and the pool running again with as many workers. |
| TaskQueue.StopReturns | 2022-06-25-C++-notes/Sandbox/task_queue.hpp:96-107 | A plain stop of a pool whose workers wait can return, with no worker left and the queue as it was. |
| TaskQueue.StartsWith | 2022-06-25-C++-notes/Sandbox/task_queue.hpp:80-94 | A stopped pool can be started with the number of workers that was set. |
| MemoryPool.PaddingAligns | 2022-06-25-C++-notes/Sandbox/memory_pool.hpp:78-85 | With arithmetic modulo 2^64 the padding aligns the pointer if and only if the alignment divides 2^64 or the subtraction does not wrap. |
| MemoryPool.FreshBlockHasRoom | 2022-06-25-C++-notes/Sandbox/memory_pool.hpp:190-195 | A fresh aligned block has room for a slot clear of its link, aligned. |
| MemoryPool.CutSlot | 2022-06-25-C++-notes/Sandbox/memory_pool.hpp:212-212 | The next slot of the newest block is apart from all slots cut before. |
| MemoryPool.RoomLeft | 2022-06-25-C++-notes/Sandbox/memory_pool.hpp:190-212 | The test for room succeeds exactly while fewer than (BlockSize - alignment) / slot size slots have been cut. |
| MemoryPool.CutOne | 2022-06-25-C++-notes/Sandbox/memory_pool.hpp:212-212 | The slots of a block are consecutive. |
| MemoryPool.CutNone | 2022-06-25-C++-notes/Sandbox/memory_pool.hpp:210-211 | Beginning a new block when the one before is used up loses no slot. |
| MemoryPool.WordOutside | 2022-06-25-C++-notes/Sandbox/memory_pool.hpp:218-226 | A word inside a live slot shares no byte with a block link or with a free slot. |
| MemoryPool.Pool.constructor | 2022-06-25-C++-notes/Sandbox/memory_pool.hpp:89-97 | An empty pool. |
| MemoryPool.Pool.AllocateBlock | 2022-06-25-C++-notes/Sandbox/memory_pool.hpp:181-196 | The new block is linked in front, the bump pointer stands at its first slot, one alignment in, and no slot of the block before is lost. |
| MemoryPool.Pool.Allocate | 2022-06-25-C++-notes/Sandbox/memory_pool.hpp:200-214 | Returns a slot that was not live: the last one freed, else the next one of the newest block, else, only when all slots of that block have been cut, the first of a new block. The live and the free slots are always exactly the slots cut so far, pairwise apart, aligned, inside an owned block and clear of its link. |
| MemoryPool.Pool.Deallocate | 2022-06-25-C++-notes/Sandbox/memory_pool.hpp:218-226 | The slot moves from the live ones to the head of the free list, which stays acyclic; null is ignored. |
| MemoryPool.Pool.Write | 2022-06-25-C++-notes/Sandbox/memory_pool.hpp:200-226 | Whatever the program writes inside a live slot leaves the pool valid and touches no byte of its links. |
| MemoryPool.Pool.Destroy | 2022-06-25-C++-notes/Sandbox/memory_pool.hpp:147-157 | Releases every block exactly once and reads none after its release. |
| StackAllocator.Stack.constructor | 2022-06-25-C++-notes/Sandbox/memory_pool.hpp:299-299 | An empty stack over an empty pool. |
| StackAllocator.Stack.Empty | 2022-06-25-C++-notes/Sandbox/memory_pool.hpp:304-304 | True exactly when the stack has no element. |
| StackAllocator.Stack.Push | 2022-06-25-C++-notes/Sandbox/memory_pool.hpp:320-326 | The element is on top of what was there; nodes are live slots of the pool. |
| StackAllocator.Stack.Pop | 2022-06-25-C++-notes/Sandbox/memory_pool.hpp:329-336 | Returns the top and leaves the rest; its slot goes back to the pool. |
| StackAllocator.Stack.Top | 2022-06-25-C++-notes/Sandbox/memory_pool.hpp:339-339 | The top element. |
| StackAllocator.Stack.Clear | 2022-06-25-C++-notes/Sandbox/memory_pool.hpp:307-317 | Ends with an empty stack and no live slot in the pool. |
| Sha512.RingWord | 2022-06-25-C++-notes/Sandbox/sha512.hpp:102-107 | The word computed from the ring modulo 16 is the word of the 80-word schedule. |
| Sha512.RunRound | 2022-06-25-C++-notes/Sandbox/sha512.hpp:108-126 | One round of the working variables, with the word added first or last. |
| Sha512.TransformRolling | 2022-06-25-C++-notes/Sandbox/sha512.hpp:61-132 | For every block and state the rolling 16-word form yields the compression of section 6.4.2 of FIPS 180-4. |
| Sha512.FillSchedule | 2022-03-19-SHA2/sha384_512.hpp:92-119 | The 80 words of the schedule. |
| Sha512.TransformFull | 2022-03-19-SHA2/sha384_512.hpp:62-145 | The 80-word form yields the same compression. |
| Sha512.ChChooses | 2022-06-25-C++-notes/Sandbox/sha512.hpp:83-83 | Where the first word has a bit the choice takes the second word, elsewhere the third. |
| Sha512.MajAgrees | 2022-06-25-C++-notes/Sandbox/sha512.hpp:89-89 | The bitwise majority. |
| Sha512.WordKeepsBytes | 2022-06-25-C++-notes/Sandbox/sha512.hpp:67-77 | A word keeps its eight bytes, most significant first. |
| Roots.FirstPrimesInOrder | 2022-06-25-C++-notes/Sandbox/sha512.hpp:39-60 | The list of primes used for the constants has no gap. |
| Sha2Constants.ConstantsAreRoots | 2022-06-25-C++-notes/Sandbox/sha512.hpp:39-60 | The 80 constants are the first 64 binary digits after the point of the cube roots of the first 80 primes. |
| Sha2Constants.SquaresSha512 | 2022-03-19-SHA2/sha384_512.hpp:40-47 | The starting state of SHA-512: square roots of the first eight primes. |
| Sha2Constants.SquaresSha384 | 2022-03-19-SHA2/sha384_512.hpp:25-32 | The starting state of SHA-384: square roots of the next eight. |
| Sha512Answers.EmptyHash | 2022-06-25-C++-notes/Sandbox/sha512.hpp:240-240 | The digest that the program expects for the empty message. |
| Sha512Answers.LettersHash | 2022-06-25-C++-notes/Sandbox/sha512.hpp:241-241 | And the one for its ten-byte message. |
| Sha256.FillSchedule | 2022-03-19-SHA2/sha224_256.hpp:79-102 | The 64 words of the schedule of section 6.2.2 of FIPS 180-4. |
| Sha256.Transform | 2022-03-19-SHA2/sha224_256.hpp:61-128 | The compression of section 6.2.2 of FIPS 180-4. |
| Sha256.ChChooses | 2022-03-19-SHA2/sha224_256.hpp:109-109 | Where the first word has a bit the choice takes the second word, elsewhere the third. |
| Sha256.MajAgrees | 2022-03-19-SHA2/sha224_256.hpp:114-114 | The bitwise majority. |
| Sha256.WordKeepsBytes | 2022-03-19-SHA2/sha224_256.hpp:79-86 | A word keeps its four bytes, most significant first. |
| Sha2Constants.ShorterConstants | 2022-03-19-SHA2/sha224_256.hpp:62-71 | The 64 constants are the upper halves of the first 64 of SHA-512. |
| Sha2Constants.ShorterStates | 2022-03-19-SHA2/sha224_256.hpp:19-47 | The starting states are the upper halves of that of SHA-512 and the lower halves of that of SHA-384. |
| Sha256Stream.Context.constructor | 2022-03-19-SHA2/sha224_256.hpp:19-47 | An empty message with the starting state of SHA-256 or SHA-224. |
| Sha256Stream.Context.BitsSeen | 2022-03-19-SHA2/sha224_256.hpp:182-182 | bit_length + 8 * data_length is eight times the bytes seen, modulo 2^64. |
| Sha256Stream.Context.UpdateByte | 2022-03-19-SHA2/sha224_256.hpp:133-139 | One byte joins the message; a full buffer is compressed. |
| Sha256Stream.Context.Update | 2022-03-19-SHA2/sha224_256.hpp:130-141 | The message grows by the buffer, however it was split, and the state is the digest of its whole blocks. |
| Sha256Stream.ShortEnd | 2022-03-19-SHA2/sha224_256.hpp:173-175 | With fewer than 56 bytes buffered the end mark and zeros leave room for the length. |
| Sha256Stream.LongEnd | 2022-03-19-SHA2/sha224_256.hpp:176-180 | Otherwise one more block is needed. |
| Sha256Stream.Context.FillData | 2022-03-19-SHA2/sha224_256.hpp:172-180 | The end mark and the right number of zeros, with the extra block where needed. |
| Sha256Stream.DigestShown | 2022-03-19-SHA2/sha224_256.hpp:143-169 | Digests with the same text have the same words. |
| Sha256Stream.Context.ToText | 2022-03-19-SHA2/sha224_256.hpp:143-169 | The hexadecimal text of eight words, or of seven for SHA-224. |
| Sha256Stream.Context.Final | 2022-03-19-SHA2/sha224_256.hpp:171-195 | The blocks given to the transform make up exactly the message padded as in section 5.1.1 of FIPS 180-4, the state is their digest, and the output is its text. |
| Sha256Stream.BigEndianValue | 2022-03-19-SHA2/sha224_256.hpp:184-192 | The eight bytes of the length, most significant first, stand for the length. |
| Sha256Stream.HashBytes | 2022-03-19-SHA2/sha224_256.hpp:236-258 | The whole hash of a buffer: the text of the digest of its padded blocks, for both variants. |
| Sha256Answers.AbcHash | 2022-03-19-SHA2/sha224_256.hpp:248-262 | SHA-256 of the three letters abc is the text published in FIPS 180-2, appendix B.1. |
| Sha256Answers.AbcHash224 | 2022-03-19-SHA2/sha224_256.hpp:254-266 | SHA-224 of abc as published. |
| Sha256Answers.LettersHash | 2022-03-19-SHA2/sha224_256.hpp:248-262 | SHA-256 of the 56-letter example of appendix B.2, which takes two blocks. |
| Crc32.TableEntry | 2022-03-19-CRC-32/crc32.hpp:8-29 | Entry k of the 256-entry table that the macros expand to is the element k shifted eight times. |
| Crc32.GenerateLinear | 2022-03-19-CRC-32/crc32.hpp:8-16 | Repeated shifting is linear over exclusive or. |
| Crc32.ByteByByte | 2022-03-19-CRC-32/crc32.hpp:44-44 | Eight shifts are one move of the upper bytes and one table entry. |
| Crc32.TableStep | 2022-03-19-CRC-32/crc32.hpp:44-44 | One step of the byte loop is eight steps of the bit-at-a-time division. |
| Crc32.Crc32Bytes | 2022-03-19-CRC-32/crc32.hpp:41-47 | For every byte string the bit-at-a-time reflected checksum of section 8 of RFC 1952. |
| Crc32.Crc32String | 2022-03-19-CRC-32/crc32.hpp:49-56 | The checksum of the bytes up to the first zero after the first byte. |
| Crc32.CheckValue | 2022-03-19-CRC-32/crc32.hpp:41-47 | The check value of CRC-32: the digits 1 to 9 give cbf43926. |
| Crc32.ByteErrorDetected | 2022-03-19-CRC-32/crc32.hpp:41-47 | A change of one byte anywhere changes the checksum. |
| LruCache.RecentOrder | 2021-11-29-LRU-cache/lru_cache.cpp:33-51 | In the recency order a page stands before another exactly because its last access is later. |
| LruCache.RecentDistinct | 2021-11-29-LRU-cache/lru_cache.cpp:33-51 | Each page appears once in it. |
| LruCache.RecentMembers | 2021-11-29-LRU-cache/lru_cache.cpp:33-51 | It holds exactly the pages accessed. |
| LruCache.CutHit | 2021-11-29-LRU-cache/lru_cache.cpp:43-50 | An access within the cut moves the page to the front. |
| LruCache.CutMiss | 2021-11-29-LRU-cache/lru_cache.cpp:34-42 | An access beyond the cut pushes the last page out if the cache is full. |
| LruCache.Cache.constructor | 2021-11-29-LRU-cache/lru_cache.cpp:24-30 | An empty cache. |
| LruCache.Cache.Refer | 2021-11-29-LRU-cache/lru_cache.cpp:33-51 | The list is the recency order of the accesses cut to the capacity, the index maps exactly those pages to their own nodes, and hits or faults are counted rightly. |
| LruCache.Cache.Exists | 2021-11-29-LRU-cache/lru_cache.cpp:53-55 | True exactly when the page is within the cut. |
| LruCache.Cache.Get | 2021-11-29-LRU-cache/lru_cache.cpp:57-66 | A page within the cut is returned and counts as an access, not as a hit or fault; otherwise nothing changes and the error is raised. |
| LruCache.FaultsFall | 2021-11-29-LRU-cache/lru_cache.cpp:33-51 | For runs of refers alone, faults never rise with the capacity. |
| LruCache.SmallerIsPrefix | 2021-11-29-LRU-cache/lru_cache.cpp:33-66 | With the same accesses a smaller cache holds a prefix of a larger one and has at least its faults. |
| LruCache.RunChecks | 2021-11-29-LRU-cache/lru_cache.cpp:85-119 | What the program checks itself on comes out as it expects. |

## Left out

- SSA: aliasing of syntax nodes. Statements hold copies of the trees, which is right when every symbol occurrence is its own object, as the source's driver builds them.
- SSA: `VisitedMap` and `BlocksForVariable` entries created by reading a missing key; they hold zero or an empty set and are never told apart from absent ones.
- SSA: ASTFor (its visitor is empty, so it lowers to nothing), the printers, and the copy of this program in `Sandbox/ssa_form.hpp`.
- Compile.CommitSSAFormBuilding: requires a definition above every read and every phi argument, because the source otherwise takes the top of an empty stack, or an entry that a phi elsewhere left behind.
- Suffix automaton: `first` and `positions` of the empty pattern, which read the root's unset position; 32-bit wrap-around of lengths.
- SuffixAutomaton.Automaton.First: says nothing about the value for the empty pattern.
- SuffixAutomaton.Automaton.Positions: says nothing about the set for the empty pattern.
- Prim: the printing of the edges; the result is the parents, with the keys as the weights of the edges printed.
- Strassen: overflow of machine integers and the disabled submatrix form.
- Strassen.MultiplyStrassen: requires a size that is a power of two; for other sizes the source leaves the last row and column unset, and on size 0 it does not end.
- Strassen.Matrix.StrassenTimes: requires a size that is a power of two, for the same reason.
- Strassen.Matrix.Get: requires a square or a single row; for any other shape the source's index leaves the buffer or meets another cell.
- Shell sort: wrap-around of the counter, and the Hibbard and Sedgewick variants, whose gaps come from floating point.
- Task queue: lost notifications (the flag is set outside the mutex; the model lets a waiting worker wake up at any time, so it says that stop and wait_for_completion can return, not that they will), push_void_task (it unlocks a mutex that a lock object still owns), more than one controlling thread, and the values of futures.
- MemoryPool: move construction and assignment (they name a field that does not exist), max_size, and construction and destruction of elements.
- Sha512: sha512_update, sha512_final and sha384_512_final, which pad to byte 120 with a 64-bit length and so depart from section 5.1.2 of FIPS 180-4.
- Sha256Stream.Context.Update: requires a buffer shorter than 2^32 bytes, because the 32-bit loop counter of the source wraps around otherwise.
- Sha256Stream: reading the message from a file.
- Crc32.Crc32String: for an empty string the source consumes the terminating zero and reads on; the contract says which bytes count and requires a zero after the first byte.
- LruCache.Cache.Refer: requires a positive capacity, because the source takes the back of an empty list otherwise.
- The rest of the notebook: hash maps whose rehash loses entries, floating point, input and output, third-party and generated code, kernel and network plumbing, and small containers that would only add easy members.
