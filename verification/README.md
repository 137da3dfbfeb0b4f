# The bookkeeping of the Cling interpreter

Cling is an interactive C++ interpreter built on Clang and LLVM. Around the calls into the compiler it
keeps books of its own: which transactions there are and how they nest, which handlers run when a
transaction is unloaded or the process ends, which libraries may hold a missing symbol, what a global
value still needs, where the sections of a module go, and how the body of a wrapper function is taken
apart. This project models that bookkeeping in Dafny and proves what it is for. Methods that change
state in Cling are methods of classes here, proved against functions on values; the properties are
lemmas about these functions, over every input, every run or every reachable state.

The parts, each in files of the same name:

- **Transactions** (`TransactionState`, `TransactionInvariants`, `TransactionUnload`, `PendingWork`,
  `TransactionCommit`, `TransactionProtocol`, `TransactionBrackets`, `TransactionRuns`,
  `TransactionOutcomes`, `TransactionModules`, `TransactionRollback`, `TransactionLists`,
  `IncrementalParser`).
  `TransactionState` has the steps of the protocol as functions on an explicit state: transactions with
  their links and phases, the deque, the current transaction, the open module, and the batches of
  declarations that instantiation and deserialisation will still produce, with errors or without. Batches
  are what makes the recursive commit end; `PendingWork` tells from the list of batches alone whether a
  commit will meet errors. `Valid` is the invariant: parents and nested
  transactions know of each other, following `next` lists the deque, what is nested in a committed
  transaction was committed before it, one module is open and no two transactions have the same. The
  class `IncrementalParser` holds the same state in fields and changes it in place, method by method.
- **Path resolution** (`Paths`, `RealPath`, `PosixResolution`, `HomePaths`). `Walk` is what the recursive
  `cached_realpath` computes without its caches; the class `RealPathCache` has the three memo tables.
  `Posix` is pathname resolution as section 4.13 of POSIX.1-2017 describes it: the text of a link is put
  in front of what is still to be resolved, every component is looked up in a directory, and a separator
  at the end of a path or of the text of a link asks for a directory. `HomePaths` is about paths that
  start with "~".
- **Symbol search** (`BloomFilter`, `LibraryNames`, `LibrarySymbols`, `LibraryRegistry`, `LibraryScan`,
  `LibraryScanTheory`, `LibrarySearch`, `LibrarySearchTheory`, `LibraryAnswers`). From the bits of the
  Bloom filter to whole runs of queries with libraries being loaded in between.
- **At-exit handlers** (`AtExitTable`, `AtExitUnload`, `AtExitShutdown`, `AtExit`). A handler is the
  finite tree of the registrations that it makes when it runs. The order asked for is that of section
  6.6.4 of ISO/IEC 14882:2017.
- **Unloading** (`Redeclarations`, `GlobalEraser`, `GlobalEraserTheory`). Redeclaration chains are real
  linked objects; the module is a map of global values with references among them.
- **The section allocator** (`SectionAllocator`) with its mask arithmetic on machine words.
- **Source transformations** (`DeclExtraction`, `DeclExtractionTheory`, `Decimals`, `AutoFixer`). A
  statement is known by what it does to a store, so that extraction can be compared with running the
  original body.

Where the code does not keep a promise, the exact condition under which it does is proved, with an input
that shows the failure:

- `runAtExitFuncs` announces the reverse order of registration. It keeps it if and only if the
  registrations are in a certain order (`AtExitOrder`); two transactions taking turns break it.
- `EraseGlobalValue` is documented to return true if something was erased; `TruthfulExactly` says when.
- Extraction preserves the meaning of a body if and only if what comes after an early return, from the
  next declaration on, has no effect (`ExtractionPreservesMeaningExactly`).
- A block of the section allocator may run over the end of the reservation; `OvershootCondition` says
  when, and `RunFits` gives the reservation with which it never happens.
- A `PushTransactionRAII` bracket restores the current transaction if and only if it is opened while a
  transaction is open, or while there is none and its own is bound to go, which is told from what is done
  in the bracket and from the pending work (`BracketRestoresExactly`). A committed transaction that is
  current is never restored (`CommittedIsNotRestored`).
- `cached_realpath` differs from POSIX resolution if and only if it passes a ".", a ".." or a separator at
  the end while it is at something that is not a directory, and finds everything all the same
  (`AnswerIsPosix`); so it takes "/f/" for a file "/f" (`FileTakenForDirectory`).
- `cached_realpath` does not consume a leading "~". All paths with "~" mean what they are meant for if and
  only if the home directory does not resolve or has an entry "~" that leads back to it
  (`TildeAlwaysMeansHome`), and a single one according to `TildeMeansHomeExactly`; `TildeFails` is an
  instance.
- A transaction checks for errors before it works off pending instantiations. Errors that come then do not
  stop it from being committed and run (`ErrorsComeTooLate`, `LateErrorsExactly`); `LateErrorsAreMissed` is an
  instance.

## Model

| member | source | states |
|---|---|---|
| TransactionRuns.CommitOfTree | lib/Interpreter/IncrementalParser.cpp:564-699 | Committing a top-level transaction without errors, whose initialisers do not fail and whose open nested transactions meet no errors, keeps everything in its tree and ends with all of it committed, each transaction after all that is nested in it; with code generation the root took the open module and ran once, and no other transaction took a module or ran. What came into the tree meanwhile is committed too |
| TransactionRuns.ErrorsComeTooLate | lib/Interpreter/IncrementalParser.cpp:640-698 | If instantiation or deserialisation brings errors during the commit of a top-level transaction, with everything nested committed, the transaction is committed and runs with the errors noted; whether it meets any is told by the pending batches |
| TransactionOutcomes.LateErrorsExactly | lib/Interpreter/IncrementalParser.cpp:640-698 | The same for a whole bracket: one that stays is committed and runs once, and has errors noted if and only if the work left at its end brings them |
| TransactionOutcomes.LateErrorsAreMissed | lib/Interpreter/IncrementalParser.cpp:640-698 | A run of two operations in which this happens |
| TransactionRuns.TreeCommitted | lib/Interpreter/IncrementalParser.cpp:618-632 | Whatever lies anywhere below a committed transaction is committed, and was so earlier |
| TransactionProtocol.CommitTop | lib/Interpreter/IncrementalParser.cpp:618-699 | The commit of an error-free top-level transaction whose open nested transactions meet no errors keeps the invariant; if its initialisers fail it is gone, and else it is committed, all others are still there under the same parents, older ones untouched, and new ones are committed without modules; if nothing nested was open, the current transaction is as before, and the errors noted and the work left are as foretold |
| TransactionProtocol.NestedErrorsRollBack | lib/Interpreter/IncrementalParser.cpp:626-638 | If errors come with the last nested transaction that is open, the transaction around it is unloaded, without taking the module, and its parent is current |
| TransactionProtocol.CommitFailedValid | lib/Interpreter/IncrementalParser.cpp:590-616 | Rolling back after errors keeps the invariant; the transaction is gone, the diagnostics are reset and the parent becomes current. With a top-level transaction the module that was open goes too: no transaction has it, and the one with the next number is open; with a nested one the open module stays |
| TransactionProtocol.ModuleTaken | lib/Interpreter/IncrementalParser.cpp:745-761 | A top-level transaction takes exactly the one open module, and the module with the next number is open |
| TransactionProtocol.UnloadValid | lib/Interpreter/Interpreter.cpp:1503-1565 | Unloading keeps the invariant, removes the transaction, and makes its parent current if it was current itself |
| TransactionUnload.UnloadSound | lib/Interpreter/TransactionUnloader.cpp:27-72 | Unloading removes a transaction with all that is nested in it, from the newest on; what is older stays as it is except that the parent forgets the transaction, and the deque loses its last element exactly when that is the one unloaded |
| TransactionUnload.UnloadNestedSound | lib/Interpreter/TransactionUnloader.cpp:56-70 | After the nested transactions have gone none is left, and what is older is the same |
| TransactionUnload.DeregisterSound | lib/Interpreter/IncrementalParser.cpp:765-788 | Deregistering a transaction keeps parent links, deque and `next` links consistent |
| TransactionCommit.CommitGrows | lib/Interpreter/IncrementalParser.cpp:584-632 | The commit of a nested transaction commits it, leaves all older transactions as they are but for errors noted at the topmost parent, and adds only committed ones; if all that is nested in it was committed, its parent is current, and the errors noted and the work left are as foretold |
| TransactionCommit.CommitNestedGrows | lib/Interpreter/IncrementalParser.cpp:618-632 | The loop over nested transactions, when errors come only with the last open one if at all, commits each of them, leaves the parent itself alone, notes errors exactly if the pending batches foretell them, and changes nothing when all are committed |
| TransactionCommit.HookGrows | lib/Interpreter/IncrementalParser.cpp:640-665 | Working off pending instantiations in a transaction, with errors or without, leaves it current and in the same phase, adds only committed transactions, and notes errors exactly if the pending batches foretell them |
| TransactionCommit.ErringHook | lib/Interpreter/IncrementalParser.cpp:504-552 | What instantiation brings with errors, or in a tree with errors, is unloaded at once; nothing of it is left but the errors noted at the topmost parent, and the diagnostics are reset |
| TransactionCommit.EmptyHook | lib/Interpreter/IncrementalParser.cpp:535-548 | A hook in which nothing comes leaves nothing either, and its errors are noted and forgotten by the diagnostics |
| PendingWork.CleanCommitGoes | lib/Interpreter/IncrementalParser.cpp:643-665 | Where no batch has errors, no commit meets any |
| TransactionBrackets.BracketCloses | lib/Interpreter/Interpreter.cpp:99-121 | A bracket opened in an open transaction, with nested brackets inside closed first, leaves that transaction current and everything outside as it was, on the empty, the successful and the rolled-back path |
| TransactionBrackets.PopCloses | lib/Interpreter/Interpreter.cpp:112-121 | The same for the end of a bracket alone, from every state inside it |
| TransactionRuns.TopBracketCloses | lib/Interpreter/Interpreter.cpp:99-121 | A bracket opened while no transaction is open leaves its own transaction current if that survives, and none if not |
| TransactionOutcomes.BracketRestoresExactly | lib/Interpreter/Interpreter.cpp:99-121 | A bracket leaves the current transaction as it was if and only if a transaction was open, or there was none and the bracket is bound to leave none: with an error before, inside or in the work it meets, with nothing in it, or with initialisers that run and fail |
| TransactionOutcomes.TopStaysExactly | lib/Interpreter/IncrementalParser.cpp:504-699 | The transaction of a top-level bracket survives, and is committed, if and only if none of these is the case |
| TransactionOutcomes.BodyTracked | lib/Interpreter/Interpreter.cpp:112-121 | Through any nesting of brackets: the errors that arise, the work that is left, and whether anything stays are as foretold from the body and the pending batches |
| TransactionOutcomes.BracketLeavesNoTrace | lib/Interpreter/IncrementalParser.cpp:534-548 | A bracket without errors in which nothing stays leaves the state exactly as it was, but for the numbers used |
| TransactionOutcomes.CleanVanishes | lib/Interpreter/Interpreter.cpp:112-121 | When pending work brings no errors, the body of the bracket alone decides |
| TransactionOutcomes.CommittedIsNotRestored | lib/Interpreter/IncrementalParser.cpp:541-544 | A bracket opened while a committed transaction is current does not restore it, and an empty one leaves none current |
| TransactionRuns.BracketLeavesOutside | lib/Interpreter/IncrementalParser.cpp:486-552 | A bracket opened in an open transaction changes, of the transactions outside, no more than noted errors and lists of nested ones |
| TransactionRuns.PerformValid | lib/Interpreter/IncrementalParser.cpp:486-552 | Every operation, be it a bracket, unloading or new pending work, keeps the invariant |
| TransactionRuns.EveryRunValid | lib/Interpreter/IncrementalParser.cpp:477-483 | In every state that a run reaches, with or without errors, `next` lists exactly the deque without repeats, and the rest of the invariant holds |
| TransactionRuns.InitialValid | lib/Interpreter/IncrementalParser.cpp:554-562 | The invariant holds at the start, with one module open |
| TransactionModules.EachModuleGoesOnce | lib/Interpreter/IncrementalParser.cpp:558-562 | In every state that a run reaches exactly one module is open, and every other one belongs to at most one transaction, a top-level one |
| TransactionModules.NeverGivenAgain | lib/Interpreter/IncrementalParser.cpp:590-613 | Between any two states of a run, the numbers of modules do not go down, and whoever has a module older than the one open in the first state had it there already |
| TransactionModules.OneOwner | lib/Interpreter/IncrementalParser.cpp:724-762 | A module that one transaction has in some state belongs to no other in any later one |
| TransactionModules.PerformAllOnward | lib/Interpreter/IncrementalParser.cpp:554-562 | From any state at all, a module that a transaction has after a run is one it had, or the one that was open, or one with a new number |
| TransactionModules.OpenedNamesDiffer | lib/Interpreter/IncrementalParser.cpp:554-562 | Over any run: every module that is open or held has one of the names opened so far, these are all different, going on adds further ones only, and if another module is open later, its name is not among those of before, so no module open or held before has it |
| TransactionModules.StartOpensNext | lib/Interpreter/IncrementalParser.cpp:558-562 | Starting a module opens one under the next of these names |
| TransactionRollback.BracketModules | lib/Interpreter/IncrementalParser.cpp:590-613 | A bracket passes on the open module if and only if this is told beforehand, from the state, the body and the pending batches: it is a top-level one, something remains in it, and it is rolled back for errors or code is generated for it. Then its transaction has the module, or nobody has it if that is gone, and the one with the next number is open |
| TransactionRollback.RunOpensExactly | lib/Interpreter/IncrementalParser.cpp:554-562 | A run opens exactly one module for each that its operations take, as told beforehand |
| TransactionRollback.RolledBackForGood | lib/Interpreter/IncrementalParser.cpp:590-613 | The module of a transaction that was rolled back, for errors or for failing initialisers, is in no later state open or owned |
| TransactionRollback.BodyRemains | lib/Interpreter/IncrementalParser.cpp:504-616 | Through any nesting of brackets, errors or not: a transaction has something in it if and only if something was declared in it directly, or a bracket in it was committed before errors came |
| TransactionRollback.FailedBracketLeaves | lib/Interpreter/IncrementalParser.cpp:590-616 | A bracket with errors leaves nothing in the transaction around it |
| TransactionModules.ModuleNamesDiffer | lib/Interpreter/IncrementalParser.cpp:554-556 | Modules with different numbers have different names |
| Decimals.DecimalInjective | lib/Interpreter/IncrementalParser.cpp:554-556 | A number is determined by its decimal digits |
| Decimals.DecimalReads | lib/Interpreter/IncrementalParser.cpp:554-556 | The digits stand for the number, and the first of several is not zero |
| TransactionLists.NothingOutOfOrder | lib/Interpreter/IncrementalParser.cpp:779-783 | If `unload` may be called, because the topmost parent has no next transaction, then the assertion "Out of order transaction removal" cannot fail |
| TransactionLists.UnloadManyTakesNewest | lib/Interpreter/Interpreter.cpp:1567-1582 | `unload(n)` removes exactly the newest min(n, count - 1) transactions and never the first; the others stay in their order |
| TransactionLists.DrainsNewest | lib/Interpreter/Interpreter.cpp:1606-1616 | In spite of the empty places in the list of all transactions, exactly the newest min(n, count) are drained, newest first |
| TransactionInvariants.BeginValid | lib/Interpreter/IncrementalParser.cpp:486-501 | Beginning a transaction keeps the invariant, be it nested or not |
| TransactionInvariants.EndValid | lib/Interpreter/IncrementalParser.cpp:504-552 | Ending one keeps it, be it empty and released or appended to the deque |
| TransactionInvariants.AddTransactionValid | lib/Interpreter/IncrementalParser.cpp:477-483 | Appending a transaction keeps `next` and the deque in step |
| TransactionInvariants.SetCommittedValid | lib/Interpreter/IncrementalParser.cpp:691 | A transaction may be marked as committed when all that is nested in it is |
| IncrementalParsing.IncrementalParser.BeginTransaction | lib/Interpreter/IncrementalParser.cpp:486-501 | The new transaction is current, and nested if the old current one is open |
| IncrementalParsing.IncrementalParser.AddTransaction | lib/Interpreter/IncrementalParser.cpp:477-483 | Appends to the deque and links the last one, unless it is nested or last already |
| IncrementalParsing.IncrementalParser.EndTransaction | lib/Interpreter/IncrementalParser.cpp:504-552 | Marks errors at the topmost parent and reports failure; an empty transaction is released and the result has none, any other one is appended |
| IncrementalParsing.IncrementalParser.StartModule | lib/Interpreter/IncrementalParser.cpp:558-562 | Opens a module under the next number |
| IncrementalParsing.IncrementalParser.CommitTransaction | lib/Interpreter/IncrementalParser.cpp:564-616 | The whole effect of a commit: a result without a transaction resets the diagnostics if it failed, errors lead to rollback, and anything else is committed |
| IncrementalParsing.IncrementalParser.RollBackTransaction | lib/Interpreter/IncrementalParser.cpp:590-616 | The effect of the error branch: module released, diagnostics reset, transaction unloaded, module begun |
| IncrementalParsing.IncrementalParser.CommitGoodTransaction | lib/Interpreter/IncrementalParser.cpp:618-699 | The effect of the branch without errors: nested ones, rollback if errors came with them, pending work, code generation |
| IncrementalParsing.IncrementalParser.CommitNestedTransactions | lib/Interpreter/IncrementalParser.cpp:626-631 | The loop over nested transactions has the effect of committing the open ones in order |
| IncrementalParsing.IncrementalParser.HookTransaction | lib/Interpreter/IncrementalParser.cpp:643-665 | A transaction for pending work is begun, filled, ended, and its result committed, with errors or without |
| IncrementalParsing.IncrementalParser.CodeGenTransaction | lib/Interpreter/IncrementalParser.cpp:706-763 | Code generation with the declarations it brings in |
| IncrementalParsing.IncrementalParser.CodeGenRest | lib/Interpreter/IncrementalParser.cpp:724-762 | Only a top-level transaction goes on to take the module |
| IncrementalParsing.IncrementalParser.RunTransaction | lib/Interpreter/IncrementalParser.cpp:672-691 | The transaction takes the module, is committed, runs, and is unloaded again when its initialisers fail |
| IncrementalParsing.IncrementalParser.DeregisterTransaction | lib/Interpreter/IncrementalParser.cpp:765-788 | The current transaction, the parent's list, the deque and the last `next` after a deregistration |
| IncrementalParsing.IncrementalParser.UnloadTransaction | lib/Interpreter/Interpreter.cpp:1503-1565 | Unloading, with everything nested, from the newest on |
| IncrementalParsing.IncrementalParser.UnloadNestedTransactions | lib/Interpreter/TransactionUnloader.cpp:56-70 | The loop that unloads the last nested transaction until there is none |
| IncrementalParsing.IncrementalParser.GetAllTransactions | lib/Interpreter/IncrementalParser.cpp:790-798 | Following `next` from the front gives the whole deque, behind as many empty places |
| IncrementalParsing.IncrementalParser.UnloadNewest | lib/Interpreter/Interpreter.cpp:1567-1582 | The loop of `unload(n)` stops at the first transaction or after n |
| IncrementalParsing.IncrementalParser.RunAndRemoveStaticDestructors | lib/Interpreter/Interpreter.cpp:1606-1616 | Drains the newest n transactions in reverse order |
| IncrementalParsing.IncrementalParser.Drain | lib/Interpreter/Interpreter.cpp:1596-1604 | Goes down between two positions and skips empty places |
| PosixResolution.AnswerIsPosix | lib/Interpreter/DynamicLibraryManagerSymbol.cpp:314-409 | On a file system whose links all resolve within 39 levels and whose entries are in directories, the answer is that of POSIX pathname resolution if and only if the code does not pass a dot or a separator at the end at something that is not a directory and then find everything |
| PosixResolution.RelativeAnswer | lib/Interpreter/DynamicLibraryManagerSymbol.cpp:346-365 | A relative path is answered like the absolute path through the working directory, through the base if there is one, or after a leading "~" through the home directory |
| PosixResolution.PosixReachesAnswer | lib/Interpreter/DynamicLibraryManagerSymbol.cpp:314-409 | There POSIX resolution comes to an end after finitely many steps, and resolves the path, to the same, exactly when the code answers without passing such a place |
| PosixResolution.PosixWithoutDots | lib/Interpreter/DynamicLibraryManagerSymbol.cpp:367-383 | Without dots and separators at the end, in the path as in the texts of links, the answer is that of POSIX |
| PosixResolution.FileTakenForDirectory | lib/Interpreter/DynamicLibraryManagerSymbol.cpp:365-370 | A file for which it is not |
| RealPath.AnswerIsReal | lib/Interpreter/DynamicLibraryManagerSymbol.cpp:314-409 | A result has no link, "." or ".." in it, all its prefixes exist, and it resolves to itself |
| PosixResolution.NestedRefinesPosix | lib/Interpreter/DynamicLibraryManagerSymbol.cpp:384-391 | Resolving a link by a nested call agrees with putting its text in front of the rest, except that POSIX stops where a dot is passed at something that is not a directory |
| RealPath.WalkStaysReal | lib/Interpreter/DynamicLibraryManagerSymbol.cpp:368-400 | From a real directory every resolution leads to a real path |
| RealPath.WalkConcat | lib/Interpreter/DynamicLibraryManagerSymbol.cpp:365-400 | Resolving two lists of components is resolving the second from where the first leads |
| RealPath.WalkLevelIndependent | lib/Interpreter/DynamicLibraryManagerSymbol.cpp:388-407 | An outcome other than an overrun is the same at every higher level, so an entry made at one level may be used at another |
| RealPath.NoOverrun | lib/Interpreter/DynamicLibraryManagerSymbol.cpp:322-325 | If every link resolves within 39 levels, no resolution from a real directory overruns |
| RealPath.ChainLimit | lib/Interpreter/DynamicLibraryManagerSymbol.cpp:314-325 | A chain of links is followed to its end if and only if it has at most 39 |
| RealPath.RealResolvesToItself | lib/Interpreter/DynamicLibraryManagerSymbol.cpp:404-408 | A real path resolves to itself at every level |
| HomePaths.TildeIsKept | lib/Interpreter/DynamicLibraryManagerSymbol.cpp:350-365 | A path with "~" is resolved from the entry "~" of the home directory, the path that is meant from the home directory |
| HomePaths.TildeMeansHomeExactly | lib/Interpreter/DynamicLibraryManagerSymbol.cpp:350-365 | Without an entry "~" the call fails, so it does what is meant if and only if that fails too; with one, if and only if the rest resolves alike from both |
| HomePaths.TildeAlwaysMeansHome | lib/Interpreter/DynamicLibraryManagerSymbol.cpp:350-365 | It does so for every path if and only if the home directory does not resolve, or its entry "~" leads back to it |
| HomePaths.TildeMisses | lib/Interpreter/DynamicLibraryManagerSymbol.cpp:350-365 | In a home directory without an entry "~", everything that is there is missed |
| HomePaths.TildeFails | lib/Interpreter/DynamicLibraryManagerSymbol.cpp:350-365 | A world with such a home directory |
| RealPath.RealPathCache.ResolvePath | lib/Interpreter/DynamicLibraryManagerSymbol.cpp:314-316 | A call from outside, for any path and base: with resolvable links it returns the uncached answer |
| RealPath.RealPathCache.CachedRealpath | lib/Interpreter/DynamicLibraryManagerSymbol.cpp:314-409 | The call ends; with resolvable links it returns the uncached answer, sets ENOENT on failure, and keeps every absolute cache entry equal to the uncached resolution of its key |
| RealPath.RealPathCache.HandleItem | lib/Interpreter/DynamicLibraryManagerSymbol.cpp:368-400 | One path list item takes the result to where the resolution goes on, or finds that the whole resolution fails |
| RealPath.RealPathCache.ResolveLink | lib/Interpreter/DynamicLibraryManagerSymbol.cpp:384-391 | A link is resolved by a nested call one level down, whose result is where the resolution goes on |
| RealPath.RealPathCache.PathList | lib/Interpreter/DynamicLibraryManagerSymbol.cpp:340-365 | The start directory and the components for absolute, real-based, tilde, working-directory and based paths |
| RealPath.RealPathCache.Remember | lib/Interpreter/DynamicLibraryManagerSymbol.cpp:404-407 | An entry is made unless there is one, and the tables stay right |
| RealPath.RealPathCache.CachedLstat | lib/Interpreter/DynamicLibraryManagerSymbol.cpp:276-289 | The memo gives what lstat gives, and 0 when that fails |
| RealPath.RealPathCache.CachedReadlink | lib/Interpreter/DynamicLibraryManagerSymbol.cpp:292-310 | The memo gives what readlink gives, and nothing when that fails |
| Paths.SplitCanonical | lib/Interpreter/DynamicLibraryManagerSymbol.cpp:365 | Splitting the string of a real path gives its components back |
| Paths.AppendCanonical | lib/Interpreter/DynamicLibraryManagerSymbol.cpp:382 | Appending to the string is going down one component |
| Paths.CutCanonical | lib/Interpreter/DynamicLibraryManagerSymbol.cpp:371-379 | Cutting at the last separator, or resetting to the root, is going up one component |
| AtExitUnload.UnloadRunsOwnStack | lib/Interpreter/IncrementalExecutor.cpp:179-196 | Unloading a transaction runs exactly the run of one LIFO stack of its handlers and those that they register for it, no handler of another one, and ends with the transaction absent |
| AtExitUnload.UnloadKeepsOthers | lib/Interpreter/IncrementalExecutor.cpp:179-196 | Every other transaction keeps its handlers in order, followed by those registered for it meanwhile |
| AtExitUnload.UnloadConserves | lib/Interpreter/IncrementalExecutor.cpp:179-196 | Counting trees, what has run and what is still registered is together what was registered: nothing is lost or run twice |
| AtExitUnload.StackRunIsLifo | lib/Interpreter/IncrementalExecutor.cpp:190-195 | When no handler registers any for another transaction, unloading runs them in the order that the language asks for |
| AtExitUnload.MachineIsStackRun | lib/Interpreter/IncrementalExecutor.cpp:190-195 | The run with the table beside it is the run of the bare stack |
| AtExitUnload.MachineConserves | lib/Interpreter/IncrementalExecutor.cpp:190-195 | Conservation for every stack and table |
| AtExitTable.RegisterAllDue | lib/Interpreter/IncrementalExecutor.cpp:89-94 | Registering adds exactly the registered handlers to what is due |
| AtExitTable.EraseDue | include/cling/Utils/OrderedMap.h:71-82 | Erasing a key takes exactly its handlers out of what is due |
| AtExitTable.HandlersAfterRegisterAll | lib/Interpreter/IncrementalExecutor.cpp:89-94 | After any registrations, a transaction has its old handlers followed by the new ones for it, in order |
| AtExitTable.EraseRegisterAll | include/cling/Utils/OrderedMap.h:41-82 | Registrations for other transactions and erasing one commute, order of keys included |
| AtExitShutdown.DrainRunsAll | lib/Interpreter/IncrementalExecutor.cpp:68-87 | Every handler that is registered, before or meanwhile, runs exactly once |
| AtExitShutdown.LifoRunsAll | lib/Interpreter/IncrementalExecutor.cpp:69-71 | So it does in the order that the language asks for |
| AtExitShutdown.AtExitOrder | lib/Interpreter/IncrementalExecutor.cpp:68-94 | The handlers run in the order that the language asks for if the registrations are in order (contiguous per transaction, only the oldest of a group registering more), and only then unless two handlers cannot be told apart |
| AtExitShutdown.LifoOfPlainHandlers | lib/Interpreter/IncrementalExecutor.cpp:68-94 | When nothing is registered meanwhile, that order is the exact reverse of registration |
| AtExitShutdown.TakingTurnsIsOutOfOrder | lib/Interpreter/IncrementalExecutor.cpp:80-86 | Two transactions that register in turns do not get the reverse order |
| AtExit.IncrementalExecutor.AddAtExitFunc | lib/Interpreter/IncrementalExecutor.cpp:89-94 | The handler is the newest of its transaction; a new transaction is the newest key |
| AtExit.IncrementalExecutor.RunAndRemoveStaticDestructors | lib/Interpreter/IncrementalExecutor.cpp:179-196 | The recursive drain ends, and what it runs and leaves is the run of the stack machine |
| AtExit.IncrementalExecutor.RunGroup | lib/Interpreter/IncrementalExecutor.cpp:190-195 | The same for the loop over a group that has been taken out |
| AtExit.IncrementalExecutor.RunAtExitFuncs | lib/Interpreter/IncrementalExecutor.cpp:68-87 | The recursive drain ends with an empty table: the newest group, then all registered meanwhile, then older groups |
| AtExit.IncrementalExecutor.RunSwappedOut | lib/Interpreter/IncrementalExecutor.cpp:80-86 | The same for the loop over the groups that have been swapped out |
| AtExit.IncrementalExecutor.RunWholeGroup | lib/Interpreter/IncrementalExecutor.cpp:81-85 | One group newest first, and then all that it registered |
| GlobalEraserTheory.CollectedAreReached | lib/Interpreter/DeclUnloader.cpp:245-294 | The collected values are the least set that has the start and all that its members refer to, through bodies, prefix data, initialisers, aliasees and constants |
| GlobalEraser.PayloadNames | lib/Interpreter/DeclUnloader.cpp:251-278 | What is followed from a global value is what its initialiser, its aliasee, or its prefix data and the operands in its body mention |
| GlobalEraserTheory.KeptExactly | lib/Interpreter/DeclUnloader.cpp:227-242 | Kept are exactly the values that an array in a variable whose name starts with "llvm.used" points to, through any casts |
| GlobalEraserTheory.ErasedExactly | lib/Interpreter/DeclUnloader.cpp:184-216 | Erased are exactly the dead values, except `_Unwind_Resume`, that no value outside refers to, whatever the order of the set |
| GlobalEraserTheory.NothingDangles | lib/Interpreter/DeclUnloader.cpp:184-216 | No survivor refers to an erased value; what is not dead is untouched, and what is dead but stays refers to nothing |
| GlobalEraserTheory.StartIsErased | lib/Interpreter/DeclUnloader.cpp:169-175 | When the value to be erased goes itself |
| GlobalEraserTheory.TruthfulExactly | lib/Interpreter/DeclUnloader.cpp:173-222 | When "returns true if something was erased" is true of the result |
| GlobalEraserTheory.TrueThoughNothingIsErased | lib/Interpreter/DeclUnloader.cpp:173-222 | A module in which it is not |
| GlobalEraser.CollectWithin | lib/Interpreter/DeclUnloader.cpp:245-294 | Every closed set that has the start has all that is collected, from any state of the marks |
| GlobalEraser.GlobalValueEraser.EraseGlobalValue | lib/Interpreter/DeclUnloader.cpp:175-223 | The module after erasing, the result, and cleared sets |
| GlobalEraser.GlobalValueEraser.CollectAllUsesOfGlobals | lib/Interpreter/DeclUnloader.cpp:245-279 | The recursion ends and grows the two sets as the collecting function says |
| GlobalEraser.GlobalValueEraser.MarkConstant | lib/Interpreter/DeclUnloader.cpp:281-294 | Marks the operands of a constant once each, and collects what is a global value |
| GlobalEraser.GlobalValueEraser.FindUsedValues | lib/Interpreter/DeclUnloader.cpp:227-242 | Takes out exactly what a list of used values names |
| GlobalEraser.GlobalValueEraser.DropPayloads | lib/Interpreter/DeclUnloader.cpp:184-197 | The first pass, in no particular order, empties exactly the dead values |
| GlobalEraser.GlobalValueEraser.EraseUnused | lib/Interpreter/DeclUnloader.cpp:199-214 | The second pass, in no particular order, erases exactly what may go and is not referred to |
| GlobalEraser.Module.RemoveUnusedGlobalValue | lib/Interpreter/DeclUnloader.cpp:302-308 | True exactly if there were uses and all of them were by dead constants, which are gone then |
| LibraryScanTheory.ScanCloses | lib/Interpreter/DynamicLibraryManagerSymbol.cpp:651-872 | The scan keeps what was registered; every library it begins with, and every dependency of every library that it adds and follows, is in one of the two registries or to be ignored |
| LibraryScanTheory.VisitCloses | lib/Interpreter/DynamicLibraryManagerSymbol.cpp:710-842 | The same for one call of HandleLib, on cyclic dependency graphs too |
| LibraryScanTheory.DependencyMet | lib/Interpreter/DynamicLibraryManagerSymbol.cpp:835-840 | Spelled out for a single dependency |
| LibraryScanTheory.ScannedLibraryIsRegistered | lib/Interpreter/DynamicLibraryManagerSymbol.cpp:661-706 | Every library in every directory of the search path of the asked kind is in a registry, unless it is to be ignored or is an executable, though no directory is scanned twice |
| LibraryScanTheory.ScanMinimal | lib/Interpreter/DynamicLibraryManagerSymbol.cpp:710-842 | The scan adds nothing but what is reached from the files in the directories, and nothing that is in the other registry or to be ignored |
| LibraryAnswers.IgnoredExactly | lib/Interpreter/DynamicLibraryManagerSymbol.cpp:1130-1186 | A file is ignored exactly if it is loaded, or no readable shared library of the right format, or an ELF file whose first ".text" section is not allocated or not in the file, or another file that the callback ignores |
| LibraryAnswers.DependencyIsListed | lib/Interpreter/DynamicLibraryManagerSymbol.cpp:817-840 | A candidate that a newly listed library depends on is listed too, if that library names a path that is no search path |
| LibraryAnswers.ListedForAReason | lib/Interpreter/DynamicLibraryManagerSymbol.cpp:651-872 | Everything newly listed is offered by a directory of its kind and no executable, or a library listed by the same scan that names paths of its own depends on it |
| LibraryScan.HandleLib | lib/Interpreter/DynamicLibraryManagerSymbol.cpp:710-842 | The recursion ends, and the registry is what the visiting function says, with list and index in step |
| LibraryScan.HandleNew | lib/Interpreter/DynamicLibraryManagerSymbol.cpp:739-842 | A new library is registered and followed; an executable in a directory is taken out again |
| LibraryScan.HandleDependencies | lib/Interpreter/DynamicLibraryManagerSymbol.cpp:835-840 | The dependencies are handled in order |
| LibraryScan.HandleEntry | lib/Interpreter/DynamicLibraryManagerSymbol.cpp:856-865 | Files and links to files are handled, directories are not |
| LibraryScan.ScanForLibraries | lib/Interpreter/DynamicLibraryManagerSymbol.cpp:651-872 | The scan of all directories of one kind, each real path once |
| LibrarySearchTheory.SearchAnswersFirst | lib/Interpreter/DynamicLibraryManagerSymbol.cpp:1211-1326 | The answer is the first user library with the symbol, else, if asked, the first system library with it, and none only if there is none |
| LibraryAnswers.UnloadedLibraryIsFound | lib/Interpreter/DynamicLibraryManagerSymbol.cpp:1211-1326 | Over any run of queries from the start: as long as a candidate that a search directory offers is not loaded, every query for a symbol that it defines finds an answer, if it is a user library or system libraries are searched |
| LibraryAnswers.UserLibraryListedExactly | lib/Interpreter/DynamicLibraryManagerSymbol.cpp:1220-1231 | The first query lists, of the files that user directories offer, executables apart, exactly the candidates that are not loaded |
| LibraryAnswers.SystemLibraryListedExactly | lib/Interpreter/DynamicLibraryManagerSymbol.cpp:1287-1301 | The same for system directories, when they are asked for the first time, for libraries that are no user libraries |
| LibraryAnswers.ListedStays | lib/Interpreter/DynamicLibraryManagerSymbol.cpp:1240-1263 | What is listed goes exactly if it was an answer and is loaded |
| LibraryAnswers.NothingNewLater | lib/Interpreter/DynamicLibraryManagerSymbol.cpp:1220-1301 | Later queries list nothing new |
| LibraryAnswers.AnsweredExactly | lib/Interpreter/DynamicLibraryManagerSymbol.cpp:1265-1326 | There is an answer if and only if a listed library defines the symbol, for system libraries not as a weak one in the static table, and it is one that defines it |
| LibrarySearchTheory.NoLoadedLibraryTwice | lib/Interpreter/DynamicLibraryManagerSymbol.cpp:1240-1263 | Over any run of queries, with libraries being loaded in between, no earlier answer that is loaded is given again |
| LibrarySearchTheory.SearchNeverRepeats | lib/Interpreter/DynamicLibraryManagerSymbol.cpp:1211-1326 | An answer contains the symbol, is not a loaded earlier answer, and is remembered |
| LibrarySearchTheory.AnswerNotStale | lib/Interpreter/DynamicLibraryManagerSymbol.cpp:1254-1261 | However much later, a remembered answer is given only while it is not loaded |
| LibrarySearchTheory.SearchKeepsApart | lib/Interpreter/DynamicLibraryManagerSymbol.cpp:724-742 | Queries keep the user and the system registry disjoint |
| LibrarySearch.FirstWithIsFirst | lib/Interpreter/DynamicLibraryManagerSymbol.cpp:1266-1278 | What is found contains the symbol and no library before it does; nothing is found only if none does |
| LibrarySearch.Dyld.SearchLibrariesForSymbol | lib/Interpreter/DynamicLibraryManagerSymbol.cpp:1211-1326 | One query on the three registries answers and changes them as the search function says, with all filters kept faithful |
| LibrarySearch.Dyld.DropLoaded | lib/Interpreter/DynamicLibraryManagerSymbol.cpp:1240-1263 | Exactly the earlier answers that are loaded are unregistered |
| LibrarySearch.Dyld.SearchUserLibraries | lib/Interpreter/DynamicLibraryManagerSymbol.cpp:1265-1278 | The first user library with the symbol, which is remembered |
| LibrarySearch.Dyld.SearchSystemLibraries | lib/Interpreter/DynamicLibraryManagerSymbol.cpp:1307-1325 | The first system library with the symbol as a strong one, which is remembered |
| LibrarySearch.FindLibrary | lib/Interpreter/DynamicLibraryManagerSymbol.cpp:1266-1278 | Building filters on the way, the loop finds the first library that contains the symbol |
| LibrarySymbols.LibraryPath.ContainsSymbol | lib/Interpreter/DynamicLibraryManagerSymbol.cpp:997-1056 | The filters never change the simple answer, and the filter is built from the whole file the first time |
| LibrarySymbols.ContainsMeans | lib/Interpreter/DynamicLibraryManagerSymbol.cpp:874-1056 | The simple answer: the file is readable, its own hash table does not rule the name out, and an entry of a symbol table that is not ignored has the name |
| LibrarySymbols.KeptNames | lib/Interpreter/DynamicLibraryManagerSymbol.cpp:892-952 | Collected are exactly the names of the entries that are not ignored and not nameless |
| LibrarySymbols.NeverMissed | lib/Interpreter/DynamicLibraryManagerSymbol.cpp:988-994 | Every collected name passes the filter that is built, and the table is not empty then |
| LibrarySymbols.LibraryPath.BuildBloomFilter | lib/Interpreter/DynamicLibraryManagerSymbol.cpp:874-995 | Filter and symbol set stand for exactly the names of the file |
| LibrarySymbols.LibraryPath.MayExistSymbol | lib/Interpreter/DynamicLibraryManagerSymbol.cpp:207-213 | False without symbols, and else the test of the hash |
| LibrarySymbols.CollectSymbols | lib/Interpreter/DynamicLibraryManagerSymbol.cpp:888-953 | The names of the static and, for ELF, the dynamic symbol table, with their different flags |
| BloomFilters.NoFalseNegatives | lib/Interpreter/DynamicLibraryManagerSymbol.cpp:124-140 | Whatever is added before or after it, every added symbol tests true |
| BloomFilters.AddedTests | lib/Interpreter/DynamicLibraryManagerSymbol.cpp:124-140 | For a caller of TestHash: an added hash tests true, and another addition does not undo that |
| BloomFilters.Log2IsFloor | lib/Interpreter/DynamicLibraryManagerSymbol.cpp:95-97 | `log2u` is the floor of the binary logarithm |
| BloomFilters.GnuHashAppend | lib/Interpreter/DynamicLibraryManagerSymbol.cpp:88-93 | The hash starts with 5381, and every further character is added to 33 times the hash, modulo 2^32 |
| BloomFilters.BloomSizeIsLeast | lib/Interpreter/DynamicLibraryManagerSymbol.cpp:142-148 | The least number of words that has 8.127 bits a symbol, and a shift of the binary logarithm up to 6 |
| BloomFilters.BloomSizePositive | lib/Interpreter/DynamicLibraryManagerSymbol.cpp:142-148 | A filter for at least one symbol has a table, so no index is taken modulo zero |
| BloomFilters.BloomFilter.AddHash | lib/Interpreter/DynamicLibraryManagerSymbol.cpp:134-140 | The two bits are set and nothing else changes |
| BloomFilters.BloomFilter.ResizeTable | lib/Interpreter/DynamicLibraryManagerSymbol.cpp:142-148 | Size, shift and an empty table for a number of symbols |
| LibraryRegistry.IndexIsList | lib/Interpreter/DynamicLibraryManagerSymbol.cpp:237-246 | The index has a key exactly if the list has a library with it |
| LibraryRegistry.IndexFinds | lib/Interpreter/DynamicLibraryManagerSymbol.cpp:241-246 | What the index gives for a key is a listed library with that key |
| LibraryRegistry.IndexComplete | lib/Interpreter/DynamicLibraryManagerSymbol.cpp:226-272 | Every listed library is what the index gives for its key |
| LibraryRegistry.LibraryPaths.RegisterLib | lib/Interpreter/DynamicLibraryManagerSymbol.cpp:248-253 | The library is last in the list and in the index, and nothing is listed twice |
| LibraryRegistry.LibraryPaths.UnregisterLib | lib/Interpreter/DynamicLibraryManagerSymbol.cpp:255-262 | Exactly the library with the key goes from both, and nothing happens if there is none |
| LibraryNames.NameOfKey | lib/Interpreter/DynamicLibraryManagerSymbol.cpp:718-722 | Taking a file name apart and putting it together by GetFullName is the identity |
| LibraryNames.KeyOfInjective | lib/Interpreter/DynamicLibraryManagerSymbol.cpp:171-180 | Two files with the same pair of directory and name are the same |
| SectionAllocator.RunFits | lib/Interpreter/IncrementalJIT.cpp:92-124 | With a base aligned to a common alignment and the sum of the rounded sizes reserved, in any order of requests none is refused, and all blocks are aligned, inside the reservation and disjoint |
| SectionAllocator.RunIsAskable | lib/Interpreter/IncrementalJIT.cpp:92-124 | Such a run meets what a run of calls asks for, when the alignments are powers of two and the reservation is not at the very end of the address space |
| SectionAllocator.FitsIntoReservation | lib/Interpreter/IncrementalJIT.cpp:92-124 | Every request finds its place from any position up to a multiple of the common alignment |
| SectionAllocator.FitsMeansPlaced | lib/Interpreter/IncrementalJIT.cpp:99-123 | Then every answer is aligned and inside, and behind all earlier ones |
| SectionAllocator.OvershootCondition | lib/Interpreter/IncrementalJIT.cpp:101-121 | A block runs over the end exactly if its bare size still fits and the gap in front of it does not |
| SectionAllocator.InsideExactly | lib/Interpreter/IncrementalJIT.cpp:92-124 | Whatever was reserved, all requests of a run get blocks that end inside if and only if each, rounded up to its own alignment, finds its place behind the one before it |
| SectionAllocator.OvershootExample | lib/Interpreter/IncrementalJIT.cpp:101-121 | A run from an aligned base, with room for the bare sizes, in which the last block runs over the end |
| SectionAllocator.AllocInfo.GetAddrs | lib/Interpreter/IncrementalJIT.cpp:92-124 | A run of calls, one after the other, gives the answers that these laws are about |
| SectionAllocator.MaskRoundsUp | lib/Interpreter/IncrementalJIT.cpp:118-119 | On 64-bit words and powers of two, the mask form is arithmetic rounding up |
| SectionAllocator.RoundUpIsLeast | lib/Interpreter/IncrementalJIT.cpp:118-119 | Rounding up gives the least multiple that is not below |
| SectionAllocator.AllocInfo.GetNextAddr | lib/Interpreter/IncrementalJIT.cpp:92-124 | Null if and only if the bare size does not fit, and then nothing changes; else the next aligned address, and the position behind the block |
| SectionAllocator.ClingMemoryManager.AllocateCodeSection | lib/Interpreter/IncrementalJIT.cpp:136-149 | From the reservation if there is one and it serves, and else from the base class |
| SectionAllocator.ClingMemoryManager.AllocateDataSection | lib/Interpreter/IncrementalJIT.cpp:151-168 | The same for the read-only or the writable block, the other one untouched |
| SectionAllocator.ClingMemoryManager.ReserveAllocationSpace | lib/Interpreter/IncrementalJIT.cpp:170-191 | The three reservations |
| DeclExtractionTheory.ExtractionMeans | lib/Interpreter/DeclExtractor.cpp:110-228 | For every body and store, initialising the emitted globals in order and running what is left of the body does what the body does when a return only skips to the next declaration |
| DeclExtractionTheory.ExtractionKeepsAll | lib/Interpreter/DeclExtractor.cpp:110-228 | The declarations that are moved are exactly those of the body that have names and are no using directives, in order; every other statement is, in order, in one emitted function, which ends in a return, or in what is left of the body |
| DeclExtractionTheory.ExtractionPreservesMeaning | lib/Interpreter/DeclExtractor.cpp:110-228 | If nothing before the last declaration returns, the final store is that of the original body |
| DeclExtractionTheory.ExtractionPreservesMeaningExactly | lib/Interpreter/DeclExtractor.cpp:110-228 | The final stores are the same if and only if what comes from the next declaration after the first return on has no effect |
| DeclExtractionTheory.EarlyReturnMatters | lib/Interpreter/DeclExtractor.cpp:259-277 | Whatever body returns, a variable declared behind it has an initialiser with which the stores differ |
| DeclExtractionTheory.EarlyReturnIsIgnored | lib/Interpreter/DeclExtractor.cpp:259-277 | A body with an early return for which they are not the same |
| DeclExtractionTheory.NamesNeverRepeat | lib/Interpreter/DeclExtractor.cpp:230-236 | Over any run of the extractor no synthesised name occurs twice |
| DeclExtractionTheory.BodyNames | lib/Interpreter/DeclExtractor.cpp:238-299 | The names made up for one body are numbered on from the counter without gaps |
| DeclExtraction.DeclExtractor.ExtractDecl | lib/Interpreter/DeclExtractor.cpp:110-228 | Emitted globals, remaining body, counter and the clash verdict over all moved declarations |
| DeclExtraction.DeclExtractor.ExtractDecls | lib/Interpreter/DeclExtractor.cpp:131-178 | The loop over the declarations of one statement |
| DeclExtraction.DeclExtractor.ExtractNamed | lib/Interpreter/DeclExtractor.cpp:136-177 | Waiting statements are flushed before a declaration is emitted |
| DeclExtraction.DeclExtractor.EnforceInitOrder | lib/Interpreter/DeclExtractor.cpp:238-299 | A function with the waiting statements and a return, and then a variable that calls it, are emitted |
| DeclExtraction.DeclExtractor.CreateUniqueName | lib/Interpreter/DeclExtractor.cpp:230-236 | The name ends in the counter, which goes up |
| DeclExtraction.DeclExtractor.CheckForClashingNames | lib/Interpreter/DeclExtractor.cpp:304-338 | True exactly if one of the declarations clashes |
| DeclExtraction.DeclCollector.HandleTopLevelDecl | lib/Interpreter/DeclCollector.cpp:191-250 | Extracted declarations are appended in order before their wrapper and are not transformed again; on an error the wrapper is not taken, and code generation gets nothing more |
| DeclExtraction.DeclCollector.Transform | lib/Interpreter/DeclCollector.cpp:162-189 | No transformation inside a transformation, and the flag is restored |
| Redeclarations.RedeclareAndUnload | lib/Interpreter/DeclUnloader.cpp:466-493 | Declaring an entity any number of times more and unloading newest first gives back the chain, its order and latest link, and the lookup table; the definition is forgotten by the chain exactly if one of the declarations was it |
| Redeclarations.RemoveRedeclFromChain | lib/Interpreter/DeclUnloader.cpp:38-106 | Removing any wired element but the first yields the same chain without it; one that is not wired changes nothing; removing the definition clears it everywhere |
| Redeclarations.FindNext | lib/Interpreter/DeclUnloader.cpp:83-90 | The walk back from the latest finds the element behind, or null if there is no such element |
| Redeclarations.ResetDefinitionData | lib/Interpreter/DeclUnloader.cpp:447-456 | Every declaration of the chain forgets the definition, and the links stay |
| Redeclarations.HandleRedeclaration | lib/Interpreter/DeclUnloader.cpp:113-156 | The declaration that becomes the latest is listed in place of the one to go, if that was listed and it was not |
| Redeclarations.VisitRedeclarable | lib/Interpreter/DeclUnloader.cpp:466-493 | Chain and lookup table after unloading any declaration of a chain; the first one is left alone |
| Redeclarations.Unload | lib/Interpreter/DeclUnloader.cpp:539-566 | For a declaration anywhere in its chain: afterwards its name does not find it, no name has an empty entry, the table shows the latest declaration left if it was not the first, everything else is found as before, and only the first of a longer chain is still referred to |
| Redeclarations.DeclContext.EraseDeclFromMap | lib/Interpreter/DeclUnloader.cpp:312-328 | The declaration goes from the entry of its name, and an entry without declarations goes |
| AutoFixer.AutoFixer.Fix | lib/Interpreter/AutoSynthesizer.cpp:28-55 | The walk over the growing list ends; a new body exactly if something was inserted, with every declaration directly in front of its statement |
| AutoFixer.AutoFixer.WalkStatements | lib/Interpreter/AutoSynthesizer.cpp:34-45 | Inserting while walking gives the woven list, and handles the first variable of each statement |
| AutoFixer.AutoFixer.TraverseStmt | lib/Interpreter/AutoSynthesizer.cpp:82-90 | Stops at the first automatic variable of a statement |
| AutoFixer.InsertedExactlyOnce | lib/Interpreter/AutoSynthesizer.cpp:34-45 | A declaration stands in front of exactly those statements whose first automatic variable is new |
| AutoFixer.WeaveAt | lib/Interpreter/AutoSynthesizer.cpp:34-45 | Every statement is as many places further on as declarations were inserted up to it, its own one directly in front of it |
| AutoFixer.AutoOfExactly | lib/Interpreter/AutoSynthesizer.cpp:82-90 | The traversal of a statement finds its first annotated variable, or none if there is none |
| AutoFixer.DeclaredBefore | lib/Interpreter/AutoSynthesizer.cpp:34-45 | The first automatic variable of a statement is declared before it unless it was handled already |
| AutoFixer.WeaveKeepsOriginals | lib/Interpreter/AutoSynthesizer.cpp:42 | Deleting the insertions gives back the original statements in order |
| AutoFixer.WeaveLength | lib/Interpreter/AutoSynthesizer.cpp:46-54 | The length is the same exactly if nothing was inserted |
| AutoFixer.InsertedOnce | lib/Interpreter/AutoSynthesizer.cpp:34-45 | In one body exactly the new first variables are declared, each once |
| AutoFixer.NeverDeclaredTwice | lib/Interpreter/AutoSynthesizer.cpp:23-43 | No variable is declared twice while the fixer lives |
| AutoFixer.AllHandled | lib/Interpreter/AutoSynthesizer.cpp:82-90 | All automatic variables are handled if and only if each was handled before or is the first of some statement |
| AutoFixer.SecondVariableIsMissed | lib/Interpreter/AutoSynthesizer.cpp:82-90 | A second variable of a statement is missed |

## Left out

Of the parts that are modelled:

- Transactions live in a map from numbers to records inside `IncrementalParser`, not as heap objects, and are numbered in the order in which they are begun; that the pool reuses the memory of released ones is not captured.
- Warnings, interpreter callbacks, stored and cached states, `ErrorOut`, `emitAllDecls`, and user code that opens or unloads transactions during a commit or an unload are not part of the model. A rolled-back transaction is gone, so there is no phase for it, and `pop` asks whether it is still there.
- Instantiation and deserialisation produce the batches of declarations that the list `work` has, one per transaction begun for them.
- TransactionCommit.CommitNestedGrows: errors may come only with the last nested transaction that is open, and with batches that have errors the open ones have nothing open in them. If another open one follows, the loop (IncrementalParser.cpp:626-631) goes on to unload it, which erases it from the list that the loop is going through; what the code does then is not defined.
- Static destructors that run inside `unload` are modelled in `AtExit`, apart from the transactions; removing modules from the JIT is not modelled.
- `LinksResolve` and `EntriesAreInDirectories`, the hypotheses of the path theorems, exclude dangling links, loops of links and nestings deeper than 39; a file system that changes is excluded by the `const world`. Links with empty texts, roots of the form "//net" and Windows paths are not modelled.
- Files are known to the library scan by a pair of directory and name. `lookupLibrary`, the real paths of search directories and of links in them, `isSharedLibrary`, the ignore callback, the object reader and the .gnu.hash test are answers of the `Host`. They do not change while it is asked; the set of loaded libraries does, from query to query.
- Mach-O and COFF libraries, the interning of base paths, symbol names that cannot be read, and the linear symbol search that is switched off are not modelled. The list of earlier answers refers to registered libraries where the code copies them; only their keys are used.
- BloomFilters.BloomSize: floating-point rounding is replaced by the constant 8.127 bits a symbol, and symbol counts do not wrap around at 32 bits.
- Spin locks and threads around the at-exit table; handlers that go on registering for ever.
- SectionAllocator.AllocInfo.GetNextAddr: addresses are naturals below 2^64, and a request must not take a sum beyond that.
- SectionAllocator.ClingMemoryManager.ReserveAllocationSpace: what the base class allocates, and how it is aligned, is a parameter.
- `IncrementalJIT::getSymbolAddress` and the rest of the JIT: they would add only easy members.
- Constants of a module are trees, equal ones being one; `forgetGlobal` of the code generator is left out. That the lists of used values are arrays of global values, for which the code has casts that abort, is a precondition.
- DeclExtraction.DeclExtractor.ExtractDecl: whether a declaration clashes is a given predicate, and the failure on a record type that needs more of Clang's checks (DeclExtractor.cpp:166-168) is not modelled; scopes and lookup of extracted declarations are left out.
- DeclExtraction.DeclExtractor.ExtractDecls: the same failure is not modelled.
- DeclExtraction.DeclCollector.HandleTopLevelDecl: declarations from an AST reader (DeclCollector.cpp:209-233) are not modelled.
- DeclExtraction.DeclCollector.Transform: extraction is the only transformer, and it replaces no declaration.
- The values of the `__vd` variables and the wrap-around of the name counter are left out.
- AutoFixer.AutoFixer.Fix: the overload for `try` blocks (AutoSynthesizer.cpp:57-80) is not modelled; it calls the modelled one for the blocks.
- Scopes, identifier chains and template specialisations that are cleaned up when a declaration is unloaded are not modelled; a name is looked up in one context.

Not modelled at all:

- Everything inside Clang and LLVM: parsing, semantic analysis, code generation, linking, object files.
- Option handling, the forward declaration printer, the lookup helper, dynamic scoping, value printing, CUDA and the user interface: option plumbing or wide case analysis over Clang's syntax trees, with no compact specification.
