# Verified models of the build, binding and test tooling

This project models the algorithmic core of the ns-3 / QKD simulator repository's tooling in Dafny and
proves what each part is for. Loops over dictionaries, lists, queues and stacks are methods with loop
invariants, objects whose methods update fields are classes, and the threads of the test runner are a
state machine. Each method is tied to a specification (a predicate or a function), and the lemmas say what
the specification means.

| file | what it models |
|---|---|
| `Graph.dfy` | directed graphs: walks, cycles, pigeonhole, elementary cycles |
| `Topsort.dfy`, `TopsortLevels.dfy` | Kahn's sort of (parent, child) pairs, whole and by levels |
| `Rotation.dfy`, `FindCycles.dfy`, `CycleReport.dfy` | rotations of a list, the stack-based cycle finder, and what a failed sort leaves for it |
| `Options.dfy`, `Sequences.dfy` | small definitions that the others share |
| `Sums.dfy`, `TestRunner.dfy`, `Interrupts.dfy` | the dispatcher, the worker threads and the interrupt handler of the test runner, over every interleaving, and what becomes of the jobs that an interrupt catches |
| `LabelledWalks.dfy`, `ConfigPaths.dfy`, `RegistryEdges.dfy` | the recursive gathering of configuration paths over the type graph, and that graph in terms of the registry |
| `ShellSyntax.dfy`, `ShellGrammar.dfy`, `ShellTokens.dfy` | the token machine of the shell pipeline parser, its grammar, and what each token stands for |
| `ShellRun.dfy`, `ShellProcesses.dfy` | the interpreter of parsed pipelines, its meaning, when it fails, and which processes it starts with what |
| `ShellPosix.dfy`, `ShellAgreement.dfy` | what a POSIX shell does with the same nodes, and when the interpreter does just that |
| `Binary.dfy`, `Gray.dfy`, `Permutations.dfy`, `Euclid.dfy` | binary strings, the ripple counter, Gray code, permutations, common factors |
| `Patches.dfy`, `PatchFormat.dfy`, `PatchObjects.dfy` | writing and parsing unified patches: the round trip, the format line by line, and the objects that the parser fills |
| `Subst.dfy`, `SubstText.dfy` | two-pass template substitution, and what it does to the text |
| `TcpWriter.dfy` | the resumable writer of a byte stream |
| `Timeline.dfy` | binary search over timeline ranges and events |

Some facts about the code that the proofs bring out:

- `find_cycles` skips roots that an earlier search marked, and still misses no cycle (`FindCycles.FindCycles`).
- A failed sort keeps exactly the nodes on cycles or behind them, and its leftover dictionary has the same
  elementary cycles as the input (`CycleReport.LeftoverKeepsCycles`).
- With jobs to run but no worker the test runner waits for ever; with one worker or more every run ends.
  Six steps a job, four a worker and two more bound every run (`TestRunner.RunsAreBounded`).
- After an interrupt no job is started, and exactly the jobs that no worker had looked at come back unrun, those to be
  skipped and those not yet dispatched included. The exit code is then 0 only if there were none of them
  (`Interrupts.InterruptedJobs`, `Interrupts.InterruptedEnd`).
- The interpreter gives `a && b || c` the right-nested meaning, and it is not a POSIX shell in other ways either.
  Sections 2.9.2, 2.9.3 and 2.12 of the POSIX Shell Command Language are modelled on the parsed nodes, apart from
  the interpreter. The two start the same processes, connected in the same way, and return the same status for
  all exit statuses exactly when (`ShellAgreement.AgreementIff`): the pipeline ends in a command and every `cd` names
  a directory; `&&` and `||` are not mixed between groups; no `cd` comes directly after `|` or `||`; no command after
  `|` redirects its input; and every redirected file is the same seen from the interpreter's directory as from the
  command's, since the interpreter opens files before it changes directory. A lemma gives an input for each
  condition that fails.
- A `cd` that comes last or names no directory makes the interpreter fail, but only when it is reached
  (`ShellRun.FailsIff`); the processes of the pipe group it is in are then left running and their files open
  (`ShellRun.Run`).
- A command that ends in `>`, `2>` or `<` without a file name is parsed as if the last token were not there; the
  grammar has a rule for it (`ShellGrammar.Tail`).
- A patch read back is the patch written exactly when no removed text starts with `-- ` and no added text with
  `++ ` (`Patches.FileRoundTripIff`).
- `get_ranges` misses ranges when some range meets the interval and neither of its ends is covered, and when two
  ranges touch at an end and the search comes upon the inner one; it returns ranges beyond an end that no range
  covers. Both have their exact conditions (`Timeline.NoneMissedIff`, `Timeline.NoneExtraIff`) and concrete cases
  (`Timeline.RangesMissedAndExtra`).
- The TCP writer closes the socket at the first turn that finds no space, even with nothing sent
  (`TcpWriter.ClosedIff`, `TcpWriter.ClosedTooSoon`).

## Model

| member | source | states |
|---|---|---|
| `Topsort.CountParents` | bindings/python/topsort.py:77-90 | The dictionaries hold, for every mentioned element, how many pairs give it a parent, and the children of each parent in pair order |
| `Topsort.ChildrenInPairOrder` | bindings/python/topsort.py:84-90 | The children listed for a parent are those of its pairs, one for each pair and in the order of the pairs |
| `Topsort.ParentlessKeys` | bindings/python/topsort.py:92-93 | The keys whose count is zero, each once |
| `Topsort.RetireChildren` | bindings/python/topsort.py:99-103 | Counting a parent's children down keeps every live count equal to the live parents, and lists exactly those that reach zero |
| `Topsort.RetireParent` | bindings/python/topsort.py:97-106 | One turn keeps the retired prefix parents-first and the dictionaries true of what is still live, and removes a key |
| `Topsort.Topsort` | bindings/python/topsort.py:77-112 | Succeeds iff the pairs are acyclic, then lists every element once with parents before children; otherwise the error holds the sorted remainder and exactly the nodes on a cycle or reachable from one |
| `Topsort.ParentCountRemove` | bindings/python/topsort.py:98-101 | Retiring a parent lowers a child's count by the number of times it is listed |
| `Topsort.ParentsFirstAvoidsCycles` | bindings/python/topsort.py:108-111 | No cycle reaches an element all of whose ancestors could be listed before it |
| `Topsort.AllRetired` | bindings/python/topsort.py:108-112 | When the list is used up, the keys left are exactly the nodes a cycle reaches, and there are none iff the graph is acyclic |
| `TopsortLevels.NextLevel` | bindings/python/topsort.py:203-212 | The parentless live nodes are those whose longest incoming walk has k edges, and what stays live has a walk of k + 1 |
| `TopsortLevels.NoNextLevel` | bindings/python/topsort.py:226-232 | When no live node is parentless, the live nodes are exactly those a cycle reaches |
| `TopsortLevels.DeleteLevel` | bindings/python/topsort.py:217-224 | Deleting a level leaves the counts and children of the nodes below it true |
| `TopsortLevels.TopsortLevelsCore` | bindings/python/topsort.py:203-232 | Level k is the set of nodes whose longest incoming walk has k edges; the levels end in StopIteration iff the graph is acyclic, else in an error with the nodes a cycle reaches |
| `TopsortLevels.TopsortLevels` | bindings/python/topsort.py:157-172 | The same from a list of pairs, duplicates and self-pairs allowed |
| `TopsortLevels.EdgeClimbs` | bindings/python/topsort.py:214-224 | An edge leads from a level to a later one |
| `TopsortLevels.LevelsAreTopological` | bindings/python/topsort.py:175-192 | The concatenated levels are a topological order |
| `Rotation.IsRotated` | bindings/python/rad_util.py:761-775 | True iff the second list is a rotation of the first |
| `Rotation.RotateTwice` | bindings/python/rad_util.py:770-774 | Rotating twice is rotating once, by the sum around the end |
| `Rotation.RotationSymmetric` | bindings/python/rad_util.py:761-775 | Being rotated is symmetric |
| `Rotation.RotationTransitive` | bindings/python/rad_util.py:761-775 | Being rotated is transitive, so the duplicate test compares classes |
| `Rotation.RotatedCycle` | bindings/python/topsort.py:370-375 | A rotated elementary cycle is an elementary cycle of the same graph |
| `FindCycles.RecordCycle` | bindings/python/topsort.py:368-378 | Afterwards the cycle is recorded up to rotation and no two records are rotations of each other |
| `FindCycles.ExpandPath` | bindings/python/topsort.py:353-385 | Every child of the popped path closes a recorded cycle or is pushed as a longer simple path, and the work pushed is the work the path stood for less one |
| `FindCycles.PopKeepsCover` | bindings/python/topsort.py:352-385 | After a pop every simple path from the root is explored or still has a prefix on the stack |
| `FindCycles.ExploreFrom` | bindings/python/topsort.py:351-385 | The stack loop ends, and leaves every simple path from the root explored |
| `FindCycles.PathAroundCycle` | bindings/python/topsort.py:346-349 | From a root that reaches a cycle there is a simple path that runs once around it |
| `FindCycles.CycleIsRecorded` | bindings/python/topsort.py:343-385 | A cycle is recorded once the roots searched reach every key |
| `FindCycles.FindCycles` | bindings/python/topsort.py:343-385 | Yields elementary cycles only, one of each rotation class, and every elementary cycle of the graph is among them; none iff acyclic |
| `CycleReport.LeftoverKeepsCycles` | bindings/python/topsort.py:108-111 | The dictionary in the sort's error has exactly the input's elementary cycles |
| `Graph.ClosedSetAfterCycle` | bindings/python/topsort.py:108-111 | In a finite set where every node has a parent in the set, a cycle reaches every node |
| `Graph.ClosedWalkHasElementaryCycle` | bindings/python/topsort.py:235-242 | Every closed walk contains an elementary cycle |
| `Graph.LongestWalkIff` | bindings/python/topsort.py:157-172 | A longest walk has k edges iff there is a walk of k edges and none of k + 1 |
| `TestRunner.InitInv` | test.py:1336-1366 | The invariant holds when the threads have just been started |
| `TestRunner.KeepsConserved` | test.py:929-997 | Every step keeps each dispatched job in exactly one of the queues, a worker's hands or the collected results |
| `TestRunner.KeepsPoisonConserved` | test.py:1626-1629 | Every step keeps one poison job, queued or taken, per poisoned worker |
| `TestRunner.KeepsPoisonLast` | test.py:1626-1629 | Every step keeps poison behind all real jobs, in the queue and out of it |
| `TestRunner.KeepsInv` | test.py:929-997 | Every step of any thread keeps the invariant: no job lost, poison last, results in order; what an interrupt forces is stated by the members of `Interrupts` |
| `TestRunner.MissingJobsQueued` | test.py:1648-1649 | If results are missing and nobody holds a job, jobs are still queued and no worker has left |
| `TestRunner.ResultsComing` | test.py:1648-1649 | While results are missing some step other than an interrupt is enabled |
| `TestRunner.PoisonLeft` | test.py:1786-1787 | As long as a worker waits, there is a poison job for it |
| `TestRunner.Progress` | test.py:929-997 | No deadlock: until the main thread returns, the program has an enabled step of its own |
| `TestRunner.StepDecreases` | test.py:929-997 | Every step uses up some of the remaining work |
| `TestRunner.RunsAreSafe` | test.py:1336-1366 | Every state of every run, in every interleaving, satisfies the invariant |
| `TestRunner.RunsAreBounded` | test.py:929-997 | No run has more than six steps a job, four a worker and two more |
| `TestRunner.RunsEndReturned` | test.py:1865-1868 | A run that cannot go on has returned an exit code, given a worker or nothing to do |
| `TestRunner.NoWorkersNoReturn` | test.py:1648-1649 | Without workers no run with jobs ever returns |
| `TestRunner.TallyCounts` | test.py:1641-1677 | The counters count the results of each kind and the lists name them |
| `TestRunner.KindsPartition` | test.py:1641-1677 | Every result is counted under one kind or was interrupted |
| `TestRunner.EndState` | test.py:1781-1787 | At the end the queues are empty, every worker has left, and every dispatched job was collected exactly once |
| `TestRunner.EndCode` | test.py:1865-1868 | The counters and the interrupted jobs sum to all tests, and the exit code is 0 iff every collected job passed or was skipped; which jobs are interrupted is stated by the members of `Interrupts` |
| `TestRunner.UninterruptedEnd` | test.py:1641-1677 | Without an interrupt the counts depend on the jobs alone, not on the interleaving: skipped, or by return code 0 passed, 1 failed, 2 valgrind error, anything else crashed |
| `TestRunner.ZeroVouches` | test.py:1865-1868 | Exit code 0 means that every dispatched job is skipped or its command returns 0, whatever was interrupted |
| `Interrupts.NoJobStarts` | test.py:943-946 | Once the interrupt handler has set its flag no worker starts a job, and the flag stays set |
| `Interrupts.InterruptKeepsCaught` | test.py:931-997 | After an interrupt every step keeps, for every choice of jobs, the number of those that no worker has looked at or that were handed back unrun |
| `Interrupts.InterruptedJobs` | test.py:943-946 | In every interrupted run that ends, the jobs collected with the break mark are exactly those not dispatched, queued or just taken when the interrupt came, jobs to be skipped included |
| `Interrupts.InterruptedEnd` | test.py:1865-1868 | So many results are interrupted jobs, and the exit code is 0 iff there were none and every job is skipped or its command returns 0 |
| `Interrupts.QueueIsFair` | test.py:929-931 | In every step jobs are taken in the order in which they are dispatched, and poison after all of them |
| `Interrupts.RunIsFair` | test.py:929-931 | At every moment of every run the queue holds the jobs dispatched and not taken, in order, and nothing but poison after them |
| `Interrupts.ResultsAreFair` | test.py:1648-1649 | Results are collected in the order in which they are reported |
| `LabelledWalks.WalksComplete` | utils/print-introspected-doxygen.cc:1185-1269 | The walks enumerated are exactly those that meet distinct types outside the ancestors |
| `LabelledWalks.WalksNoRepeats` | utils/print-introspected-doxygen.cc:1185-1269 | No walk is enumerated twice |
| `LabelledWalks.WalksInOrder` | utils/print-introspected-doxygen.cc:1185-1269 | They are listed depth first: a walk before its continuations, and those by earlier edges before those by later ones |
| `ConfigPaths.StaticInformation.GetCurrentPath` | utils/print-introspected-doxygen.cc:1091-1102 | A slash before every item of the path stack |
| `ConfigPaths.JoinPathOfOne` | utils/print-introspected-doxygen.cc:1091-1102 | No items give the empty path, and one item gives a slash and the item |
| `ConfigPaths.JoinPathAppends` | utils/print-introspected-doxygen.cc:1091-1102 | The path of two lists of items is the path of the one followed by that of the other |
| `ConfigPaths.StaticInformation.RecordOutput` | utils/print-introspected-doxygen.cc:1105-1110 | Appends the type with the current path and changes nothing else |
| `ConfigPaths.StaticInformation.HasAlreadyBeenProcessed` | utils/print-introspected-doxygen.cc:1113-1125 | True iff the type is on the ancestor stack |
| `ConfigPaths.StaticInformation.DoGather` | utils/print-introspected-doxygen.cc:1185-1269 | Appends one entry for every walk of the type graph from the type through distinct types off the stack, restores both stacks, and ends because the types off the stack grow fewer; the graph is described by `RegistryEdges.TypeGraphIff` |
| `ConfigPaths.StaticInformation.FollowAttributes` | utils/print-introspected-doxygen.cc:1194-1233 | Records what pointer and container attributes lead to, except pointers to plain objects |
| `ConfigPaths.StaticInformation.FollowChildren` | utils/print-introspected-doxygen.cc:1234-1246 | Records what the edges to child types lead to; `RegistryEdges.ChildEdgesAre` says which those are |
| `ConfigPaths.StaticInformation.FollowAggregates` | utils/print-introspected-doxygen.cc:1247-1268 | Records what the aggregated types lead to, in either direction |
| `ConfigPaths.StaticInformation.Gather` | utils/print-introspected-doxygen.cc:1176-1182 | From empty stacks, records each walk of the type graph through distinct types exactly once and no other, in depth-first order |
| `ConfigPaths.RecordsViaNext` | utils/print-introspected-doxygen.cc:1214-1218 | Following one more edge adds what its target records under the longer path |
| `RegistryEdges.TypeGraphIff` | utils/print-introspected-doxygen.cc:1194-1268 | A step leads from one type to another iff an attribute of the first with that name points to the second, which is not the type of plain objects, or contains it, then with `/[i]` added; or the second is a child of the first or aggregated with it, then under a dollar sign and its name |
| `RegistryEdges.TypeGraphInOrder` | utils/print-introspected-doxygen.cc:1194-1268 | The edges by attributes come first, then those to children, then those by aggregates, and there are as many as reasons for them |
| `RegistryEdges.AttributeEdgesAre` | utils/print-introspected-doxygen.cc:1194-1233 | One edge for each container and each pointer to a type other than that of plain objects, in attribute order |
| `RegistryEdges.ChildEdgesAre` | utils/print-introspected-doxygen.cc:1234-1246 | One edge for each registered child, in the order of registration |
| `RegistryEdges.AggregateEdgesAre` | utils/print-introspected-doxygen.cc:1247-1268 | One edge for each aggregate with the type in it, to the other part, in the order recorded |
| `ShellSyntax.Pipeline.CommitCommand` | waf-tools/shellcmd.py:101-104 | Moves the current command to the pipeline; fails, changing nothing, when there is none |
| `ShellSyntax.Pipeline.Parse` | waf-tools/shellcmd.py:121-201 | The loop computes what the token machine does, failed assertions included |
| `ShellGrammar.ScriptParses` | waf-tools/shellcmd.py:136-201 | Every sentence of the grammar is accepted and yields the nodes it means |
| `ShellGrammar.RecognizeScript` | waf-tools/shellcmd.py:136-201 | Every accepted token list is a sentence of the grammar |
| `ShellGrammar.ParserRefinesGrammar` | waf-tools/shellcmd.py:121-201 | The parser yields some nodes iff a sentence with these tokens means them |
| `ShellGrammar.ParsedIsWellFormed` | waf-tools/shellcmd.py:121-201 | Commands or directory changes alternate with operators, no operator comes last, output is a pipe iff a pipe follows, and a directory change is last or followed by `&&` |
| `ShellGrammar.RoundTrip` | waf-tools/shellcmd.py:121-201 | Parsing the canonical tokens of any well-formed pipeline with unambiguous words gives it back |
| `ShellGrammar.AssignmentMatches` | waf-tools/shellcmd.py:24 | A name, an equals sign and a value without spaces are read as that assignment |
| `ShellTokens.MatchEnvIff` | waf-tools/shellcmd.py:24 | A token is an assignment iff it is letters, digits and underscores, an equals sign and a value without white space, perhaps with a newline after it |
| `ShellTokens.RedirectsParse` | waf-tools/shellcmd.py:155-163 | `<`, `>`, `2>` and `2>&1` set their stream and fail when it is set already |
| `ShellTokens.OperatorsParse` | waf-tools/shellcmd.py:164-179 | A pipe takes the output, which must be free; it and the and- and or-operators end the command; any other word is an argument |
| `ShellTokens.BeginningsParse` | waf-tools/shellcmd.py:138-153 | Before a command assignments add up; the first other word names the command, which gets them; without one the parse fails |
| `ShellTokens.ChangesParse` | waf-tools/shellcmd.py:180-187 | `cd` after assignments fails; otherwise it takes at most one directory and is followed by `&&` or nothing |
| `ShellTokens.CommandParses` | waf-tools/shellcmd.py:121-201 | A command with its output redirected, parsed as a whole |
| `ShellRun.FailsIff` | waf-tools/shellcmd.py:225-231 | For given exit statuses the run fails iff it gets to a directory change that comes last or names no directory |
| `ShellRun.SucceedsIff` | waf-tools/shellcmd.py:222-233 | It succeeds for all exit statuses iff the pipeline ends in a command and every directory change names a directory |
| `ShellRun.ExecPipedCommands` | waf-tools/shellcmd.py:203-212 | The status of a pipe group is that of its last command |
| `ShellRun.NullDevice` | waf-tools/shellcmd.py:46-50 | Exactly the two names of the null device lead to it |
| `ShellRun.OpenFor` | waf-tools/shellcmd.py:252-274 | An output redirection gives the target it names, and its file is noted for closing unless it is the null device |
| `ShellRun.StartCommand` | waf-tools/shellcmd.py:242-291 | A stage is started with the input, output, environment and directory due to it, and its files are noted for closing |
| `ShellRun.EndGroup` | waf-tools/shellcmd.py:296-305 | Every process of the group is waited for and every file opened for it is closed |
| `ShellRun.Run` | waf-tools/shellcmd.py:214-346 | For every parsed pipeline, starts exactly the processes of the meaning and returns its status or fails; on success every process is waited for and every file closed, on failure all but those of the current group |
| `ShellRun.RunIsRightNested` | waf-tools/shellcmd.py:222-346 | From any node on, the meaning is that of the chain of pipe groups, right-nested, continuing the current group |
| `ShellRun.RunMeansChain` | waf-tools/shellcmd.py:214-346 | The whole run means (group, operator, rest), a group's status being its last command's |
| `ShellProcesses.ProcessesOfRun` | waf-tools/shellcmd.py:214-346 | The processes of a run: exactly the commands it gets to, in order; each with its words, environment and directory; into a pipe iff a pipe follows, and then the next process reads from it and no other does; error output to the output iff the command has `2>&1`; a stream is the parent's iff it is not redirected, and goes to a file iff one is named; the status is the last one's, and after a failure just the processes of the open group are left |
| `ShellProcesses.RunIsDescribed` | waf-tools/shellcmd.py:222-291 | The same from any node on, in the middle of a group or not |
| `ShellProcesses.StuckIff` | waf-tools/shellcmd.py:225-231 | From any node on, the run fails iff it gets to a directory change that comes last or names no directory |
| `ShellProcesses.JoinDirIs` | waf-tools/shellcmd.py:228 | An absolute directory replaces the current one, a relative one is joined to it with one slash |
| `ShellProcesses.JoinDirTwice` | waf-tools/shellcmd.py:228 | Joining paths is associative, so a directory change by two names is one by the joined name |
| `ShellProcesses.FilesOfAre` | waf-tools/shellcmd.py:242-274 | The files noted for closing are those that the streams name, other than the null device |
| `ShellPosix.ReadIsScanned` | waf-tools/shellcmd.py:312-346 | Evaluating a left-associative list of pipelines comes to going through the nodes from left to right |
| `ShellPosix.PosixIsScanned` | waf-tools/shellcmd.py:312-346 | So the POSIX meaning can be compared with the run node by node |
| `ShellAgreement.SafeAgree` | waf-tools/shellcmd.py:222-346 | Where the conditions hold from a node on, the run and the shell do the same from there |
| `ShellAgreement.UnsafeDiffers` | waf-tools/shellcmd.py:222-346 | Where they do not, some exit statuses tell the two apart |
| `ShellAgreement.AgreementIff` | waf-tools/shellcmd.py:214-346 | The run is what a POSIX shell does, for all exit statuses, iff the pipeline is safe: five conditions on its nodes |
| `ShellAgreement.MixedDiffer` | waf-tools/shellcmd.py:338-341 | Mixed operators: only the shell goes on to the last command when the first one fails |
| `ShellAgreement.ChangeAfterOrDiffers` | waf-tools/shellcmd.py:320-323 | A `cd` after an or-operator: only the shell runs what follows it when the group before succeeds |
| `ShellAgreement.ChangeAfterPipeDiffers` | waf-tools/shellcmd.py:225-231 | A `cd` after a pipe: for the run the next command reads the pipe |
| `ShellAgreement.InputAfterPipeDiffers` | waf-tools/shellcmd.py:242-243 | An input redirection after a pipe is ignored by the run |
| `ShellAgreement.FileAfterChangeDiffers` | waf-tools/shellcmd.py:257-258 | After a `cd` the run opens an output file beside the directory, the shell within it |
| `ShellAgreement.NullNameDiffers` | waf-tools/shellcmd.py:46-50 | The run takes `NUL:` for the null device |
| `ShellAgreement.TrailingChangeFails` | waf-tools/shellcmd.py:225-227 | A trailing `cd` fails when it is reached and does not matter otherwise |
| `ShellAgreement.HomeDiffers` | waf-tools/shellcmd.py:225-231 | A `cd` without a directory makes the run fail; the shell goes to the home directory |
| `ShellAgreement.SafeExample` | waf-tools/shellcmd.py:222-346 | The conditions can be met: a leading `cd`, a pipe and and-operators are safe |
| `Binary.Int2BinExact` | bindings/python/rad_util.py:91-105 | For non-negative values `int2bin` succeeds iff the value fits, with the one string of that length that denotes it |
| `Binary.BinaryRoundTrip` | bindings/python/rad_util.py:108-130 | `bin2int` and `int2bin` invert each other |
| `Binary.FirstDigit` | bindings/python/rad_util.py:130 | A leading 1 adds the power of two of its place, a leading 0 nothing |
| `Binary.Int2BinExamples` | bindings/python/rad_util.py:77-88 | The documented results for 123 in eight digits and 15 in two |
| `Binary.LowBitsDenote` | bindings/python/rad_util.py:130 | The n lowest digits of a number below 2^n denote it |
| `Binary.BinaryIsLowBits` | bindings/python/rad_util.py:130 | A binary string is the digits of the number it denotes |
| `Binary.HexToBinIsLowBits` | bindings/python/rad_util.py:91-96 | Mapping hexadecimal digits by the table gives the binary digits of the number |
| `Binary.Ripple` | bindings/python/rad_util.py:649-659 | One turn adds one to the counter, the carry out of the last digit included |
| `Binary.BinaryRange` | bindings/python/rad_util.py:638-660 | Ends with exactly 2^bits strings, the k-th being the digits of k |
| `Gray.EncodeThenDecode` | bindings/python/rad_util.py:612-615 | Decoding undoes the encoding |
| `Gray.GrayBit` | bindings/python/rad_util.py:612-615 | A bit of the code is set iff this bit and the next higher one of the number differ |
| `Gray.GrayIsBijection` | bindings/python/rad_util.py:612-615 | The code maps the numbers of every width one to one onto themselves |
| `Gray.NeighboursDifferInOneBit` | bindings/python/rad_util.py:612-615 | Successive codes differ in exactly one bit |
| `Gray.WrapDiffersInOneBit` | bindings/python/rad_util.py:612-615 | So do the last code of a width and the first |
| `Permutations.PermutationsOf` | bindings/python/rad_util.py:310-326 | The loops compute the list of all insertions, in order |
| `Permutations.PermsCount` | bindings/python/rad_util.py:293-326 | There are exactly n! lists |
| `Permutations.PermsIff` | bindings/python/rad_util.py:293-326 | A list is produced iff it is an arrangement of the input |
| `Permutations.PermsNoRepeats` | bindings/python/rad_util.py:293-326 | Distinct inputs give no list twice |
| `Permutations.PermsInOrder` | bindings/python/rad_util.py:310-323 | The order of the lists: the first item at every place of the first arrangement of the rest, then of the second, and so on |
| `Euclid.ComputeGcf` | bindings/python/rad_util.py:252-258 | The loop ends for integers of either sign, with Python's remainder |
| `Euclid.GcfIsGreatest` | bindings/python/rad_util.py:252-258 | The result is a non-negative common factor that every common factor divides, 0 iff both are 0 |
| `Euclid.Bezout` | bindings/python/rad_util.py:252-258 | It is a linear combination of the two numbers |
| `Euclid.LcmIsLeast` | bindings/python/rad_util.py:285-290 | A common multiple that divides every common multiple; its size times the factor is the size of the product |
| `Euclid.ReducedFraction` | bindings/python/rad_util.py:345-348 | The same ratio with coprime parts; division by zero iff both parts are 0 |
| `Patches.HeaderMatches` | utils/check-style.py:286-295 | A written chunk header is recognised and gives back the positions and counts written; `PatchFormat.HeaderCounts` says what the counts are |
| `PatchFormat.HeaderCounts` | utils/check-style.py:192-203 | Read back, the first count is the number of removed and unchanged lines, the second of added and unchanged ones, and their sum is the number of lines and of unchanged lines once more |
| `PatchFormat.DecimalDenotes` | utils/check-style.py:286-295 | Numbers are written in base ten without leading zeros |
| `PatchFormat.HeaderTextMatches` | utils/check-style.py:362 | Every text of the form of a chunk header is recognised, whatever follows it, with the numbers that its digits denote |
| `PatchFormat.HeaderTextFound` | utils/check-style.py:362 | Nothing else is recognised as a chunk header |
| `PatchFormat.ReadsSource` | utils/check-style.py:369-374 | A source header starts a patch |
| `PatchFormat.ReadsDestination` | utils/check-style.py:375-378 | A destination header names the destination of the last patch and fails before any |
| `PatchFormat.ReadsChunk` | utils/check-style.py:379-383 | A chunk header starts a chunk of the last patch at its first and third numbers, and fails before any patch |
| `PatchFormat.ReadsLine` | utils/check-style.py:384-401 | A minus, plus or space makes the rest of the line a removed, added or unchanged line of the current chunk, and fails before any chunk |
| `PatchFormat.ReadsNothing` | utils/check-style.py:402 | Every other line fails |
| `PatchFormat.WrittenExample` | utils/check-style.py:286-357 | A whole patch as it is written, character by character |
| `Patches.FeedPatches` | utils/check-style.py:359-403 | Parsing written patches after others adds them, if no text looks like a file header |
| `Patches.FeedAdds` | utils/check-style.py:359-403 | Every line that is no header adds one line to some chunk, headers none |
| `Patches.FileRoundTripIff` | utils/check-style.py:348-403 | Reading back what was written gives the patches iff no removed text starts with `-- ` and no added text with `++ ` |
| `PatchObjects.PatchChunk.WriteTo` | utils/check-style.py:286-295 | Appends the header with the true counts and every line of the chunk to the file |
| `PatchObjects.FilePatch.WriteTo` | utils/check-style.py:348-357 | Appends the text of the whole patch to the file |
| `PatchObjects.TakeLine` | utils/check-style.py:368-402 | One line changes the current patch or chunk object and no other, as the parser does to its values; it fails where the source raises |
| `PatchObjects.ParsePatchset` | utils/check-style.py:359-403 | The objects returned, none shared, hold what the lines say |
| `Subst.FormatIsReplace` | waf-tools/misc.py:90-102 | Doubling, rewriting and formatting is replacing each leftmost reference by its value in one pass; the members of `SubstText` say what that does to the text |
| `Subst.FindAllDoubled` | waf-tools/misc.py:91-98 | The names found after doubling are those of the input |
| `Subst.ReplaceIff` | waf-tools/misc.py:102 | Substitution fails iff a referenced name has no value |
| `Subst.SubstFunc` | waf-tools/misc.py:83-102 | The output is the input with its references replaced, by the given dictionary or else by the environment, where an empty value falls back to that of the name in capitals |
| `SubstText.ReferenceMatches` | waf-tools/misc.py:86 | Letters, digits and underscores, at least one, between two `@` are a reference, whatever follows |
| `SubstText.ReferenceFound` | waf-tools/misc.py:86 | Nothing else is |
| `SubstText.ReplaceReference` | waf-tools/misc.py:93-102 | After text without `@` the reference is replaced by the value of its name, or the substitution fails for want of one, and the rest is treated by itself; the names found begin with this one |
| `SubstText.ReplaceLoneAt` | waf-tools/misc.py:93-102 | An `@` that opens no reference is kept, and what follows is treated by itself |
| `SubstText.ReplacePlain` | waf-tools/misc.py:93-102 | A template without `@` is its own output and names nothing |
| `SubstText.UpperEach` | waf-tools/misc.py:100 | Capitals replace the small letters and nothing else changes |
| `SubstText.ReplaceExample` | waf-tools/misc.py:83-102 | A template with a reference, a percent sign and an `@` that opens nothing |
| `TcpWriter.Writer.constructor` | examples/tcp/tcp-large-transfer.cc:82-86 | The buffer is filled with the repeating pattern |
| `TcpWriter.Writer.Turn` | examples/tcp/tcp-large-transfer.cc:200-213 | The slice sent lies within the buffer and what is accepted of it continues the pattern |
| `TcpWriter.Writer.WriteUntilBufferFull` | examples/tcp/tcp-large-transfer.cc:198-216 | Whatever the socket answers, the bytes accepted over all calls are the pattern, at most the total, and the call ends as the answers determine |
| `TcpWriter.BufferWraps` | examples/tcp/tcp-large-transfer.cc:48-53 | Starting over in the buffer does not show in the stream |
| `TcpWriter.PatternLetters` | examples/tcp/tcp-large-transfer.cc:82-86 | The pattern is the alphabet over and over, from `a` |
| `TcpWriter.LargestWrite` | examples/tcp/tcp-large-transfer.cc:202-207 | The length asked for is the largest within the rest of the buffer, what is left to send and the space reported |
| `TcpWriter.LastTurn` | examples/tcp/tcp-large-transfer.cc:200-215 | What one more turn does to a call: close when there is no space or all is sent, wait when nothing is taken, else go on |
| `TcpWriter.Resumes` | examples/tcp/tcp-large-transfer.cc:207-212 | A call that had to wait and the next one come to what one call would have without the wait |
| `TcpWriter.ClosedIff` | examples/tcp/tcp-large-transfer.cc:198-216 | The socket is closed iff all is sent or some turn finds no space |
| `TcpWriter.ClosedTooSoon` | examples/tcp/tcp-large-transfer.cc:200-215 | A socket without space is closed before a byte is sent |
| `Timeline.FoundIff` | utils/grid.py:105-122 | On successive ranges, which may touch, the binary search finds a range iff one covers the key |
| `Timeline.TimelineDataRange.Search` | utils/grid.py:105-122 | The loop comes upon that range, or -1 |
| `Timeline.TimelineDataRange.GetRanges` | utils/grid.py:136-152 | The slice between the ranges found; on successive ranges it misses nothing, or holds nothing extra, exactly under the two conditions below |
| `Timeline.TimelineDataRange.GetRangesBounds` | utils/grid.py:153-169 | The bounds of that slice |
| `Timeline.NoneMissedIff` | utils/grid.py:136-152 | No range that meets the interval is missed iff an end of it is covered or nothing meets it, and the search found the outermost of ranges that touch at an end |
| `Timeline.NoneExtraIff` | utils/grid.py:136-152 | Nothing else is returned iff no range lies beyond an end that is not covered while the other is |
| `Timeline.ApartIff` | utils/grid.py:136-152 | Where no ranges touch, completeness is exactly that an end is covered or nothing meets the interval |
| `Timeline.RangesMissedAndExtra` | utils/grid.py:145-152 | A range between two gaps and one that touches the range found are missed; one before an uncovered start is returned |
| `Timeline.TimelineEvent.Search` | utils/grid.py:201-218 | The position of the first event not before the key |
| `Timeline.TimelineEvent.GetEvents` | utils/grid.py:226-235 | The events of the interval, and the next one after it unless an event is at its end |
| `Timeline.BetweenIsSlice` | utils/grid.py:226-235 | On increasing events the linear filter is a slice |

## Left out

- The ns-3 C++ modules, topology scripts and visual tools other than the parts above, and the pybindgen and waf glue: configuration of libraries, or table lookups.
- Dictionary order in Python 2 is arbitrary; `Topsort` and `FindCycles` take the keys in some order, and nothing depends on which.
- Generators (`topsort_levels`, `find_cycles`) are modelled by the list of what they yield and how they end; callers that change a yielded list, or stop early, are not.
- `Rotation.IsRotated`: two empty lists are excluded, because the source fails on the head of the second; the cycle finder compares nonempty lists only.
- `TestRunner`: jobs, queues and counters are values in the states of a run, not shared objects, because the claims are about every interleaving; running a command is an arbitrary return code, and exceptions in a worker, missing result files, output and report writing are not modelled. Collecting is one step although the source also writes files then.
- `ConfigPaths`: the lookup of types by name and the types without an identifier (`RecordAggregationInfo`, `GetNoTypeIds`); `Uniquefy` takes its container by value and so changes nothing; `IsChildOf` is an arbitrary relation, and types are positions in the registry.
- `ShellSyntax`: splitting a string into tokens; a failed Python assertion is the result `None`; letters, digits and spaces are the ASCII ones.
- `ShellRun.Run`: verbose output, `get_abbreviated_command`, and failures to open a file or start a process, as after a change to a directory that does not exist; the null device is that of a POSIX system.
- `ShellAgreement.AgreementIff`: directory changes succeed; words are taken as already expanded; paths are compared as they are written, so `.` and symbolic links are not resolved; the order of redirections is not in the nodes, since the parser drops it, and is taken to be the one in which the interpreter sets them up.
- `Binary.Int2BinExact`: a width of 0, for which Python's slices mean something else, is left out; `bin2int` is modelled on nonempty strings of binary digits only.
- `Gray`: negative numbers, which have no width.
- `Euclid`: floating point arguments and the precision parameter.
- `Patches`: lines are strings without a newline; the line objects are values, since nothing changes one after the parser has set it, apart from `remove_trailing_whitespace_changes`, which is left out together with `apply`, which does nothing.
- `Subst`: the dictionary that the environment's values are put into is shared with later tasks in the source; here each call has its own. Formatting directives other than `%%` and `%(key)s` give no result, and word characters are the ASCII ones.
- `TcpWriter`: the socket and its callbacks are arbitrary answers, a finite number at a time, since a socket that accepts nothing for ever keeps the loop going; a call after the close is not prevented, as in the source.
- `Timeline`: sorting, and the getters that return a field. The reader of the data file also accepts ranges that overlap or end before they start; for those only what the search finds is stated.
- Floating-point and random helpers of `rad_util.py`.
