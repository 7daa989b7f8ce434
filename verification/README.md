# Chainquery in Dafny

Chainquery follows an lbrycrd node and writes its blocks, transactions and claims to MySQL. This project models the parts of it
where many steps have to fit together, and proves what they keep:

| files | what they model |
|---|---|
| `BlockChain`, `BlockTable` | `RunBlockProcessing`: the reorg walk, processing of one block, recovery from a panic; on a chain of blocks, and as code on the block table |
| `Daemon`, `DaemonProofs`, `DaemonProgress`, `Watchdog` | the daemon as a step relation: ticker, iterations, any number of block workers, two unbuffered channels, stop signal, timeouts, watchdog |
| `TxGraph`, `BlockTxGraph`, `Scheduler` | the dependency graph of a block's transactions and the scheduler that works it off in parallel, with retries |
| `Mempool`, `MempoolProofs` | the mempool pass and the flag that keeps passes apart |
| `OutputFix`, `OutputFixFaults` | the repair of claims wrongly marked spent: a pager feeding a worker pool |
| `Bytes`, `ClaimScript`, `PushTokens`, `ClaimScriptProofs`, `ClaimPrinter`, `CompactSize` | claim scripts: the offset parsers against a push tokenizer and against the printers; hexadecimal claim ids; compact sizes |
| `Collections` | optional values and lists without repetition, used by the others |
| `StatementCache`, `Relations` | the generated model code: statement caches and their keys, relation lists and back pointers, eager loading |
| `Finder`, `FinderRepeats` | the output selector of the end-to-end tests and the transaction it funds |

Code that changes state in place is a class or a method, proved against a specification function or predicate of the same module;
the properties are then proved about the specification. Concurrent code is a step relation (`Can`/`Do`, or `Enabled`/`Next`), and a
property of it holds for every run, that is for every interleaving, every mix of outcomes and every number of workers. The node, the
database and the clock are parameters: an environment says for each request what it answers and whether it fails.

Where a property that one would expect is false of the code, the code is kept, a lemma shows that the failure happens, and another
says exactly when it does, in terms of the inputs or of what the node and the database answer:

- A reorg that is begun and cannot be brought to its end leaves a gap that the process cannot fill, although the log message of
  `checkHandleReorg` says that it steps back to fill the gap (`InStepIff`, `LossReachable`, `GapIsNeverFilled`, `StoredExactlyIff`,
  `LostForever`). A restart takes the highest stored block as its start and fills it (`RestartSendsFirstMissing`, `RestartFillsGap`).
- A send timeout that does not end the process leaves the running flag set; without the stop signal that is the only way, and nothing
  is sent any more (`GivesUpIff`, `GivesUpIffTimeout`, `GivesUpReachable`, `GivenUpForever`).
- A row of a failed block that cannot be removed stays in the table beside the chain, until the same block is processed in it, another
  panic takes it for its own, or the process starts again (`TableIsChainIff`, `LeftReachable`).
- A name or value that is one small byte is printed as an opcode the parsers do not read back, and so are some claim ids
  (`NameRoundTrip`, `BareSupportRoundTrip`, `RefRoundTrip`); a claim id that is not pushed directly can make a support with a value
  look like one without (`TakenForBareIff`).
- The parsers skip the two bytes in front of the public key script without a look; the comments above the parsers name them in two
  ways (`NameRefinesTokens`, `UpdateRefinesTokens` and `SupportRefinesTokens` state what is not checked; `DropsAreUnchecked` puts any
  two bytes in their place).
- `ReverseBytes` loses the middle byte of an odd-length input (`ReversesIff`).
- A compact size that is cut short is read as if zeros followed (`ReadsTruncated`, `ConsumedIff`).
- The mempool pass does not recurse, although its comment says so: it hands dependencies over first exactly when every list of
  dependencies is complete and in order itself (`TopologicalIff`).
- A transaction that a pass of the mempool has written by half stays so while it is in the pool, and later passes succeed over it
  (`HalfWrittenIff`, `FinishedIsWholeIff`, `HalfWrittenReached`, `HalfWrittenStays`).
- The query for the pages of the output repair names no order, and a claim below the end of a page that left it out is skipped for
  good; some order does that exactly if the claims do not fit on one page (`SequentialIff`, `SkipsIff`, `OutOfOrderPageSkips`).
- With workers that fail, the output repair can wait for good, and it can return with claims left in the buffer, without an error
  (`StuckIff`, `DeadlockIff`, `DropsIff`); how many claims that takes depends on the order of the pages, as a page that ends in its least
  id makes the others come again (`DeadlockWithoutWorkers`, `DropsDependOnOrder`).
- A transaction added twice to a block and removed once leaves the list and the back pointers in disagreement (`AgreesIff`).
- A minimum of zero or less rewinds the output selector, and the next successful call hands outputs out again (`RewindsIff`,
  `HandedTwiceIff`).

## Model

| member | source | states |
|---|---|---|
| ByteStrings.ReverseBytes | util/utility.go:53-59 | the loop fills a new array with the reversal, except that the middle byte of an odd-length input stays zero |
| ByteStrings.ReversesIff | util/utility.go:53-59 | it reverses exactly the inputs of even length and those whose middle byte is zero |
| ByteStrings.ReverseTwiceIff | util/utility.go:53-59 | reversing twice restores exactly the same inputs |
| ByteStrings.HexDecodes | lbrycrd/script.go:194-195 | the text form of bytes has only lower-case hexadecimal digits, and a decoder that reads two of them for each byte, the high one first, gives the bytes back |
| ByteStrings.HexInjective | lbrycrd/script.go:194-195 | the text form of claim ids loses nothing |
| PushTokens.HeaderIff | lbrycrd/script.go:22-36 | a push header is its opcode and its length and carries nothing else, so the length can be read back and only that length fits |
| PushTokens.NextPush | lbrycrd/script.go:22-36 | the tokenizer splits an encoded push off any script |
| PushTokens.NextIsEncoding | lbrycrd/script.go:22-36 | and splits off nothing else as a push: a push token is the encoding of its data |
| ClaimScriptRefinement.PartitionIff | lbrycrd/script.go:138-170 | header and field spans that lie one after the other cover a script with no gap and no overlap exactly when the script is their concatenation |
| ClaimScriptRefinement.TokensIff | lbrycrd/script.go:138-170 | the tokenizer accepts exactly the scripts that readable fields make up |
| ClaimScriptRefinement.NameParseIff | lbrycrd/script.go:138-170 | the claim name parser returns c exactly for the scripts made of one byte, name, value, two bytes and public key script of c; every other input is an error or a panic |
| ClaimScriptRefinement.NameRefinesTokens | lbrycrd/script.go:138-170 | the claim name parser refines the push tokenizer: on what both accept the fields are the tokens; what the parser does not check is named |
| ClaimScriptRefinement.UpdateParseIff | lbrycrd/script.go:224-269 | the same characterisation for claim updates, whose claim id is a direct push |
| ClaimScriptRefinement.UpdateRefinesTokens | lbrycrd/script.go:224-269 | the update parser refines the tokenizer |
| ClaimScriptRefinement.SupportParseIff | lbrycrd/script.go:173-221 | the support parser accepts exactly the layout without a value and the layout with a value that does not look like its absence |
| ClaimScriptRefinement.SupportIsUpdate | lbrycrd/script.go:173-221 | supports with a value are parsed as updates are |
| ClaimScriptRefinement.SupportRefinesTokens | lbrycrd/script.go:173-221 | the support parser refines the tokenizer on both layouts, which are never confused |
| ClaimPrinter.NameRoundTrip | e2e/script.go:34-50 | parsing inverts printing of claim names exactly when the name is pushed directly or with PUSHDATA1 and neither name nor value is one small byte |
| ClaimPrinter.BareSupportRoundTrip | e2e/script.go:9-32 | the same for supports without a value, for every name and claim id: both must be pushed plainly; OP_2DROP follows the claim id |
| ClaimPrinter.RefRoundTrip | e2e/script.go:9-32 | the same for supports with a value and for updates, for every name, claim id and value; one id that is not a direct push still comes back; under a plainly pushed name and a directly pushed id no support with a value is taken for one without |
| ClaimPrinter.TakenForBareIff | lbrycrd/script.go:173-221 | under a plainly pushed name, a printed support with a value is taken for one without exactly if its claim id is longer than 75 bytes with OP_2DROP as its 76th (75th from 65536 bytes on), or one small byte whose opcode leads to an OP_2DROP further on; never for a directly pushed id |
| ClaimPrinter.DropsAreUnchecked | lbrycrd/script.go:138-170 | with any two bytes in place of the drops a printed claim name parses to the same claim, while the tokenizer splits it so only for the drops |
| ClaimPrinter.ClaimIdText | lbrycrd/script.go:190-195 | the claim id text of any parsed script decodes to its pushed bytes in reverse |
| ClaimPrinter.PrintedClaimId | lbrycrd/script.go:190-195 | the claim id text of a printed script decodes to the id that was printed exactly if its length is even or its middle byte is zero |
| ClaimPrinter.AddDataReads | e2e/script.go:9-50 | what the builder writes for any data is one push that the tokenizer reads as that data, but for the byte zero, which reads as nothing |
| ClaimPrinter.RejectsIff | lbrycrd/script.go:138-300 | which scripts are rejected with an error; all others that are not accepted make the parsers panic |
| ClaimPrinter.OnlyClaimScripts | lbrycrd/script.go:275-300 | every non-empty script with another leading byte is rejected; the empty script panics |
| CompactSize.Buffer.Read | lbrycrd/script.go:525-532 | a read consumes what it returns; a short buffer is padded with zeros instead of being an error |
| CompactSize.Buffer.ReadUint32 | lbrycrd/script.go:517-523 | the little-endian value of the next four bytes |
| CompactSize.Buffer.ReadCompactSize | lbrycrd/script.go:475-515 | the value, the bytes and the new rest of the buffer, in each of the four branches |
| CompactSize.ReadsEncoded | lbrycrd/script.go:475-515 | a compact size is read back, its bytes returned and the rest left, exactly for values below 2^32; a larger one is read as zero with only its first byte consumed |
| CompactSize.ReadsTruncated | lbrycrd/script.go:475-515 | what a truncated compact size reads as |
| CompactSize.ConsumedIff | lbrycrd/script.go:475-515 | a size is read whose bytes are those consumed exactly if the input holds as many bytes as its first byte announces, and that is not 255 |
| BlockChain.KeepsChain | daemon/processing/block.go:48-99 | processing a height returns at most that height and keeps one linked chain that reaches at most the height returned |
| BlockChain.WalkIff | daemon/processing/block.go:614-674 | the reorg walk ends at a height exactly if that is the last stored block the node has too, within the limit, and nothing fails on the way; it keeps exactly the blocks up to there |
| BlockChain.WalkFindsIff | daemon/processing/block.go:614-674 | the walk succeeds exactly if the answers lead down to a common block within the limit |
| BlockChain.WalkBreaksIff | daemon/processing/block.go:614-674 | a walk that fails leaves the blocks up to a height exactly if all above are deleted and then the next cannot be looked at, or that block is not the node's and is genesis, cannot be deleted, or lies at the limit |
| BlockChain.FollowsNode | daemon/processing/block.go:614-674 | against a node that answers from its chain, one height appends its block or leaves the part both chains share |
| BlockChain.ReorgKeepsCommonPrefix | daemon/processing/block.go:614-674 | against one node chain a successful reorg keeps exactly the common prefix of both chains |
| BlockChain.LosesIff | daemon/processing/block.go:614-674 | the reorg check fails after a deletion exactly if the node names another predecessor, the highest stored block can be read and deleted, and the answers do not lead on to a common block within the limit |
| BlockChain.InStepIff | daemon/processing/block.go:48-99 | the next height sent is the first missing one exactly unless these answers are met |
| BlockChain.GapIsNeverFilled | daemon/processing/block.go:614-640 | with blocks missing below the height sent, processing changes nothing and the same height is due again |
| BlockChain.LosesBlocksExample | daemon/processing/block.go:614-674 | a fork of one block during which the node stops answering loses that block |
| BlockTable.AttemptedIff | daemon/processing/block.go:614-674 | the blocks the reorg check lets through are those that name the highest stored block, where that can be read |
| BlockTable.TableIsChainIff | daemon/processing/block.go:48-99 | the table holds complete blocks of one chain exactly unless the block fits on the chain, fails or panics after its row was written, and that row cannot be removed; and from a table with such a row, exactly if the row goes now: its block is committed, or fails or panics and is removed, or a panic before another block has a row makes the cleanup remove it |
| BlockTable.EndsAs | daemon/processing/block.go:48-99 | a block is stored and its height returned exactly if the reorg check lets it through and its processing comes to its end; otherwise a lower height is returned and no block added |
| BlockTable.StaysAside | daemon/processing/block.go:48-99 | such a row lies at or above every height sent later, so the reorg check never reads it |
| BlockTable.Table.DeleteBlockWithRetry | daemon/processing/block.go:344-354 | the row is gone exactly if one of three attempts works |
| BlockTable.Table.DeleteTop | daemon/processing/block.go:634-638 | deleting the highest block during a reorg leaves the rows of the shorter chain, and a row left beside it |
| BlockTable.Table.CheckReorg | daemon/processing/block.go:614-674 | the code on rows does what the walk does on chains |
| BlockTable.Table.WalkDown | daemon/processing/block.go:627-674 | its loop, likewise |
| BlockTable.Table.StepDown | daemon/processing/block.go:627-656 | one turn of the loop: the deletion, and which failures end the loop before or after it |
| BlockTable.Table.MarkIncomplete | daemon/processing/block.go:240-256 | a row of the height changes its state; without one, or on an error, nothing changes |
| BlockTable.Table.CleanupIncompleteHead | daemon/processing/block.go:210-238 | the head row is deleted, if an attempt works, exactly if it lacks transactions or is marked unfinished; a row without a state is marked complete; an error changes nothing |
| BlockTable.Table.CleanupHeadRow | daemon/daemon.go:85-90 | before the daemon starts the row left beside the chain goes, if the cleanup works, and a chain alone is left as it is |
| BlockTable.Table.ProcessBlock | daemon/processing/block.go:103-192 | the row written for a block, by how its processing ends; a row of the same hash is used again |
| BlockTable.Table.RunBlockProcessing | daemon/processing/block.go:48-99 | the rows left and the height returned are those of the chain model, from a chain alone or with one row left beside it; a panic leaves the row it left |
| BlockTable.Table.ProcessBlockWithRecover | daemon/daemon.go:290-309 | with the recovery the panics are gone and the table is that of the chain model; with a row left beside the chain too, unless a second one joins it |
| BlockTable.Table.Recover | daemon/daemon.go:290-309 | the cleanup after a panic removes the one row above the chain, of whatever block it is, or leaves it with the state that the failure of marking, cleaning or deleting implies |
| DaemonProofs.InvHolds | daemon/daemon.go:145-228 | handshake and storage invariant in every reachable state |
| DaemonProofs.Safety | daemon/daemon.go:163-228 | in every run: at most one worker holds a height; it is the one sent last and next after the last processed, and the iteration waits for its answer unless it has left on the stop signal; what is stored is a linked chain |
| DaemonProofs.SendsNextHeight | daemon/daemon.go:188-207 | each height sent is the one after the last processed height (or 0 at the start), and is sent only while every worker is free |
| DaemonProofs.BusyIsSendable | daemon/daemon.go:271-288 | what block processing requires of the stored chain, and of a row left beside it, holds whenever a worker calls it |
| DaemonProofs.WorksOnTable | daemon/daemon.go:271-309 | a worker's step in a run is the code's on the table: its preconditions hold, and the next state has the rows it leaves |
| DaemonProofs.HandshakeProgress | daemon/daemon.go:333-382 | before the stop signal a send finds a free worker and a wait finds the worker that will answer it |
| DaemonProofs.StoppedStep | daemon/daemon.go:196-201 | after the stop signal every step of the daemon's own brings it nearer its end, whatever is answered |
| DaemonProofs.StoppedComponentSteps | daemon/daemon.go:196-201 | after the stop signal each component that still lives has such a step, for every answer of node and database |
| DaemonProofs.ShutdownIsBounded | daemon/daemon.go:271-288 | in every run after the stop signal the daemon takes a bounded number of its own steps for each iteration still started |
| DaemonProofs.ShutdownCompletes | daemon/daemon.go:271-288 | from every such state, and for all answers, the daemon can run to its end within that bound |
| DaemonProofs.SendsAreAccountedFor | daemon/daemon.go:196-228 | the heights sent by a catch-up loop number the progress made plus the depths rolled back; it sends none once rolled back to genesis; after the stop signal one iteration sends at most one more |
| DaemonProgress.SendsAreProgress | daemon/daemon.go:196-228 | the same, counted on the steps of the run |
| DaemonProgress.AtMostTwoAfterStop | daemon/daemon.go:196-228 | in every run at most two heights are sent after the stop signal |
| DaemonProgress.ReturnsCaughtUp | daemon/daemon.go:180-228 | whenever an iteration has returned with the flag down, the node gave no height, or everything up to the height it gave is processed, or only genesis |
| DaemonProgress.IterationIsBounded | daemon/daemon.go:180-228 | an iteration that is told a height takes at most five own steps for each height it is behind and for each rolled back, and five more |
| DaemonProgress.CatchesUp | daemon/daemon.go:180-228 | from every state between iterations, with a node that answers and whose chain continues the stored one, or is longer and parts from it within the reorg limit, a run leads to exactly the node's blocks, with its height processed and the flag down |
| DaemonProofs.StoredExactlyIff | daemon/daemon.go:180-228 | between blocks the complete blocks in the table are exactly the heights up to the last processed one if and only if no block of the run met answers on which a reorg loses blocks; rows of failed blocks that cannot be removed do not change that |
| DaemonProofs.LeftReachable | daemon/processing/block.go:75-90 | from every table of two blocks or more a run leaves the row of a failed block behind |
| DaemonProofs.LossReachable | daemon/daemon.go:180-228 | from every table of two blocks or more such a loss can happen |
| DaemonProofs.LostForever | daemon/daemon.go:180-228 | after it, nothing the process does stores or processes another height |
| DaemonProofs.RestartSendsFirstMissing | daemon/daemon.go:145-152 | from the table any run leaves, a restarted daemon first sends the first missing height (0 with at most the genesis block stored) |
| DaemonProofs.RestartFillsGap | daemon/daemon.go:145-152 | and, with a node whose next block extends the highest stored one, stores that block |
| DaemonProofs.GivesUpIff | daemon/daemon.go:333-356 | without the stop signal the daemon is left with the flag set and no iteration exactly if a send has timed out |
| DaemonProofs.GivesUpIffTimeout | daemon/daemon.go:333-356 | from every start some run gives up without the stop signal exactly if a timeout is set |
| DaemonProofs.GivesUpReachable | daemon/daemon.go:333-356 | with a timeout set that happens from every start, and nothing is sent any more although every worker is free |
| DaemonProofs.GivenUpForever | daemon/daemon.go:180-195 | an iteration that left the running flag set was the last |
| DaemonProofs.WatchdogAgrees | daemon/daemon.go:409-510 | the watchdog's last success is the last processed height between blocks; a tick dumps exactly if a block is outstanding for at least the timeout and the last dump is far enough back; a dump names that block, since when, and the target; a fired timer is never suppressed, and the waits have the timeouts that are set |
| Watchdog.BlockWatchdog.RecordDaemonTarget | daemon/daemon.go:439-447 | target and progress are recorded, and the first call sets the last success |
| Watchdog.BlockWatchdog.RecordBlockStart | daemon/daemon.go:449-454 | the block in flight and its start |
| Watchdog.BlockWatchdog.RecordBlockSuccess | daemon/daemon.go:456-461 | height and time of the last success |
| Watchdog.BlockWatchdog.RecordBlockFinished | daemon/daemon.go:463-472 | a finished block is no longer in flight, and is a success |
| Watchdog.BlockWatchdog.ClearInFlightBlock | daemon/daemon.go:474-481 | only the block named is cleared |
| Watchdog.BlockWatchdog.BlockTimeoutSnapshot | daemon/daemon.go:487-510 | a dump is taken exactly when the block is late and, unless forced, the last dump is far enough back |
| TxGraph.OrderedStep | daemon/processing/block_scheduler.go:208-233 | edges from the last writer and the readers since then order one more access after every access it conflicts with |
| TxGraph.EventsListed | daemon/processing/block_scheduler.go:208-213 | the accesses the graph is built from are the events of the block's transactions, in the order of the block |
| TxGraph.ListsEvents | daemon/processing/block_scheduler.go:208-213 | and no others |
| TxGraph.SummaryStep | daemon/processing/block_scheduler.go:208-233 | the two maps kept while walking the block always name the last writer of a claim and the readers since |
| BlockTxGraphs.BlockTxGraph.AddDependency | daemon/processing/block_scheduler.go:235-247 | one edge is added once, to the edges, the children and the counts alike; none for a missing id or a self-dependency |
| BlockTxGraphs.BlockTxGraph.AddUTXODependencies | daemon/processing/block_scheduler.go:197-206 | exactly the edges from spent transactions of the block to their spenders |
| BlockTxGraphs.BlockTxGraph.AddClaimDependencies | daemon/processing/block_scheduler.go:208-233 | for any two events of the block on one claim of which one writes it, the edges lead from the earlier transaction to the later; and every claim edge joins two such events |
| BlockTxGraphs.BlockTxGraph.BuildDependencies | daemon/processing/block_scheduler.go:181-195 | both kinds of edges and no others; the ready list is that of the transactions without a parent, and none ready is reported as a stall |
| BlockTxGraphs.BlockTxGraph.ReleaseChildren | daemon/processing/block_scheduler.go:472-480 | one decrement for each edge, and a child is ready when its count reaches zero |
| Scheduler.ReleaseCounts | daemon/processing/block_scheduler.go:472-480 | for any list of edges: each child loses as many parents as it has edges in the list, and is made ready once, when none is left |
| Scheduler.InvHolds | daemon/processing/block_scheduler.go:328-414 | in every run the counts are those of the open edges, blocked means having one, and the ready list is exact |
| Scheduler.PredecessorsCompleted | daemon/processing/block_scheduler.go:328-414 | a transaction leaves the blocked state only when everything it depends on, directly or not, has completed |
| Scheduler.DependenciesSucceeded | daemon/processing/block_scheduler.go:328-414 | in every run, what a transaction depends on has succeeded before it is no longer blocked |
| Scheduler.BuiltStarts | daemon/processing/block_scheduler.go:160-195 | a graph as buildDependencies leaves it is one the scheduler may start from |
| Scheduler.ConflictsInBlockOrder | daemon/processing/block_scheduler.go:445-470 | the parallel run of a block is serializable: in every run, for any two events on one claim of which one writes it, the transaction earlier in the block has succeeded before the later one is handed out |
| Scheduler.InputsSucceeded | daemon/processing/block_scheduler.go:445-470 | the same for spent outputs of the block |
| Scheduler.StartsAreBounded | daemon/processing/block_scheduler.go:482-501 | no transaction is handed out more than the failure limit plus one times, nor again after it has succeeded |
| Scheduler.ActiveIsBounded | daemon/processing/block_scheduler.go:332-345 | at most as many transactions are with a worker as there are workers |
| Scheduler.GivenUpIff | daemon/processing/block_scheduler.go:350-414 | a run is given up exactly if a transaction fails for good, one fails retryably more often than the limit, the graph stalls, or the run is cancelled |
| Scheduler.RetriedAfterFailure | daemon/processing/block_scheduler.go:482-501 | any other failed transaction waits for its retry, after which it is ready again |
| Scheduler.FindCycle | daemon/processing/block_scheduler.go:366-369 | blocked transactions that wait only for each other contain a cycle |
| Scheduler.StallsIffCyclic | daemon/processing/block_scheduler.go:366-369 | with nothing running, ready or retrying, the run is given up as stalled exactly when the edges have a cycle |
| Scheduler.BlockGraphIsAcyclic | daemon/processing/block_scheduler.go:181-233 | the graph of a block that spends outputs only after they are made has no cycle |
| Scheduler.NeverStalls | daemon/processing/block_scheduler.go:366-369 | the run of a graph without a cycle never stalls |
| Scheduler.NeverStuck | daemon/processing/block_scheduler.go:350-392 | until all have completed or the run is given up, there is something to hand out or something will report |
| Scheduler.RunsEnd | daemon/processing/block_scheduler.go:328-414 | every run ends within a bound in the number of transactions and the failure limit |
| Scheduler.BlockCompletes | daemon/processing/block_scheduler.go:328-414 | a block in spending order never stalls, and a run that cannot go on has completed every transaction exactly if none failed for good, none failed retryably more often than the limit, and it was not cancelled |
| Mempool.Table.ProcessMempoolTx | daemon/jobs/mempoolsync.go:201-217 | a known transaction is left alone; a missing one is handed to ProcessTx once, with each of its outcomes |
| Mempool.Table.ProcessEntry | daemon/jobs/mempoolsync.go:161-179 | the dependencies, then the entry, up to the first failure; what went through is no longer stale |
| Mempool.Table.ScanPool | daemon/jobs/mempoolsync.go:161-180 | the loop over the pool in whatever order the map yields it |
| Mempool.Table.DeleteStale | daemon/jobs/mempoolsync.go:181-196 | the loop over the stale rows in whatever order |
| Mempool.Table.ProcessTxSet | daemon/jobs/mempoolsync.go:152-199 | a pass is the specification's pass for the orders in which the two maps yielded their keys; without a chain head it fails and changes nothing |
| MempoolProofs.ScanIff | daemon/jobs/mempoolsync.go:161-180 | a scan finishes exactly if no entry is too high and every transaction is healthy; its table and its hand-offs in both cases |
| MempoolProofs.SweepIff | daemon/jobs/mempoolsync.go:181-196 | a sweep finishes exactly if each look-up and deletion works, and then exactly the stale mempool rows are gone |
| MempoolProofs.PassIff | daemon/jobs/mempoolsync.go:152-199 | for every order: when a pass finishes, what the table then is, that no transaction is handed to ProcessTx twice, and that it reports the daemon as behind only if an entry is too high |
| MempoolProofs.SettledRows | daemon/jobs/mempoolsync.go:152-199 | what that table is, row by row |
| MempoolProofs.PassHandsUpToFirstBad | daemon/jobs/mempoolsync.go:161-180 | for every order, a pass hands over exactly the transactions without a row before the first that cannot go through, and that one if it has no row, can be looked up and was fetched |
| MempoolProofs.OrderIsIrrelevant | daemon/jobs/mempoolsync.go:152-199 | two orders of the same pass agree on success and on the table |
| MempoolProofs.OtherRowsKept | daemon/jobs/mempoolsync.go:152-199 | whatever happens, rows of real blocks never change, and rows go only if stale, of the mempool block, not in the pool and after a complete scan |
| MempoolProofs.HalfWrittenIff | daemon/jobs/mempoolsync.go:152-217 | after any pass a transaction of the pool has a row exactly if it had one before or ProcessTx saved it; it is written by half exactly if it was before, and is then not tried again, or ProcessTx failed after saving the row |
| MempoolProofs.FinishedIsWholeIff | daemon/jobs/mempoolsync.go:152-217 | a pass that finishes leaves all transactions of the pool written as a whole exactly if none it found a row for was written by half |
| MempoolProofs.HalfWrittenReached | daemon/jobs/mempoolsync.go:201-217 | a pass in which ProcessTx fails late leaves a row that is not whole |
| MempoolProofs.HalfWrittenStays | daemon/jobs/mempoolsync.go:201-217 | a transaction whose ProcessTx failed after its row was saved is not tried again while it is in the pool |
| MempoolProofs.NoneIsMissing | daemon/jobs/mempoolsync.go:128-150 | with the transactions fetched for the pool, the error of a missing one cannot occur |
| MempoolProofs.FetchMempoolRawTransactions | daemon/jobs/mempoolsync.go:128-150 | exactly the pool and its dependencies are fetched, or an error if the node fails on one |
| MempoolProofs.TopologicalIff | daemon/jobs/mempoolsync.go:161-180 | dependencies are handed over first, for every order of the map, exactly when every list names before a transaction all that one depends on |
| MempoolProofs.FlagFollows | daemon/jobs/mempoolsync.go:28-94 | after every history, whether a pass runs, a reset is pending, or neither, from the last return or reset and the calls after it |
| MempoolProofs.OnePassAtATime | daemon/jobs/mempoolsync.go:28-94 | in every history the flag is set exactly while one pass runs or one delayed reset is pending |
| OutputFix.InvHolds | daemon/jobs/outputfixsync.go:27-93 | conservation, coverage and the state of the table in every reachable state |
| OutputFix.Outcome | daemon/jobs/outputfixsync.go:86-92 | on return exactly the finished claims whose output is not spent have become active, nothing else has changed, and every claim marked spent is finished, skipped, lost with a failed worker or left in the buffer, the last only if all workers failed |
| OutputFix.SequentialRows | daemon/jobs/outputfixsync.go:32-59 | a sequential pass makes a claim active exactly if it was active, or was marked spent with no matching spent output; no other state and no output changes |
| OutputFix.SequentialIff | daemon/jobs/outputfixsync.go:32-87 | if no worker fails, the table is that of a sequential pass exactly when every claim marked spent that the database left out of all pages is really spent |
| OutputFix.ExactlyOnce | daemon/jobs/outputfixsync.go:32-87 | with pages in id order every claim marked spent is examined exactly once, sent in increasing id order, and the table is that of a sequential pass, for every interleaving: a claim is active exactly if it was, or was marked spent and its output is not spent |
| OutputFix.NeverExamined | daemon/jobs/outputfixsync.go:61-85 | in every run, a claim that the pages have passed is never sent to a worker and its row never changes |
| OutputFix.OutOfOrderPageSkips | daemon/jobs/outputfixsync.go:61-85 | whatever follows a page that ends above a claim it left out, that claim stays marked spent |
| OutputFix.ErrorSendNeverBlocks | daemon/jobs/outputfixsync.go:30-54 | a worker can always report its error |
| OutputFix.StuckIff | daemon/jobs/outputfixsync.go:71-91 | before the return some step is possible without a further fault, except exactly when all workers have failed, the buffer is full and the pager has more to send |
| OutputFixFaults.SentIsBounded | daemon/jobs/outputfixsync.go:61-85 | the most claims that a run can send: each once with pages in id order, and otherwise a page full of them again for each claim that can end a page |
| OutputFixFaults.DeadlockIff | daemon/jobs/outputfixsync.go:71-91 | for pages in any order, and for pages in id order: some run deadlocks exactly if more claims can be sent than buffer and workers can hold |
| OutputFixFaults.DeadlockWithoutWorkers | daemon/jobs/outputfixsync.go:71-91 | on one processor 14 claims are enough, and needed |
| OutputFixFaults.DropsIff | daemon/jobs/outputfixsync.go:86-92 | for pages in any order, and for pages in id order: some run returns with claims left in the buffer exactly if a claim can be sent to each worker and one more, and, without workers, if all claims fit into the buffer |
| OutputFixFaults.DropsDependOnOrder | daemon/jobs/outputfixsync.go:86-92 | on three processors two claims are enough for that, but not with pages in id order |
| OutputFixFaults.SkipsIff | daemon/jobs/outputfixsync.go:61-85 | some order of the pages skips a claim exactly if more claims are marked spent than fit on a page |
| OutputFixFaults.SmallTablesAreSequential | daemon/jobs/outputfixsync.go:61-85 | for fewer claims the result is that of a sequential pass whatever the order within the page |
| OutputFix.OneWorkerSuffices | daemon/jobs/outputfixsync.go:32-59 | one worker that has not failed rules that out |
| OutputFix.RunsEnd | daemon/jobs/outputfixsync.go:61-91 | every run ends within a bound in the size of the table, for any order of steps and of pages |
| StatementCache.MakeCacheKey | model/boil_types.go:34-52 | the buffer loops write the concatenation that is the key |
| StatementCache.MakeUpsertKey | model/block.go:1144-1164 | the same for the key that Upsert builds in place |
| StatementCache.KeyInjective | model/boil_types.go:34-52 | two calls share a key only if kind, columns and non-zero defaults agree, for column names that are not empty, start with no digit and contain no dot, and whose concatenations can be read back |
| StatementCache.UpsertKeyInjective | model/block.go:1144-1164 | the same for upserts, with their four parts |
| StatementCache.UnderscoredDecodes | model/boil_types.go:34-52 | concatenations can be read back if no name starts with an underscore and a name that extends another continues with one |
| StatementCache.Table.DoInsert | model/block.go:837-933 | the statement executed and the cache afterwards; an error caches nothing |
| StatementCache.Table.DoUpdate | model/block.go:962-1006 | likewise |
| StatementCache.Table.DoUpsert | model/block.go:1132-1268 | likewise, with the error for a row without a unique value |
| StatementCache.TransparentIff | model/block.go:837-1268 | for column names that are not empty, start with no digit and contain no dot: over any sequence of calls, and any way of building statements, the cached statement is the one built afresh exactly when concatenated names can be read back |
| StatementCache.StaleStatement | model/block.go:962-1006 | two column lists that run together get each other's statement |
| StatementCache.BlockCachesAreTransparent | model/block.go:213-240 | the columns of the block table meet the condition |
| Relations.WithoutAllIsDifference | model/block.go:734-747 | swap-with-last removal leaves exactly the multiset difference of list and arguments |
| Relations.AgreesIff | model/block.go:566-750 | Add and Set keep list and back pointers in agreement, and Remove does so exactly if it removes every occurrence |
| Relations.AgreesThroughout | model/block.go:566-750 | over any sequence of calls that list no transaction twice they agree after each call |
| Relations.AddedTwiceRemovedOnce | model/block.go:715-750 | added twice and removed once, a transaction breaks the agreement |
| Relations.Block.AddBlockHashTransactions | model/block.go:566-612 | list and back pointers after the call, and that a database error leaves both alone |
| Relations.Block.SetBlockHashTransactions | model/block.go:657-682 | the same for Set, which after an error half-way leaves the block without transactions |
| Relations.Block.RemoveBlockHashTransactions | model/block.go:715-750 | the same for Remove, which after an error half-way has cleared back pointers of transactions still listed |
| Relations.Block.RemoveOne | model/block.go:734-747 | the loop removes the first occurrence by the last element |
| Relations.Attach | model/block.go:515-526 | a row goes to the first block with its hash, and points to it |
| Relations.LoadBlockHashTransactions | model/block.go:427-529 | the nested loop is a join: each block gains exactly the rows with its hash, in order, and each matched row points to it |
| Relations.LoadOne | model/block.go:504-513 | for one block the list becomes the rows, all pointing to it |
| Finder.OutputFinder.NextBatch | e2e/finder.go:17-37 | the first position at which enough is gathered after the cursor; a failure leaves the cursor |
| Finder.FailsIff | e2e/finder.go:17-37 | for a positive minimum and a non-empty list a call fails exactly when what is left is too small |
| Finder.BatchIsMinimal | e2e/finder.go:17-37 | a batch reaches the minimum and does not without its last output |
| Finder.BatchesPartition | e2e/finder.go:17-37 | over any sequence of calls none of which rewinds, the batches, put together, are the spendable outputs passed, in order: none twice, none left out |
| Finder.RewindsIff | e2e/finder.go:17-37 | the cursor moves back exactly for a minimum of zero or less, once it has passed the first output |
| FinderRepeats.HandedTwiceIff | e2e/finder.go:17-37 | over any sequence of calls on a new selector, a position is handed out twice exactly if, of the amounts asked for, one rewinds and a later one is positive and at most what is spendable after the first output |
| FinderRepeats.PositionsOfBatch | e2e/finder.go:17-37 | these positions are those of the outputs in each batch |
| Finder.HandedOutTwice | e2e/finder.go:17-37 | a call with minimum zero makes the selector hand an output out twice |
| Finder.GetEmptyTx | e2e/transaction.go:28-52 | the inputs are the batch, they sum to spend, fee and change, and the change is not negative; it succeeds exactly when the spendable outputs suffice |

## Left out

- Genesis: a failure of the genesis block ends the process and is not a step of the daemon; its row is written in one step.
- The daemon machine takes hashes along a chain as distinct (`FairEnv`), and carries at most one row of a failed block that could not be removed (`OneRowAtMost`): runs are left out in which another block is committed at the height of that row or leaves a row of its own beside it, or genesis panics meanwhile.
- The pseudo-block of the mempool, at height 0 of the block table, the column for the next block's hash, and rows from before the processing state was recorded.
- BlockTable.Table.MarkIncomplete: does not say which of several rows at one height is the newest; rows carry no id in the model, and the reachable tables have one row at a height.
- BlockTable.Table.ProcessBlock: how the block's transactions end is an input of the call; the scheduler that decides it is `Scheduler`.
- BlockTable.Table.ProcessBlockWithRecover: after a panic that leaves a second row beside the chain it says only the height returned, as the code does not say which of two heads it cleans.
- BlockTable.Table.Recover: complete rows are taken to have all their transactions.
- A start with the option to index again from height 0.
- Exit of the process on a timeout: a send timeout ends the iteration with the flag set, a wait timeout goes on waiting.
- Sleeps and backoffs: time is an integer that advances by steps of its own.
- Scheduler: which error a transaction fails with, beyond retryable or not; the goroutines of single workers, which hand results over one at a time; the order `sortChildren` gives equal edges; the cleanup of an aborted block in the database.
- The claim events of a script (`claimGraphEvents`) are inputs of the graph.
- Claim scripts: slices are taken to have no capacity beyond their length; addresses, value decoding and signatures; the builder's limits of 520 bytes for a push and 10000 for a script.
- Statement text and column inference: how a statement is built is a parameter of the cache.
- Relations: the row of a transaction in the database, embedded structs, sharing of the arrays behind two slices.
- The other generated model files, which repeat the template of the block model.
- Finder: amounts are exact; rounding of floating point is not modelled. The node's list of outputs is a parameter.
- OutputFix: other writers of the claim table, and the time of modification. A query that fails for the pager ends the run with workers waiting.
- Mempool: reading the pool, the chain head and the stale rows from node and database are inputs; a row's other columns.
- RPC client, SQL, HTTP handlers, notifications, metrics, configuration, upgrade manager and the other jobs.
