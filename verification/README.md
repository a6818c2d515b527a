# A verified model of the SNMP trap daemon's core

The daemon receives SNMP traps as one-line requests, parses them, looks up which plugins are to
be run for them, runs the plugins on a stack machine that plugins themselves can extend, and
writes the results to an output channel. Requests are handled by a thread pool; configuration
comes from an ini file. This project models that core in Dafny and proves what holds of it for
every input and every run.

Code that changes things in place is modelled by classes and methods (ring buffer, dictionary,
scanner buffers, intrusive lists, linked stack), each proved equal to a function on values; the
properties are then proved of those functions. The thread pool's concurrency is a state machine
whose steps are the source's atomic actions.

| files | component |
|---|---|
| `Collections`, `CStrings`, `Tokens` | optional values, C strings that may be NULL, strtok_r |
| `RingQueue`, `ThreadPool`, `PoolLocks`, `PoolSlots`, `PoolWakeups`, `PoolTickets`, `PoolLosses`, `PoolSafety`, `PoolProgress`, `PoolCallbacks`, `PoolExample` | `src/threadpool.c`: ring buffers, the step machine, its invariant part by part, safety, progress and the stop protocol |
| `Expander`, `ExpanderLaws`, `ExpanderStorage`, `Hooks`, `HookTexts` | `src/command.c`: the macro scanner, its laws, how full its blocks get, the three hooks and the passes in sequence |
| `Quoting`, `TrapParser`, `TrapGrammar`, `TrapValues`, `TrapPrinter`, `TrapText` | `src/trap.c`, `src/util.c`, `traphandlers/nagiostraphandler`: quoting, the token automaton, the frame grammar and the sender, the string builders |
| `HostIndex`, `Execlist`, `Listing`, `Results`, `Stack`, `StackMachine`, `Plugins`, `PluginRuns`, `Exec` | `src/db.c`, `src/execlist.c`, `src/exec.c`, `src/stack.c`: indexes, execution lists, plugin results and the output gate, the stack machine |
| `Dictionary`, `IniParser`, `IniRoundTrip`, `IniErrors`, `IniLines`, `IniValues` | `src/dictionary.c`, `src/iniparser.c` |

Parameters take the place of what is outside: the rows of the database, the lines a plugin prints
(any function of how many plugins were run before and of the command line), the contents of the ini
file, the hash function, the clock's seconds, what `%s` prints for NULL, the pool's capacity and its numbers of threads.
Pthread calls are assumed to succeed; a condition wait may return spuriously.

Results worth knowing before reading the code:

- Two macro passes equal one merged pass exactly when the first pass's values hold no dollar
  (`FusionExactly`), and expansion distributes over a cut exactly when the part before it has an
  even number of dollars (`ExpandIsCompositional`).
- `execlist_build` starts at the newest record with the command id but then follows the address or
  name chain, so it does not list "all hosts with this command id". `SelectedExactly` says what it
  lists, `SelectedIsWhatWasAsked` exactly when the two agree, and `OlderAddressFindsNothing` and
  `OtherCommandIsFound` are inputs where they do not.
- `dictionary_set` with an empty key counts an entry that nothing will ever find, because
  `xstrdup` turns "" into NULL; the map is not affected (`Dict.Set`, `Dict.CountsEntries`).
- A task with a NULL routine is taken from the queue but its slot is never returned
  (`src/threadpool.c:274`). `SlotsLostExactly` counts the loss, `NoSlotLost` says exactly when there
  is none, and `NullRoutineLosesTheSlot` is a run that loses the only slot.
- A worker may take one task after the stop flag is up: the flag is written without the lock and may
  rise between the last test of it and the dequeue. `OneMoreCallbackExactly` says which workers can
  still begin a callback, and `CallbackAfterTheFlag` is a run in which one does.
- The macro scanner puts a terminator one byte behind a block it has filled exactly:
  `src/command.c:39-40` allocates `buflen` and `macrobuflen` bytes, and lines 115 and 71 may write at
  these indices. The arrays of `Scanner` have one cell more than the source's blocks so that the model
  can go on; `BufferExactly` and `MacroBufferExactly` say for which commands the extra cells are used,
  `PlainTextExactly` and `SingleMacroExactly` say it in lengths, and `FullBuffer` and
  `FullMacroBuffer` are such inputs. No write goes further than that cell.
- `do_output` passes NULL to `strcmp` exactly when `Crashes` holds (`DoOutput`); `LineComparesNull` is a
  plugin line that leads to it. `ExecTrap` stops there, and `HandledIsSafe` gives a condition on rows and
  plugins under which it never happens.
- `iniparser_load` forgives every syntax error that a section or a value follows (`LoadFailsExactly`,
  `GoodLineHidesError`).
- In a dictionary without sections, ":key" is printed as it is and read back as "::key" (`ColonIsAdded`).
- `dictionary_set` doubles the table by its count and not by its free slots: with counted empty keys it
  doubles beside an empty slot (`Grow`, `FullBesideAHole`).
- `$ARG4294967297$` stands for the first argument, because `atoi` returns an int (`LargeNumberWraps`).
- A trap whose address line has no bracket is accepted and has a NULL address
  (`AddressIsNullExactly`, `AddressWithoutBracket`); `src/worker.c:177-178` hands it to the log, where
  `trap_serialize` passes NULL to `%s`. `SerializedFitsExactly` says when the buffer is large enough
  for what the C library prints then.
- The comments in `src/trap.c` describe the address as being between brackets; the code also
  accepts a missing closing bracket and takes the rest of the string (`UnclosedAddress`). The model
  follows the code.
- The comment of `dictionary_set` says that storing NULL is like deleting the key. In the code the
  key stays: `dictionary_get` then returns NULL and not the default. The model follows the code.

## Model

| member | source | states |
|---|---|---|
| Tokens.StrTok | src/trap.c:407-416 | one strtok_r call: the next maximal run of non-separators is the first word of `Split`, and the rest of the string splits into the remaining words |
| Tokens.SplitAppend | src/trap.c:407-416 | splitting at a separator is a homomorphism: the words of a, separator, b are the words of a followed by the words of b |
| Tokens.SplitJoin | src/db.c:258-281 | words joined by single separators split into the same words |
| Tokens.SplitYieldsWords | src/trap.c:407-416 | no token is empty or contains the separator |
| Tokens.SplitAround | src/trap.c:407-416 | squeezing a text to single separators keeps any separator-free piece whole and brings no new character before it |
| Tokens.SqueezedHasSame | src/trap.c:407-416 | squeezing keeps exactly the characters other than the separator |
| CStrings.SpanStops | src/trap.c:94-160 | the stretch before the first stop character (strcspn) is found whatever follows it |
| RingQueue.Queue.constructor | src/threadpool.c:76-88 | an empty ring of any positive capacity stands for the empty queue |
| RingQueue.Queue.Enqueue | src/threadpool.c:97-119 | the ring with wrap-around refines a bounded sequence: the element is appended, or refused exactly when the capacity is reached; the occupied-tail check never fires |
| RingQueue.Queue.Dequeue | src/threadpool.c:127-153 | the oldest element is removed and returned, NULL exactly from the empty queue; resetting an emptied ring to cell 0 does not change what it stands for |
| RingQueue.Queue.Size | src/threadpool.c:161-179 | size and emptiness are those of the sequence |
| RingQueue.FillFreeQueue | src/threadpool.c:407-416 | after initialisation the free queue holds every slot once, in order; no enqueue is refused |
| PoolLocks.StepKeepsLocks | src/threadpool.c:199-316 | each mutex is owned by exactly the thread whose program position says so; every step keeps this |
| PoolSlots.StepKeepsSlots | src/threadpool.c:97-153 | every slot is in exactly one place: free queue, tasks queue, one worker's hand, one producer's hand, or dropped; every step keeps this |
| PoolWakeups.StepKeepsInv | src/threadpool.c:214-224 | the wakeup invariant (a sleeper on a non-empty queue implies a broadcast still due under the mutex, or an empty queue), with locks and slots, is kept by every step |
| PoolTickets.StepKeepsTickets | src/threadpool.c:274-278 | queue contents, slots and callbacks stay in step with the history of submissions; every step keeps this |
| PoolSafety.InitIsGood | src/threadpool.c:371-433 | the state threadpool_init leaves behind satisfies the whole invariant |
| PoolSafety.RunKeepsGood | src/threadpool.c:199-520 | the invariant holds after every run of any length |
| PoolSafety.ReachableIsGood | src/threadpool.c:199-520 | the invariant holds in every reachable state |
| PoolSafety.NoSlotTwice | src/threadpool.c:473-496 | in every reachable state no slot is in two queues, two hands, a queue and a hand, or twice in one queue |
| PoolSafety.NoSlotLost | src/threadpool.c:274-285 | every slot is in a queue or a hand if and only if no worker has finished with a task that has a NULL routine |
| PoolSafety.SlotsLostExactly | src/threadpool.c:274-285 | the slots missing from queues and hands are exactly as many as the NULL-routine tasks that workers took and dropped: each costs one slot for good, nothing else costs any |
| PoolLosses.StepKeepsLosses | src/threadpool.c:274-285 | every step keeps lost slots and dropped tasks equally many |
| PoolExample.NullRoutineLosesTheSlot | src/threadpool.c:274-312 | a run of a pool with one slot after which that slot is in no queue and in no hand |
| PoolSafety.NoErrorPath | src/threadpool.c:234-304 | the enqueues at 285 and 496 never fail, the dequeues at 234 and 473 never return NULL, workers exit only after the stop flag is up, and add_task returns 0, or -2 from a non-blocking call |
| PoolSafety.NoLostWakeup | src/threadpool.c:214-224 | with the mutex free, a non-empty tasks queue has no worker asleep un-signalled, and likewise the free queue and producers, although broadcasts happen only at size 1 |
| PoolSafety.FifoExactlyOnce | src/threadpool.c:487-496 | over every run the dequeued tasks are a prefix of the submitted ones, each started callback is the exact (routine, data) pair submitted, and no submission is started twice |
| PoolSafety.QuiescentMeansDrained | src/threadpool.c:214-245 | if nothing can move and no stop was requested, the tasks queue is empty, all workers sleep and every submission has been started or, without a routine, dropped |
| PoolSafety.QuiescentMeansIdle | src/threadpool.c:435-520 | in such a state free slots plus NULL-routine submissions make up the capacity, every other submission was started exactly once with its own routine and data, and as long as a slot is left every call has returned |
| PoolSafety.QuiescentMeansStopped | src/threadpool.c:328-369 | if nothing can move after a stop was requested, every worker has exited and every join has returned |
| PoolProgress.WorkIsBounded | src/threadpool.c:199-520 | a measure bounds the pool's own steps in any run by the initial work plus a fixed amount for each call and each spurious wakeup: no livelock |
| PoolProgress.ComesToRest | src/threadpool.c:199-520 | from every good state the pool's own steps lead to a state where nothing moves, within the measure |
| PoolProgress.AtMostOneMoreCallback | src/threadpool.c:199-232 | from the moment the stop flag is set each worker begins at most one more callback, and none unless it holds a task or has passed the test of the flag at line 226 |
| PoolCallbacks.OneMoreCallbackExactly | src/threadpool.c:199-278 | in a reachable state with the flag set, some run lets a worker begin a callback if and only if the task it holds, or, past line 226, the oldest one in the queue, has a routine |
| PoolCallbacks.StepKeepsAhead | src/threadpool.c:199-278 | with the flag set only a worker's own start changes whether it has a callback ahead of it |
| PoolCallbacks.AheadCanBegin | src/threadpool.c:234-278 | such a worker begins the callback by its own next steps alone |
| PoolCallbacks.NoneAheadNoneBegun | src/threadpool.c:199-278 | without a callback ahead of it a worker begins none in any run |
| PoolExample.CallbackAfterTheFlag | src/threadpool.c:226-278 | a reachable state with the flag up, the task queued and the worker between test and dequeue, and a run from there that begins the callback |
| PoolProgress.NoSleepAfterBroadcast | src/threadpool.c:328-355 | once the stopper has broadcast no worker is ever asleep again, although the flag is written before the lock is taken |
| PoolProgress.WorkersWindDown | src/threadpool.c:253-316 | after the broadcast the workers take at most 13 more steps each, whatever producers and callers do |
| PoolProgress.SomebodyMoves | src/threadpool.c:253-369 | while a worker is alive after the broadcast, a worker can move or the mutex owner that blocks it can |
| PoolProgress.StopIsInevitable | src/threadpool.c:328-369 | in every run from a reachable state with the flag set, calls and spurious wakeups included, the pool's own steps are bounded by the work at hand plus a fixed amount for each of these, and where none of its steps is possible all workers have exited and all joins have returned |
| PoolProgress.StopCompletes | src/threadpool.c:328-369 | a schedule that completes the stop exists from every reachable state in which it was requested |
| Expander.ExpandCommand | src/command.c:28-120 | the scanner computes `Expand` for every hook and command, NULL gives NULL, and fill and capacities of the two blocks go exactly as `ScanSizes` says; each array has one cell more than the source allocates |
| ExpanderStorage.ScanSpends | src/command.c:45-115 | fill and capacities at the end, computed by recursion over the parsed command |
| ExpanderStorage.MacroBufferExactly | src/command.c:67-73 | a macro's terminator is put one byte behind the allocated macrobuffer if and only if some closed macro's text, dollars included, is exactly as long as the capacity that it and the macros before it have grown macrobuffer to; the hook does not matter |
| ExpanderStorage.SingleMacroExactly | src/command.c:39-73 | a command that is one macro does that if and only if its length is 128 times a power of two |
| ExpanderStorage.BufferExactly | src/command.c:75-115 | the output's terminator is put one byte behind the allocated buffer if and only if the output is as long as the capacity that the command and the hook grow it to |
| ExpanderStorage.PlainTextExactly | src/command.c:39-115 | a command without a dollar does that if and only if its length is 1024 times a power of two |
| ExpanderStorage.OpenLeavesRoom | src/command.c:104-115 | a command that ends in an open macro never does |
| ExpanderStorage.FullBuffer | src/command.c:39-115 | 1024 bytes of plain text end at the capacity of a block of 1024 bytes |
| ExpanderStorage.FullMacroBuffer | src/command.c:40-73 | a macro name of 126 bytes puts the terminator behind a block of 128 bytes |
| Expander.Scanner.MakeRoom | src/command.c:46-53 | the two capacity checks leave i < buflen and j < macrobuflen without changing what is stored |
| Expander.Scanner.AppendText | src/command.c:75-91 | replacement text is appended after the growth policy made room; i and buflen go as `Appended` says, with i <= buflen |
| Expander.Scanner.CloseMacro | src/command.c:67-92 | a closed macro is replaced by its hook value, or copied verbatim when the hook does not know it; it is on record whether the NUL behind its text went to index macrobuflen, which the source does not allocate |
| Expander.Scanner.Feed | src/command.c:46-102 | one character: output and scanner state change as in the two-state specification, fill and capacities as `NextSizes` says |
| Expander.Scanner.Gather | src/command.c:55-96 | a byte that closes no macro goes to one of the buffers, at an index below its capacity |
| Expander.Scanner.Finish | src/command.c:104-115 | an unterminated macro is copied verbatim; the terminator goes to index i, which is the first one behind the source's block if i = buflen |
| ExpanderLaws.ExpandIsCompositional | src/command.c:45-115 | Expand(a+b) = Expand(a)+Expand(b) for all hooks and all b if and only if a has an even number of dollars |
| ExpanderLaws.EveryCommandParses | src/command.c:45-115 | every command is the text of a well-formed sequence of literal text, macros and at most one open macro |
| ExpanderLaws.ExpandSubstitutes | src/command.c:45-115 | expansion equals substitution in that grammar: known macros replaced, unknown and unterminated ones verbatim |
| ExpanderLaws.FuseTwoPasses | src/db.c:229-318 | if h1's values contain no dollar, expanding with h1 and then h2 equals one expansion with "h1 else h2" |
| ExpanderLaws.FusionExactly | src/db.c:229-318 | that equation holds for every h2 and every command if and only if h1's values for macros contain no dollar |
| ExpanderLaws.DollarValueBreaksFusion | src/db.c:229-318 | for any value with a dollar there are a second hook and a command on which the two passes differ from the single one |
| ExpanderLaws.ExpandIsIdempotent | src/command.c:28-120 | expanding twice with the same dollar-free hook equals expanding once |
| Hooks.SplitArgs | src/db.c:258-281 | the argument list is the words between '!' signs, at most MAX_ARGS_NO of them; none for NULL |
| Hooks.ArgumentsOfJoin | src/db.c:258-281 | an argument string built with '!' between words gives those words back, the first 128 of them |
| Hooks.StoredTextIsOnePass | src/db.c:229-318 | with dollar-free resource values the stored command line is one expansion in which resources take precedence over the argument macros |
| Hooks.NthArgument | src/command.c:204-228 | $ARGn$, for every n, stands for the argument at what atoi makes of n: clamped to a long, then cut down to an int; it is left alone when there is none |
| Hooks.IntArgument | src/command.c:218-226 | for every n that is an int this is the n-th argument, and none for n = 0 or beyond the last one |
| Hooks.LargeNumberWraps | src/command.c:218-226 | 2^32 + 1 stands for the first argument |
| Hooks.AtoiOfDecimal | src/command.c:218 | atoi reads back a printed number if and only if it is an int, and in general gives its low 32 bits after clamping to a long |
| Hooks.AtoiReadsNumber | src/command.c:218 | spaces and a sign before an int's digits are read, and whatever follows the digits is not |
| Hooks.AtoiOfText | src/command.c:218 | text that does not begin with a number counts as 0 |
| Hooks.SenderTextIsOnePass | src/execlist.c:263-270 | command_expand_1 followed by command_expand_2, as run for a sender that is not looked up, is one expansion for dollar-free resources |
| Hooks.ResourcesMergeExactly | src/db.c:229-318 | the resource pass merges with every later pass on every text if and only if no resource that is named like a macro has a dollar in its value |
| HookTexts.ResourcesReplaced | src/command.c:125-139 | the resource pass, macro by macro: a user-defined macro with a value is replaced by it, and all else is copied |
| HookTexts.AddressesReplaced | src/command.c:144-179 | the address pass, macro by macro: $HOSTADDRESS$ and $SENDERADDRESS$ become the two addresses, UNKNOWN where they are empty, and all else is copied |
| HookTexts.AddressAlone | src/command.c:149-171 | either macro alone expands to its address, any other to itself |
| HookTexts.ArgumentsReplaced | src/command.c:184-228 | the argument pass, macro by macro: $HOSTADDRESS$ becomes the row's address, $SENDERADDRESS$ UNKNOWN, $ARG and a number that argument, and all else, numbers without an argument included, is copied |
| Quoting.QuoteString | src/util.c:224-246 | quote writes exactly the quoted text, within its 2n+3 bytes |
| Quoting.BackslashString | src/util.c:281-338 | backslash_quote writes exactly the escaped text, within its 2n+1 bytes |
| Quoting.RemoveQuotesFrom | src/util.c:252-274 | strips one leading and one trailing double quote |
| Quoting.RemoveCharsFrom | src/util.c:108-140 | keeps exactly the other characters, in order; NULL when nothing is left |
| Quoting.IsInteger | src/util.c:189-202 | true exactly of strings of digits, the empty string included, and false of NULL |
| Quoting.QuotingIsInvertible | src/trap.c:296-301 | an explicit function undoes quote(backslash_quote(s)) for every s |
| Quoting.QuotingIsInjective | src/trap.c:296-301 | different values are never quoted alike |
| Quoting.InnerQuotesEscaped | src/util.c:224-246 | between the outer quotes every double quote follows a backslash |
| Quoting.BackslashEscapes | src/util.c:281-338 | in the escaped text every quote, dollar and backtick follows a backslash |
| Quoting.BackslashAdds | src/util.c:281-338 | one byte is added for every quote, backslash, dollar and backtick, and one for a '#' at the front |
| Quoting.BackslashLeavesExactly | src/util.c:281-338 | a text is left alone if and only if it has none of these |
| Quoting.QuoteBodyEscapes | src/util.c:224-246 | quoting keeps what is escaped and escapes the double quotes |
| Quoting.QuoteTwiceQuotes | src/trap.c:296-301 | the twice quoted value stands in double quotes, is recovered by the two inverses, and has no bare quote, dollar or backtick between them |
| Quoting.RemoveQuotesTakes | src/util.c:252-274 | one double quote less at either end where there is one, and no other change |
| Quoting.RemoveCharsDrops | src/util.c:108-140 | a character of the set is dropped wherever it stands |
| Quoting.RemoveCharsKeeps | src/util.c:108-140 | a text without such characters stays |
| TrapParser.ExtractIpAddress | src/trap.c:94-160 | the text between the first '[' and the next ']'; as in the code, a missing ']' is accepted and the rest is taken |
| TrapGrammar.HasBracket | src/trap.c:94-160 | an address is found if and only if the text contains '[' |
| TrapGrammar.UnclosedAddress | src/trap.c:94-160 | without a closing bracket the rest of the text is the address |
| TrapParser.PostParse | src/trap.c:242-316 | succeeds exactly when an object is named snmpTrapOID; the trap's OID is the value of the first such object; names and values stay, and every quoted value stands in double quotes, unquotes to the value less its outer double quotes, and has its quotes, dollars and backticks escaped |
| TrapParser.Parser.AddToValue | src/trap.c:514-531 | a further word of a value is appended after one space |
| TrapParser.Parser.Feed | src/trap.c:431-540 | one token: the automaton's fields change as the specification `Step` says |
| TrapParser.Parser.Finish | src/trap.c:542-574 | the verdict after the last token |
| TrapParser.Parse | src/trap.c:373-575 | the strtok loop computes automaton run and verdict on the tokens of the cleaned buffer, early exit after simple commands included |
| TrapParser.TrapIsComplete | src/trap.c:242-316 | a PDU left as TRAP has a non-empty host name and at least one object; name, value and quoted value of every object are non-empty, and its OID is the value of the first snmpTrapOID object |
| TrapGrammar.EveryInputIsAFrame | src/trap.c:407-540 | every token sequence is the text of a well-formed frame, and the automaton's state is the one the frame stands for |
| TrapGrammar.FrameIsUnique | src/trap.c:407-540 | no two well-formed frames have the same tokens |
| TrapGrammar.ParserReadsFrame | src/trap.c:373-575 | on a frame's tokens the automaton ends with exactly the frame's fields |
| TrapGrammar.AcceptedExactly | src/trap.c:373-575 | a request is accepted as TRAP if and only if its tokens are a complete TRAP frame with an snmpTrapOID binding, and then has that frame's host name, address and bindings |
| TrapGrammar.EncodeFrame | traphandlers/nagiostraphandler:18-25 | the sender's loop prints the frame text of its input lines |
| TrapGrammar.SplitHandlerText | traphandlers/nagiostraphandler:18-25 | the tokens of the sender's text are TRAP, tokenizer, and for each line a tokenizer and the line's words |
| TrapGrammar.RoundTrip | src/trap.c:373-575 | parsing what the handler sends returns a TRAP with the same host name, the text between the brackets of the address line as address, whatever its spacing outside them, and the same bindings in order with single-space-joined values |
| TrapGrammar.HandlerIsParsed | src/trap.c:373-575 | the same for any address line: the address is extracted from its squeezed words |
| TrapGrammar.AddressOfLine | src/trap.c:477-496 | from an address line with a bracketed word the parser extracts the text between the brackets |
| TrapGrammar.AddressIsNullExactly | src/trap.c:94-160 | a message is accepted whatever its address line, and the trap's address is NULL if and only if the line has no '[' |
| TrapGrammar.AddressWithoutBracket | src/trap.c:94-160 | such a message: accepted, with a NULL address |
| TrapGrammar.AcceptedAddress | src/trap.c:477-496 | the trap of a complete frame has an address if and only if a word of its address contains '[' |
| TrapGrammar.AddressAfterTokenizer | src/trap.c:477-496 | the tokenizer absorbed into the address buffer does not change the extracted address |
| TrapGrammar.BracketedAddress | src/trap.c:94-160 | "...[a]..." yields a |
| TrapValues.AcceptedValues | src/trap.c:291-313 | in every accepted trap the quoted value of v, or of v with a double quote at one or both ends, unquotes to v, and every quote, dollar and backtick inside follows a backslash |
| TrapValues.AcceptedBindings | src/trap.c:407-540 | the objects of a trap from a complete frame are the frame's bindings in order: name, words joined by spaces, and that value quoted |
| TrapValues.SentValuesArrive | src/trap.c:373-575 | so are the objects of what the handler sends |
| TrapValues.TrapIsNamedExactly | src/trap.c:250-283 | a TRAP frame that ends behind a value is accepted if and only if one of its bindings has one of the two names of the trap's OID; otherwise it is invalid |
| TrapValues.FirstWordDecides | src/trap.c:431-470 | unless it is TRAP the first word that is no tokenizer decides alone: ALIVE?, DIAGNOSTICS for private peers only, anything else invalid |
| TrapValues.RequestIsAnswered | src/trap.c:373-575 | the same for a whole request, from its text |
| TrapValues.NothingButTokenizers | src/trap.c:542-574 | tokenizers alone make no PDU |
| TrapValues.BrokenOffIsInvalid | src/trap.c:542-574 | a TRAP that breaks off before its address ends or behind an object's name is invalid |
| TrapPrinter.AppendItem | src/trap.c:627-647 | growing the buffer by one object keeps what was written, puts a space where the terminator would have been and adds oid=value |
| TrapPrinter.GetContents | src/trap.c:618-655 | every byte of an exactly sized buffer is written: the space-joined oid=quoted list and its terminator; NULL exactly without objects |
| TrapPrinter.ComputeBufLen | src/trap.c:716-738 | the size computation yields `BufLen` |
| TrapPrinter.OldBodyFits | src/trap.c:731-766 | the old mode's objects fit the room reserved for them, for every delimiter length |
| TrapPrinter.ContentsFit | src/trap.c:731-775 | delimiter and contents of the new mode fit the room reserved for the objects |
| TrapPrinter.SerializedFits | src/trap.c:704-780 | for every trap with an address, bytes written, terminator included, never exceed buflen, in either mode and for every delimiter |
| TrapPrinter.SerializedLeaves | src/trap.c:704-780 | the exact number of bytes left over: 1 for an empty delimiter, else (2n-1)(d-1) for n objects and a delimiter of length d, less what is printed for a NULL address |
| TrapPrinter.SerializedFitsExactly | src/trap.c:704-780 | the serialisation of a trap with complete objects fits if and only if it has an address or the text printed for NULL is no longer than that |
| TrapPrinter.CommaLeavesNothing | src/standalone.c:79 | with a one-byte delimiter a NULL address fits if and only if nothing is printed for it |
| TrapPrinter.WriteOldItem | src/trap.c:754-764 | one object in the old mode: first one after the delimiter, others after a semicolon, incomplete ones skipped |
| TrapPrinter.Serialize | src/trap.c:704-780 | the buffer holds header and body followed by the terminator, every write inside it; also for a NULL address wherever that fits |
| TrapPrinter.AcceptedTrapPrints | src/trap.c:618-780 | an accepted trap meets the printers' needs, its address apart, which is non-NULL if and only if a word of the address line contains '[' |
| TrapText.SerializedIsRead | src/trap.c:704-780 | cut at a delimiter that occurs in none of them, a serialised trap gives time stamp, OK or NO, host name, address and OID back, in this order, and then its objects |
| TrapText.StampIsRead | src/trap.c:748-750 | the twelve digits of the time stamp are the seconds modulo 2^32 |
| TrapText.OldBodyIsJoined | src/trap.c:752-766 | the old mode's objects are names and values in turn, separated by semicolons |
| TrapText.ContentsAreItems | src/trap.c:618-655 | the contents are name=value items in order, separated by single spaces |
| TrapText.ItemIsRead | src/trap.c:627-645 | an item's name ends at the first equals sign and its quoted value is the rest |
| TrapText.CutField | src/trap.c:748-750 | the first cut is at the end of a field that the delimiter does not occur in |
| HostIndex.FetchCommands | src/db.c:205-251 | the commands table after all rows, or an exit of the daemon if and only if some command has no text |
| HostIndex.CommandsDefine | src/db.c:205-251 | the last row with an id defines the command, its text expanded with the resources |
| HostIndex.DefinedCommand | src/db.c:205-251 | its text is the row's after the resource pass, and sender addresses are used if and only if the row's last column is "1" |
| HostIndex.DefiningRow | src/db.c:205-251 | every command in the table comes from such a row |
| HostIndex.RecordText | src/db.c:229-318 | the command line kept with a host or service is its command's text after the resource pass and the argument pass with that row's address and arguments |
| HostIndex.Index.LinkRecord | src/db.c:322-341 | each of the three next pointers is the old table entry of its key, which is removed |
| HostIndex.Index.Publish | src/db.c:343-345 | the record becomes the entry of its three keys |
| HostIndex.Index.Insert | src/db.c:322-345 | threading one record through three chains keeps all three indexes correct and appends exactly that record |
| HostIndex.Fetch | src/db.c:288-437 | after any rows the index is correct, and its records stand for exactly the rows with a known command, each once and in order: found under that row's name, address and command id, and carrying its description, its arguments and its command's text with the arguments in place (hosts and services) |
| HostIndex.AcceptedStandFor | src/db.c:306-355 | the correspondence between rows and records, by increasing places |
| HostIndex.RowIsReachable | src/db.c:322-345 | for every such row the chain from the table entry of its name holds its record, and so do those of its address and its command id |
| HostIndex.ThreadedSnoc | src/db.c:322-345 | a record that points to the old head of its chain becomes the new head and no other chain changes |
| HostIndex.ChainVisitsMatching | src/db.c:633-714 | in correctly linked records every chain is the list of records with its key, newest first, ending in NULL |
| HostIndex.Index.ChainFromTable | src/db.c:633-714 | from the table entry of any key, for name, address and command id alike, the pointers visit exactly the loaded records with that key, newest first, and end in NULL; the three chains share the nodes |
| HostIndex.MatchingIsExact | src/db.c:306-355 | the visited list has all the records with the key and no others |
| HostIndex.MatchingReverses | src/db.c:306-355 | records loaded later are visited earlier |
| HostIndex.MatchingVisitsOnce | src/db.c:306-355 | no record is visited twice |
| HostIndex.AcceptedAreNamed | src/db.c:306-355 | kept records have non-empty names and addresses if the rows do |
| Execlist.List.Append | src/execlist.c:64-96 | appending through the tail pointer adds exactly one item at the end of the linked list |
| Execlist.UpToEndsInNewest | src/execlist.c:160-173 | the chosen prefix of the loaded records ends in the newest one with the command id |
| Execlist.WalkVisits | src/execlist.c:160-173 | a walk that starts at the command id's table entry and follows the name or address chain visits exactly the records with the first one's key loaded no later than it, newest first |
| Execlist.AppendChain | src/execlist.c:160-173 | the loop appends one item for every visited record that has the requested key, and terminates |
| Execlist.AppendMatching | src/execlist.c:160-186 | one host or service loop of execlist_build appends exactly the selected records' items |
| Execlist.Build | src/execlist.c:125-278 | the linked list built is `Wanted` for any request; the lemmas of `Listing` say for each kind of request what that is |
| Listing.ListedByAddress | src/execlist.c:155-188 | given a host address the list is the selected hosts' items and then the selected services', each newest first, each with its own command; selected are exactly those with the address up to the last record with the command id, if that has the address too |
| Listing.ListedByName | src/execlist.c:190-225 | without an address, given a host name, the same by name |
| Listing.ListedBySender | src/execlist.c:229-268 | without either, for a sender that is looked up, the same by the sender's address |
| Listing.SelectedPlaces | src/execlist.c:160-173 | the selected records by their places, the last place first |
| Listing.GivenCommandListed | src/execlist.c:133-147 | a given command alone is listed, with $HOSTADDRESS$ and $SENDERADDRESS$ replaced by the requested addresses or UNKNOWN and all else as it was |
| Listing.SenderCommandListed | src/execlist.c:268-275 | for a sender that is not looked up the command with the id alone is listed, with the sender's address in place |
| Listing.UnknownCommandListed | src/execlist.c:268-275 | an unknown command id leaves one item without a command |
| Listing.NothingListed | src/execlist.c:277-278 | nothing to go by, nothing listed |
| Listing.RecordCommand | src/db.c:229-318 | a record's command line, macro by macro: the command's text with the resources in place, then with the row's address and arguments in place |
| Execlist.SelectedExactly | src/execlist.c:155-261 | a record is in the list if and only if the newest record with the command id carries the requested key, the record carries it too and was loaded no later |
| Execlist.SelectedIsWhatWasAsked | src/execlist.c:155-261 | the list is "all records with this key and this command id" if and only if `Agrees`: the newest record with the id has the key and older ones with the key have the id, or no record has both |
| Execlist.OlderAddressFindsNothing | src/execlist.c:155-171 | of two hosts with one command id, asking for the older one's address finds nothing |
| Execlist.OtherCommandIsFound | src/execlist.c:155-171 | of two hosts with one address, the older one is found although it has another command id |
| Execlist.SenderItem | src/execlist.c:229-275 | for a sender that is not looked up the list is the command's text after the resource pass and the address pass, and the plugin decides what it is about |
| Execlist.EveryEntryMatches | src/execlist.c:155-261 | every host or service in a list is a loaded one, carries the requested address or name (address before name before sender) and is run with its own command line |
| Results.FieldsOfJoin | src/exec.c:265-308 | bar-free fields joined by bars are read back, empty ones included |
| Results.JoinOfFields | src/exec.c:265-308 | every line is its fields joined by bars: strsep loses nothing |
| Results.StrSep | src/exec.c:265-266 | one strsep call: first field and remainder |
| Results.ReadFields | src/exec.c:265-308 | the token loop keeps the first seven fields |
| Results.ParseResult | src/exec.c:241-391 | the parsed result of a line with at least seven fields |
| Results.FillIn | src/exec.c:346-385 | only empty names are replaced, by those of the host or service that was run |
| Results.PrintedLineIsUnderstood | src/exec.c:241-391 | each of the first seven fields of a plugin's line reaches its place; the result is complete if and only if the return value is numeric, and then empty names, and a service's empty description, come from the record and from nowhere else; with is_service -1 the plugin decides by giving a description |
| Results.FindHost | src/exec.c:553-556 | a host lookup finds something if and only if some loaded host has that name or address |
| Results.FindService | src/exec.c:563-580 | a walk over the chain of any key finds something if and only if a match comes on the chain before every record that cannot be compared, and passes NULL to strcmp if and only if some record whose description or whose result's description is NULL comes before every match |
| Results.WalkIsScan | src/exec.c:563-580 | a walk that passes no NULL finds something if and only if a linear scan over all loaded services would |
| Results.DoOutput | src/exec.c:535-616 | NULL is passed to strcmp if and only if `Crashes`: for a looked-up service result, on the name chain, or, when the name chain has no match, on the address chain; otherwise channel_write is reached if and only if the host name is non-empty, a service's description is non-empty, and sender-address mode is on or some loaded host matches by name or address (service: description together with host name or address) |
| Results.WrittenPlaces | src/exec.c:753-756 | of any results exactly the confirmed ones are written, each once and in order |
| Results.ReportedIsLoaded | src/exec.c:535-616 | what is confirmed names a host, and a service if it is about one, and unless the sender's address is used some loaded row has these names |
| Results.LoadedIsReported | src/exec.c:535-616 | and whatever is so is confirmed |
| Results.ServiceIsKnown | src/exec.c:563-580 | where no NULL is compared the two walks find what a scan of all services finds |
| Results.NullIsCompared | src/exec.c:563-580 | one service and a result with its name, one of their descriptions NULL: NULL is compared |
| Results.LineComparesNull | src/exec.c:241-580 | a plugin's line that names the service's host but no service and whose return value is not a number leads to that |
| Stack.Stack.Push | src/stack.c:104-124 | the linked stack gains exactly one item on top; depth is the number of items |
| Stack.Stack.Pop | src/stack.c:127-144 | the top item is returned and removed; NULL from the empty stack |
| Stack.Stack.IncrementExecutions | src/stack.c:54-57 | only the execution counter changes |
| StackMachine.RunsAreBounded | src/exec.c:747-757 | whatever plugins lead to, at most max+1 of them are run (none for negative max) |
| StackMachine.DepthIsPushesMinusPops | src/exec.c:747-757 | final depth = initial depth + pushes - runs, and a run that ends well leaves an empty stack |
| StackMachine.ResultsMatchRuns | src/exec.c:747-757 | the i-th result is what the i-th run gave; only the last run may lack one |
| StackMachine.WhyAbandoned | src/exec.c:465-511 | a trap is abandoned if and only if the budget is used up with items left, or a run has no result |
| StackMachine.ResultsHave | src/exec.c:747-757 | a property of items that every turn hands on, and of results that every such item gives, holds of all results of a run |
| StackMachine.TopRunsFirst | src/exec.c:747-757 | items on top run to the end, with everything they push, before those below are touched |
| StackMachine.LastPushedRunsFirst | src/exec.c:419-458 | of the items pushed from one execlist the last is run first, with all it leads to, then the others |
| StackMachine.ListRunsBackwards | src/exec.c:419-458 | items that need no follow-up are run in reverse order of pushing |
| StackMachine.ReadLinesStopsAt | src/exec.c:484-501 | a plugin's result is that of its first complete line, else of its last; the partial lines before it have pushed their items in order; a partial line without follow-up abandons the trap |
| StackMachine.NextOnTheWay | src/exec.c:747-757 | the loop invariant: what has happened followed by what is still to come is the whole run |
| StackMachine.LogEnds | src/exec.c:747-757 | a loop that ended with an empty stack has had exactly the results and the number of runs of the whole run |
| StackMachine.LogBreaksOff | src/exec.c:747-751 | a loop that was abandoned has had exactly the results of the whole run, which fails |
| StackMachine.LogIsOnTheWay | src/exec.c:747-757 | a log whose every turn ran the top item within the budget is a prefix of the whole run |
| Exec.PushExeclist | src/exec.c:419-458 | pushes the items up to the first without a command; succeeds exactly if all have one |
| Exec.ReadAll | src/exec.c:484-501 | the line loop of stack_run: result and pushed items as specified |
| Exec.ExecCommand | src/exec.c:172-213 | the plugin is run on the command, a space and the trap's contents; nothing is run for an empty command or empty contents |
| Exec.StackRun | src/exec.c:465-511 | refuses without popping when the budget is exceeded; otherwise counts, pops the top, and leaves below it untouched plus what was pushed |
| Exec.Output | src/exec.c:753-756 | the result of a turn is added to what is written if and only if a scan of all rows confirms it, unless looking it up compares NULL, which is reported exactly |
| Exec.ExecTrap | src/exec.c:626-769 | what reaches the output channel is the confirmed results of the machine's run, in order, up to the first result whose lookup compares NULL, where the daemon ends; if there is none, the verdict and the number of plugins run are the machine's; at most max+1 are run |
| Plugins.TurnIsOk | src/exec.c:465-511 | running an item for a service carries on only services with their own command, and its result has a description, if loaded services have one and their plugins' output gives one |
| Plugins.HandledIsSafe | src/exec.c:535-582 | under that condition on rows and plugins no NULL description is ever compared in the whole run |
| PluginRuns.GivenCommandIsRun | src/exec.c:172-213 | a trap with a command of its own hands command, space and contents to the plugin, and a line with a numeric return value is its only result, understood field by field |
| PluginRuns.OnlyCommandsAndContents | src/exec.c:193-199 | plugins that agree on every command followed by a space and the trap's contents handle the trap alike: nothing else is ever passed to them |
| PluginRuns.CompleteLine | src/exec.c:484-487 | for any item such a line is the item's result, with the item's host or service |
| PluginRuns.NoContentsNoResult | src/exec.c:184-187 | without contents there is no result at all |
| PluginRuns.AddressLeads | src/exec.c:488-497 | a partial line with an address pushes the items found by that address, up to one without a command; the trap goes on if and only if there are any and all have one |
| PluginRuns.NameLeads | src/exec.c:488-497 | a partial line with only a name leads along the names in the same way |
| PluginRuns.NeitherLeads | src/exec.c:488-497 | and one with neither back to the sender's hosts and services |
| PluginRuns.CommandLeads | src/exec.c:488-497 | where the trap has a command of its own it is pushed again with the line's address in place |
| PluginRuns.BeginsAtSender | src/exec.c:726-745 | handling begins with the hosts and services of the sender's address, or not at all if there are none or one has no command |
| PluginRuns.BeginsWithCommand | src/exec.c:726-745 | or, where the sender is not looked up, with the trap's command for no host in particular |
| Plugins.DescribedIsSafe | src/exec.c:563-580 | a result with a description is looked up safely where all loaded services have one |
| Dictionary.Dict.constructor | src/dictionary.c:143-158 | an empty map, for any initial size |
| Dictionary.Dict.Find | src/dictionary.c:201-219 | comparing cached hashes first finds the key if and only if the map has it, for any hash function |
| Dictionary.Dict.Get | src/dictionary.c:201-219 | the map's value, NULL values included, or the default |
| Dictionary.Dict.Grow | src/dictionary.c:275-287 | the size doubles if and only if the count equals it; there is room afterwards and the map is preserved |
| Dictionary.Dict.FullBesideAHole | src/dictionary.c:275-287 | when the count equals the size there is still an empty slot if and only if an empty key was ever set |
| Dictionary.Dict.Set | src/dictionary.c:247-302 | map update for every non-empty key; NULL is refused; the empty key, stored as NULL, changes nothing but the count, and the dictionary stays valid |
| Dictionary.Dict.Fill | src/dictionary.c:289-301 | a new key in the first empty slot; the empty key leaves the slot empty |
| Dictionary.Dict.Unset | src/dictionary.c:315-350 | removes exactly the key; the hole is reused |
| Dictionary.Dict.CountsEntries | src/dictionary.c:247-350 | n is the size of the map plus the number of times an empty key was set |
| Dictionary.EmptySlotExists | src/dictionary.c:289-295 | unless all slots are taken there is an empty one, so the search for it succeeds |
| Dictionary.OccupiedIsSize | src/dictionary.c:247-350 | occupied slots are as many as distinct keys |
| Dictionary.RepresentsInsert | src/dictionary.c:289-301 | filling a hole with a new key, its hash and value represents the updated map |
| Dictionary.RepresentsRemove | src/dictionary.c:340-350 | clearing a slot represents the map without the key |
| Dictionary.RepresentsGrow | src/dictionary.c:275-287 | appending empty slots represents the same map |
| Dictionary.Replay | src/dictionary.c:201-350 | every sequence of set, get and unset agrees with a map of optional values; n stays its size exactly as long as no empty key is set |
| IniParser.StrLwc | src/iniparser.c:65-79 | lower-cases within its static buffer; what exceeds it is cut off |
| IniParser.StrStrip | src/iniparser.c:95-113 | removes spaces at both ends |
| IniParser.IniparserLine | src/iniparser.c:469-527 | the kind of a line, in the scansets' order of preference, and the section name from there on; what the kinds are is said by the lemmas of `IniLines` and `IniValues` |
| IniParser.ScanEntry | src/iniparser.c:495-525 | the sscanf cascade: quoted values before plain ones before empty ones |
| IniParser.IniparserLoad | src/iniparser.c:543-644 | the fgets loop with multi-line values, over-long lines and the error count fills a dictionary object with exactly the map of `Load`, or returns NULL exactly where it fails |
| IniParser.DigestLine | src/iniparser.c:578-632 | what one successful fgets leads to: nothing, failure, a pending line, or a processed one |
| IniParser.GetNSec | src/iniparser.c:133-148 | the number of colon-free keys |
| IniParser.GetSecName | src/iniparser.c:164-184 | the n-th colon-free key in slot order, NULL out of range |
| IniParser.IniparserDumpIni | src/iniparser.c:227-265 | the printed text of a dictionary object |
| IniRoundTrip.ClassifySection | src/iniparser.c:489-494 | a printed section heading is read as that section |
| IniRoundTrip.ClassifyValue | src/iniparser.c:495-509 | a printed entry line is read as its name and value |
| IniRoundTrip.ClassifyNoValue | src/iniparser.c:510-521 | a printed entry without value is read as a name with the empty value (the "key =" case) |
| IniRoundTrip.LoadLine | src/iniparser.c:577-637 | the loader takes exactly one line, classifies it and goes on behind it |
| IniRoundTrip.ReadsEntries | src/iniparser.c:252-262 | reading a section's lines adds exactly its entries |
| IniRoundTrip.ReadsSections | src/iniparser.c:248-263 | reading all printed sections adds their entries one after the other |
| IniRoundTrip.LoadInvertsDump | src/iniparser.c:227-644 | for every printable map, in whatever slots it is stored, loading the dump gives the same map, NULL values included |
| IniRoundTrip.DumpAndLoad | src/iniparser.c:227-644 | the two functions, one after the other on dictionary objects, give the map back |
| IniErrors.LoadIsFold | src/iniparser.c:577-637 | loading processes the logical lines, continuations joined, one after the other |
| IniErrors.LoadFailsExactly | src/iniparser.c:543-644 | loading fails if and only if a line does not fit the buffer or the last one has more than one character and no newline, or, of the lines that are an error, a section or a value, the last is an error |
| IniErrors.ErrorsAfter | src/iniparser.c:598-637 | the error count is positive at the end if and only if an error comes after the last section or value, or it was positive before and there is none |
| IniErrors.NoEqualsIsError | src/iniparser.c:486-527 | a line without an equals sign that is no comment and no section is an error |
| IniErrors.ValueHidesError | src/iniparser.c:598-644 | a line that makes loading fail on its own is forgiven when a value follows |
| IniErrors.GoodLineHidesError | src/iniparser.c:598-644 | such a file of two lines |
| IniErrors.ColonIsAdded | src/iniparser.c:227-644 | a key with a colon, alone in a dictionary without sections, comes back with one more colon in front |
| IniErrors.ColonKey | src/iniparser.c:227-644 | ":key" comes back as "::key" |
| IniLines.CommentIsSkipped | src/iniparser.c:486-488 | a line whose first visible character is '#' or ';', or that has none, changes nothing, whatever was read before |
| IniLines.CommentsAreIgnored | src/iniparser.c:486-488 | a file is read as if its comment and blank lines were not there, except behind a line that goes on |
| IniLines.KeptHasNone | src/iniparser.c:486-488 | where no line goes on none of them is kept |
| IniLines.ContinuationJoins | src/iniparser.c:590-602 | a backslash at the end of a line joins the next one to it |
| IniLines.LineFits | src/iniparser.c:577-602 | up to 1022 characters, with what is pending, a line is digested and reading goes on behind it |
| IniLines.LongLineFails | src/iniparser.c:577-590 | from 1023 on loading fails |
| IniLines.KeysAreLowercase | src/iniparser.c:65-79 | whatever is loaded, no key has an upper-case letter |
| IniValues.QuotedIsRead | src/iniparser.c:495-509 | a value in double or single quotes is read without them, whatever follows and whatever spaces surround the equals sign; the name in lower case |
| IniValues.PlainIsRead | src/iniparser.c:497-509 | any other value is read up to a comment, spaces before it left out |
| IniValues.NoValueIsRead | src/iniparser.c:510-521 | a name with only a comment behind the equals sign has the empty value |
| IniValues.EmptyQuotesAreRead | src/iniparser.c:495-509 | and so does one with empty quotes of either kind |
| IniValues.ValueIsStored | src/iniparser.c:616-619 | a value is stored under section and name, NULL for an empty one, and resets the error count |
| IniValues.HeadingIsRead | src/iniparser.c:489-494 | a heading begins the section of its name in lower case, spaces inside the brackets left out |
| IniValues.EmptyHeadingKeepsSection | src/iniparser.c:489-494 | an empty heading begins the current section over |

## Left out

- Pthread error branches, thread creation and `worker.c`: pthread calls are assumed to succeed.
- Producers asleep on `free_tasks_cond` at a stop: the source does not wake them, so nothing is claimed for them.
- Callbacks that never return: the stop protocol's progress counts a callback's return as a step that is always possible.
- More than one stopper, and `threadpool_free` called without the stop callback.
- Memory allocation failure and freeing, including the leaks in `stack_run` and values left uninitialised on rejected traps.
- Sockets, fork and daemon code, signals, pid file, file locks, logging, command line, MySQL, popen, `set_permissions` and glib's hash table internals: foreign calls; tables are maps.
- `config.c`, `query.c`, `regex.c`, `channel.c`, `diagnostics.c` and the shell and awk scripts: option lookup, query texts, pattern matching by the C library, output formatting, counters and installation.
- The unsigned wrap-around of the scanner's `i` and `j` and of buffer sizes beyond memory, and what the one byte behind a block (above) may damage.
- `$ARGn$` macros whose number does not fit `n_buffer` (command.c:215-218): a number has any length here; `atoi` is modelled as clamping to a 64-bit long and cutting down to 32 bits, as the C library does where the standard leaves overflow open.
- The fixed size of the address buffer in `parse` and of `tmp` in `iniparser_load`: both hold any text here.
- strtok_r and strsep overwriting separators in place: strings are values, the position is a variable.
- The time stamp of a trap and of a result: seconds are a parameter of the serialiser only.
- Lines of white space only in the ini file, for which the source reads `line[-1]`: here they count as empty.
- The mixing arithmetic of `dictionary_hash`: every statement holds for any hash function.
- Hosts and services are one record type and one index type; a host has no description.
- Resource rows (`fetch_resources`), trap handler rows and the lookups of `exec_trap` before its stack is set up: given as maps and parameters.
- Round trips of ini dictionaries that are not `Printable`, several keys without a section among them.
- What happens after `strcmp` is passed NULL, which C leaves undefined: here it ends the daemon.
- Results.ParseResult: requires seven fields, because the source passes a missing field to `atoi` and a caller follows the NULL result of an empty line.
- HostIndex.Fetch: requires kept rows to name a host and an address, because `xstrdup` turns "" into NULL and the string hash follows it.
- TrapPrinter.Serialize: for a trap without an address, only where the text that the C library prints for NULL fits; elsewhere the computed size is too small, and the model says exactly where that is. Host name and OID must not be NULL, and the new mode needs an object; accepted traps meet both.
- Execlist.Build: requires the command to be NULL or non-empty, which the source asserts.
- "Only complete results are output": `do_output` does not look at `is_complete`, and neither does the model.
- The shell meaning of quoted values: inner double quotes are escaped twice, so invertibility is proved instead.
