# Trix companion verification

Dafny models of five pieces of the Trix repository and proofs about them. Where
the source changes things step by step there is an imperative version (a class
or a method with loops), proved equal to a function on values; the properties
are then proved about that function, over every input, run or reachable state.

* **The parenthesising rewriter** of `tools/cpp_style.py`. `CppSyntax` has the
  expression tree, its printing and an independent check that a token range
  spells a tree; `CppParser` the precedence-climbing parser, sound and complete
  against printing; `CppRewrite` the wrapping of operands; `CppSplice` the
  flattened tree with offsets and the insertions collected from it; `CppWeave`
  splicing at counted positions; `CppText` the proof that splicing prints the
  wrapped tree; `CppGrammar` the grammar and the house rule written from tiers of
  operators, without binding powers, and that parsing decides the one and wrapping
  is the least way to obey the other; `CppFold` the guess that a `<` opens template arguments, as a
  folding of tokens done before parsing, and `CppScan` what that scan accepts, by
  counting brackets; `CppTemplate` which rewrites change what
  is guessed, and what a second pass does then; `CppExamples` two expressions
  where that happens; `CppStyle` the parser object and the loops as written.
* **The actor mailbox and wakeup protocol** of `docs/actors.md`,
  `src/ops_actor.inl` and `src/ops_coroutine.inl`, a step system over mailboxes,
  waiter lists, the ready queue, the timer list and each coroutine's continuation
  (`ActorState`), its invariants (`ActorInvariant`, `ActorHistory`), what they
  mean over runs (`ActorTheorems`), in which runs no wakeup is lost
  (`ActorWakeups`), how receives go on and deadlines end, who is woken and why
  (`ActorReceives`), and the ring buffer and the lists in place (`ActorRuntime`).
* **The CHIP-8 kernel** of `chip8.cpp`: the meaning of an instruction and of a
  burst (`Chip8Machine`), the effect of every instruction word and laws between
  them (`Chip8Effects`, `Chip8Laws`), splitting and exit reasons (`Chip8Theorems`),
  sprites (`Chip8Sprite`), ranges and call discipline (`Chip8Safety`), and the in-place
  kernel (`Chip8Kernel`). Random numbers are a stream with a position.
* **The Tetris kernels** of `tetrix.cpp`: row clearing (`TetrixField`), pieces
  (`TetrixPiece`), the board score (`TetrixScore`), what its features count on the
  field (`TetrixShape`), whole games (`TetrixGame`).
* **The save-file checker** of `examples/zmachine/quetzal-check.py`, following
  sections 3 and 4 of the Quetzal 1.4 specification: compressed memory
  (`QuetzalMemory`), chunks (`QuetzalChunks`), stack frames (`QuetzalStacks`).

Findings, and decisions where the sources differ:

* Killing a sender between its wakeup and its retry loses the wakeup:
  `coroutine_kill` takes it off the ready queue and wakes nobody in its place, so
  an owner can sleep on an empty mailbox with another sender asleep on it and
  nobody left to run (`ActorWakeups.KillLosesWakeup`). A kill is harmless exactly
  if the one killed was not woken for a slot of another actor's mailbox, or nobody
  waits there, or the senders woken there and not yet retried outnumber the free
  slots (`ActorInvariant.KillSafe`, `ActorInvariant.StepNoLost`); a run keeps all
  wakeups exactly if all of its kills are harmless (`ActorWakeups.CarefulIff`).
* Added parentheses can make the rewriter take a `<` for a template bracket that
  it had read as a comparison. Then `a < b > c + d` becomes a call of `a<b>`
  (`CppExamples.ChainBecomesCall`), and a second pass over the rewritten
  `(m + (a < b)) * ((c > d + e) / q)` adds a pair that turns the product into a
  sum (`CppExamples.SecondPassChangesMeaning`), although the tool's own text
  promises that it never mis-transforms and is idempotent.
  `CppTemplate.RewritePreservesMeaning` and `CppTemplate.SecondPassIff` state, for
  every expression the tool reads, exactly when that cannot happen;
  `CppTemplate.CalmNoHazard` and `CppTemplate.NoAngleNoHazard` give conditions
  that are easy to check.
* The rewriter's table puts `<=>` on the level of `<`, where C++20 has it one level
  tighter. `a < b <=> c` is then one chain to it, which gets no parentheses.
* `docs/actors.md:454` says a sender registers "if slot available"; the model
  follows the FIFO list of lines 258-263, 434-443 and 570-582 and of
  `src/ops_actor.inl:158-186`. The step list for selective receive
  (`docs/actors.md:538-548`) leaves out that a blocked sender is woken; the model
  follows `src/ops_actor.inl:697`.
* Time is a counter that may advance by any amount; nothing is claimed about
  fairness, since a fresh sender can take a slot ahead of a woken one.
* The CHIP-8 kernel trusts its caller to keep the stack pointer in 0..16; the
  model requires it and proves that every burst keeps it.
* The comment in `tetrix.cpp` says a piece can never rest below the field. A
  shape lying wholly above its anchor row falls past row 20 when uncapped
  (`TetrixPiece.CapCanDecide`); `TetrixPiece.GhostIsCappedDrop` says what the
  cap does for every shape.

`dafny verify dfyconfig.toml` checks the project.

## Model

| member | source | states |
|---|---|---|
| `CppSyntax.MatchPrint` | tools/cpp_style.py:240-249 | a token range matches a tree exactly if it is that tree's printing |
| `CppParser.ExprSound` | tools/cpp_style.py:273-310 | what a call with a given binding power returns spells the tokens consumed, ranks at least that power, and the next operator never binds tighter |
| `CppParser.LoopSound` | tools/cpp_style.py:275-310 | the operator loop keeps that for ternary, assignment and all binary levels |
| `CppParser.ParseSound` | tools/cpp_style.py:780-783 | a parsed token list is the printing of the tree, which is well-formed |
| `CppParser.ParsePrint` | tools/cpp_style.py:273-404 | over folded tokens, every well-formed tree is recovered from its printing, all tokens consumed |
| `CppRewrite.PrintInjective` | tools/cpp_style.py:273-310 | the grammar is unambiguous: two well-formed trees with one spelling are equal |
| `CppRewrite.WrapRank` | tools/cpp_style.py:538-558 | wrapping operands leaves the binding strength of every expression unchanged |
| `CppRewrite.WrapErase` | tools/cpp_style.py:538-558 | wrapping adds paren nodes only |
| `CppRewrite.WrapFixed` | tools/cpp_style.py:538-558 | wrapping changes nothing exactly if every operand already obeys the rule |
| `CppRewrite.RewriteReparses` | tools/cpp_style.py:760-800 | over folded tokens, the rewritten tokens parse to the wrapped tree, which is the original one once paren nodes are erased and obeys the rule |
| `CppRewrite.RewriteIdempotent` | tools/cpp_style.py:760-800 | over folded tokens, a second rewrite changes nothing |
| `CppRewrite.RewriteFixed` | tools/cpp_style.py:787-796 | a rewrite leaves the tokens alone exactly if the expression obeys the rule |
| `CppSplice.DecorateShape` | tools/cpp_style.py:240-310 | every node spans its tokens, and is flagged compound exactly if it is a binary or ternary expression |
| `CppSplice.CollectDecorate` | tools/cpp_style.py:302-309 | collecting over the flattened chains gives the same insertions as over the nested tree |
| `CppSplice.CollectDecorateWhole` | tools/cpp_style.py:787-791 | the same with the outer pair of a return value |
| `CppWeave.SpliceDeletes` | tools/cpp_style.py:561-584 | deleting the inserted characters gives back the source; only parentheses are inserted |
| `CppWeave.TailIsWeave` | tools/cpp_style.py:577-584 | splicing position by position from the right is the character-wise weave |
| `CppText.ExpandOutline` | tools/cpp_style.py:538-558 | parentheses counted per token spell the printing of the wrapped tree |
| `CppText.MarksOutline` | tools/cpp_style.py:538-558 | those counts are the bag of collected insertions |
| `CppText.SpliceRow` | tools/cpp_style.py:561-584 | splicing at offsets prints the counted parentheses around each token with every gap kept |
| `CppText.SplicePrintsWrapped` | tools/cpp_style.py:787-799 | offset counts and recursive printing give the same text, so inserted pairs nest |
| `CppText.InsertsNothing` | tools/cpp_style.py:787-793 | no insertion is collected exactly if the expression obeys the rule |
| `CppGrammar.PowersAreTiers` | tools/cpp_style.py:50-60 | the binding powers order the operators as the ten tiers do, tightest first |
| `CppGrammar.ParseIff` | tools/cpp_style.py:273-404 | for every token list and tree: the parser finds that tree exactly if it is one of the grammar, stated by tiers and associativity, and spells the tokens |
| `CppGrammar.ReadsIff` | tools/cpp_style.py:273-404 | the same for what the tool reads, template arguments folded in |
| `CppGrammar.TwoOperators` | tools/cpp_style.py:275-310 | of two operators in a row between any operands, the tighter takes the middle one, the left one within a tier |
| `CppGrammar.TwoOperatorsRewritten` | tools/cpp_style.py:538-558 | the rewrite puts the pair around the tighter operator and none within a tier; a return value gets an outer pair |
| `CppGrammar.HouseRuleIff` | tools/cpp_style.py:538-558 | the rule that wrapping enforces: no operand of a binary or ternary operator is itself one without parentheses, chains of one tier excepted |
| `CppGrammar.RewriteLeast` | tools/cpp_style.py:538-558 | of all trees that add parentheses to an expression, those that obey the rule are those that add at least the ones of the rewrite |
| `CppGrammar.RewriteMeaning` | tools/cpp_style.py:760-800 | the rewritten tokens spell the expression with those least parentheses, a tree of the grammar again, and are read so exactly if there is no hazard |
| `CppFold.FlatFold` | tools/cpp_style.py:460-491 | folding template arguments into their names loses no token |
| `CppFold.SpanLocal` | tools/cpp_style.py:460-532 | whether tokens are read as a name with its arguments depends on what follows them alone, and how |
| `CppFold.TemplateFlat` | tools/cpp_style.py:493-532 | the scan over folded tokens succeeds exactly if it does over what they were made of |
| `CppFold.FoldFlat` | tools/cpp_style.py:460-532 | tokens are read as a given folded list exactly if each of its tokens is stable: no name gains arguments, none loses or extends them |
| `CppScan.TemplateIff` | tools/cpp_style.py:493-532 | the scan succeeds exactly if its bracket is closed before any forbidden token, within 64 lexical tokens, and a parenthesis, brace or scope operator follows |
| `CppScan.SpanIff` | tools/cpp_style.py:460-532 | which tokens are read together with arguments, and how many |
| `CppScan.LexemesOfName` | tools/cpp_style.py:463-490 | a qualified name counts as its parts and scope operators |
| `CppScan.ScanLimit` | tools/cpp_style.py:506-511 | 64 tokens are read, 65 are not |
| `CppTemplate.CloseExpand` | tools/cpp_style.py:499-527 | added parentheses do not change which token closes a bracket |
| `CppTemplate.StableExpand` | tools/cpp_style.py:493-532 | a stable row stays so with its added parentheses exactly if it has no hazard: a `<` right after a name whose scan, parentheses counted, ends in time before an added parenthesis |
| `CppTemplate.OutlineNeat` | tools/cpp_style.py:538-558 | the rewrite never separates a member from its access operator or template arguments from what follows them |
| `CppTemplate.FoldRewritten` | tools/cpp_style.py:760-800 | the tokens of the rewritten text fold to the printing of the wrapped tree exactly if there is no hazard |
| `CppTemplate.GuessesIff` | tools/cpp_style.py:493-532 | where nothing was guessed before, something is guessed after the rewrite exactly if there is a hazard |
| `CppTemplate.RewritePreservesMeaning` | tools/cpp_style.py:760-800 | for every token list: what the tool reads as a tree it reads, after the rewrite, as the wrapped tree, equal to it once paren nodes are erased, exactly if there is no hazard |
| `CppTemplate.SecondPassIff` | tools/cpp_style.py:787-793 | a second pass inserts nothing exactly if there is no hazard, or what is read then cannot be parsed, or obeys the rule |
| `CppTemplate.SecondPassInsertsNothing` | tools/cpp_style.py:787-793 | without a hazard the rewritten tokens are read as the wrapped tree, nothing is inserted and nothing changes |
| `CppTemplate.CalmNoHazard` | tools/cpp_style.py:493-532 | without a compound right operand of `>` or `>>` there is no hazard |
| `CppTemplate.NoAngleNoHazard` | tools/cpp_style.py:493-532 | without a `>` or `>>` token nothing is guessed before or after |
| `CppExamples.ChainBecomesCall` | tools/cpp_style.py:493-532 | `a < b > c + d` is read as comparisons and its rewrite as a call, which obeys the rule |
| `CppExamples.SecondPassChangesMeaning` | tools/cpp_style.py:493-532 | over `(m + (a < b)) * ((c > d + e) / q)` a second pass inserts again, and the result is no product any more |
| `CppStyle.Parser.TryTemplate` | tools/cpp_style.py:493-532 | the scan loop succeeds exactly as specified, past the brackets if so and back at the `<` if not |
| `CppStyle.Parser.TakeName` | tools/cpp_style.py:460-491 | a name takes its arguments, and what the scope operator adds, exactly as folding does |
| `CppStyle.Parser.TakeMember` | tools/cpp_style.py:355-366 | the same for a member name, whatever token it is |
| `CppStyle.Parser.ParseExpr` | tools/cpp_style.py:273-310 | the climbing loop over the index returns, for every token list, the flattened node of the tree the functional parser finds in the folded tokens, same failures, same end |
| `CppStyle.Parser.ParseUnary` | tools/cpp_style.py:312-327 | the same for prefixes and keyword operators |
| `CppStyle.Parser.ParseParenGroup` | tools/cpp_style.py:329-334 | the same for a parenthesised group |
| `CppStyle.Parser.ParsePostfix` | tools/cpp_style.py:336-372 | the same for a primary and its suffixes, template arguments included |
| `CppStyle.Parser.ParseCallArgs` | tools/cpp_style.py:374-387 | the same for an argument list |
| `CppStyle.CollectWraps` | tools/cpp_style.py:538-558 | the recursion appends exactly the insertions of the node |
| `CppStyle.CountInserts` | tools/cpp_style.py:570-576 | the two dictionaries hold the multiplicities of the insertions |
| `CppStyle.ApplyInserts` | tools/cpp_style.py:561-584 | the right-to-left loop yields the woven text |
| `CppStyle.ComputeParen` | tools/cpp_style.py:779-799 | the whole pass over one expression: unchanged on a parse failure, else the woven text, template guesses included |
| `ActorInvariant.StepScheduled` | docs/actors.md:409-427 | every step, kills of any coroutine included, keeps queue membership tied to status and FlagBlocked |
| `ActorInvariant.StepLinked` | docs/actors.md:429-483 | every step keeps waiters blocked on their own mailbox, readers registered, occupancy in capacity, scans honest |
| `ActorInvariant.StepNoLost` | docs/actors.md:258-263 | every step but a kill keeps free slots spoken for by senders woken and not yet retried, and a kill does exactly if it is safe |
| `ActorHistory.StepHistory` | docs/actors.md:247-274 | every step keeps each message where its record says and each sender's messages in order |
| `ActorTheorems.RunConsistent` | docs/actors.md:403-582 | scheduler, waiter lists, message places and order are consistent at the end of every run, whoever is killed in it |
| `ActorInvariant.DieFacts` | src/ops_coroutine.inl:559-697 | who is where after a kill: the waiters of its mailbox runnable, its own registration gone, all else as before |
| `ActorInvariant.DieNoLostIff` | src/ops_coroutine.inl:618-697 | a kill keeps free slots spoken for exactly if it is safe |
| `ActorWakeups.CarefulIff` | docs/actors.md:258-263 | a run keeps every wakeup in all of its states exactly if each of its kills is safe where it happens |
| `ActorWakeups.KillLosesWakeup` | src/ops_coroutine.inl:1786-1803 | a run in which a woken sender is killed ends with the owner asleep on an empty mailbox, a sender asleep on it and nobody to run |
| `ActorWakeups.StandoffHasDueSender` | docs/actors.md:429-483 | in a careful run, an owner asleep on an empty mailbox with a sender parked on it implies a sender woken and not yet retried |
| `ActorWakeups.NoSilentStandoff` | docs/actors.md:429-483 | in a careful run such a state always has somebody to run |
| `ActorTheorems.ListedExactlyOnce` | docs/actors.md:409-427 | in the ready queue exactly once iff Ready, in the timer list exactly once iff asleep without FlagBlocked |
| `ActorTheorems.WakeBlockedIsWakeEach` | docs/actors.md:568-582 | waking blocked waiters in bulk equals waking each with the single-wake routine |
| `ActorTheorems.CleanupMaySkipTimers` | docs/actors.md:568-582 | in every reachable state death cleanup may skip the timer removal |
| `ActorTheorems.SelectiveTakesFirstMatch` | docs/actors.md:532-548 | the message removed is the first that satisfies the predicate, whatever arrived meanwhile; the others keep their order |
| `ActorTheorems.SleepingReceiverMissesNothing` | docs/actors.md:293-300 | a receiver asleep is registered and has no message it should have taken |
| `ActorTheorems.Conservation` | docs/actors.md:247-274 | each message is in exactly one of pending, queued, received or dropped, with its own sender and target |
| `ActorTheorems.NeverTwice` | docs/actors.md:271-274 | no message is queued twice or received twice |
| `ActorTheorems.MoveExplained` | docs/actors.md:457-463 | every move of every message has one of the listed reasons |
| `ActorTheorems.SentGoes` | src/ops_actor.inl:381-419 | a send queues the message at the end if there is room, drops it at a dead target, and leaves it pending otherwise; a target asleep in a receive is made ready, once |
| `ActorTheorems.PlaceForward` | docs/actors.md:457-463 | a step moves a message forward by one stage or not at all |
| `ActorTheorems.DroppedOnlyBy` | docs/actors.md:360-362 | messages are lost only by flush or death of the target, by death of the sender while pending, or by a retry at a dead target |
| `ActorTheorems.OccupancyBounded` | docs/actors.md:133-140 | occupancy never exceeds capacity |
| `ActorTheorems.PlainReceiveInOrder` | docs/actors.md:271-274 | plain receive delivers each sender's messages in send order and leaves no earlier one behind |
| `ActorReceives.ReceiveGoesOn` | src/ops_actor.inl:490-716 | in every reachable state a running coroutine inside a receive has exactly one step: take, give up when the deadline has come, try the next candidate, or sleep again |
| `ActorReceives.ReceiveStarts` | src/ops_actor.inl:472-655 | which steps start a receive on an empty mailbox and on one that holds something |
| `ActorReceives.DeadlineIsWakeTime` | docs/actors.md:487-500 | a timed receiver asleep has its deadline as wake time and can be expired exactly from that time on |
| `ActorReceives.TimedReceiveEnds` | docs/actors.md:494-500 | a timed receive ends by taking the oldest message, by death, or without a message on an empty mailbox once the deadline has come; until then the deadline stands |
| `ActorReceives.WokenIff` | docs/actors.md:403-443 | a sleeping coroutine is woken for exactly the listed reasons, the first waiting sender for a freed slot, and otherwise stays as it is |
| `ActorReceives.LifeGoesOn` | docs/actors.md:403-582 | the status and the continuation of every coroutine after every step, its own or another's |
| `ActorReceives.LifeBegins` | src/ops_actor.inl:288-330 | only a spawn creates a coroutine, ready to run its own code |
| `ActorReceives.RegisteredIff` | docs/actors.md:429-432 | a mailbox has its owner registered while that sleeps in a receive, and otherwise only until a timed one woken by its deadline looks again |
| `ActorReceives.SleepRunsItsTime` | src/ops_coroutine.inl:898-919 | a plain sleep is not cut short |
| `ActorReceives.SleepsUntil` | src/ops_coroutine.inl:1750-1758 | a sleeper can be expired exactly from its wake time on |
| `ActorReceives.LineMoves` | docs/actors.md:434-443 | senders join the line at its end and leave it at its head, all at once, or by being killed; nobody overtakes |
| `ActorReceives.CapacityStands` | docs/actors.md:133-140 | a mailbox starts empty and keeps the capacity it was made with |
| `ActorReceives.QuietIff` | src/ops_coroutine.inl:930-1022 | nobody runs, is ready or on a timer exactly if all are dead or asleep until somebody wakes them |
| `ActorReceives.QuietIsFinal` | src/ops_coroutine.inl:930-1022 | such a state changes only from outside, however long one waits |
| `ActorReceives.SomebodyGoesOn` | src/ops_coroutine.inl:930-1022 | in every other reachable state somebody can go on, at the latest when a timer expires |
| `ActorReceives.SendPossible` | src/ops_actor.inl:381-419 | a send is possible to every actor, living or dead |
| `ActorRuntime.MailboxRing.Push` | docs/actors.md:133-140 | the ring buffer gains the message at its end |
| `ActorRuntime.MailboxRing.Pop` | docs/actors.md:133-140 | the ring buffer loses its oldest message |
| `ActorRuntime.MailboxRing.RemoveIndex` | docs/actors.md:546-548 | shifting down around the ring removes exactly one message |
| `ActorRuntime.MailboxRing.Drain` | docs/actors.md:560-566 | the cleanup walk visits the queued messages in order |
| `ActorRuntime.Scheduler.CoroutineWake` | docs/actors.md:409-421 | the in-place routine is the wake step, a no-op on null and on anyone not asleep |
| `ActorRuntime.Scheduler.WakeBlockedSenders` | docs/actors.md:568-582 | the list walk wakes its sleepers in order and unthreads every node |
| `ActorRuntime.Scheduler.AppendBlockedSender` | src/ops_actor.inl:158-171 | walking to the tail and linking there appends the sender to the list |
| `ActorRuntime.Scheduler.WakeHeadSender` | src/ops_actor.inl:177-186 | the head leaves the list and is woken |
| `ActorRuntime.Scheduler.ScrubSender` | src/ops_coroutine.inl:569-587 | relinking around a dying sender leaves its list without it and all other links alone |
| `ActorRuntime.Scheduler.ScrubAll` | src/ops_coroutine.inl:559-590 | over all mailboxes the in-place walk is the scrub of the kill step |
| `ActorRuntime.WalkWakesAll` | docs/actors.md:568-582 | on a list of sleepers that walk wakes everyone |
| `Chip8Machine.DecodeWord` | chip8.cpp:212-218 | the nibbles and masks are those of the big-endian word |
| `Chip8Machine.ExecShaped` | chip8.cpp:295-563 | an instruction keeps sizes, stack bound, keys and mode |
| `Chip8Effects.DefersIff` | chip8.cpp:220-291 | which words are deferred in which states, and which wait for a key |
| `Chip8Effects.SkipEffect` | chip8.cpp:343-493 | 3XNN, 4XNN, 5XY0, 9XY0, EX9E, EXA1: the next program counter, all else unchanged |
| `Chip8Effects.JumpEffect` | chip8.cpp:303-434 | 1NNN, 2NNN, BNNN and 00EE: the whole state after them |
| `Chip8Effects.LoadEffect` | chip8.cpp:361-440 | 6XNN, 7XNN, ANNN and CXNN |
| `Chip8Effects.LogicEffect` | chip8.cpp:369-386 | 8XY0 to 8XY3 |
| `Chip8Effects.LogicBits` | chip8.cpp:376-386 | and, or and exclusive-or work bit by bit |
| `Chip8Effects.ArithmeticEffect` | chip8.cpp:387-416 | 8XY4 to 8XY7 and 8XYE: result modulo 256 in VX, then the flag in VF |
| `Chip8Effects.TimerEffect` | chip8.cpp:497-534 | FX07, FX15, FX18, FX1E, FX29 and FX30 |
| `Chip8Effects.KeyEffect` | chip8.cpp:501-509 | FX0A stores the least key that is down |
| `Chip8Effects.DigitsEffect` | chip8.cpp:536-542 | FX33 stores the decimal digits |
| `Chip8Effects.CopyEffect` | chip8.cpp:544-554 | FX55 and FX65 copy V0 to VX, touch nothing else and leave I |
| `Chip8Effects.ClearEffect` | chip8.cpp:297-333 | 00E0 clears the screen; other words of its row do nothing |
| `Chip8Effects.ScrollRightEffect` | chip8.cpp:306-312 | 00FB by row and column |
| `Chip8Effects.ScrollLeftEffect` | chip8.cpp:313-319 | 00FC by row and column |
| `Chip8Effects.ScrollDownEffect` | chip8.cpp:320-330 | 00CN by row and column |
| `Chip8Laws.DrawEffect` | chip8.cpp:442-484 | DXYN by row and column: the pixels a set sprite bit falls on are flipped, VF says whether one was lit |
| `Chip8Laws.SetThenCompare` | chip8.cpp:343-363 | after 6XNN, 3XNN always skips and 4XNN never |
| `Chip8Laws.CopyThenCompare` | chip8.cpp:355-426 | after 8XY0, 5XY0 always skips and 9XY0 never |
| `Chip8Laws.Opposites` | chip8.cpp:343-493 | of a skip and its opposite exactly one skips |
| `Chip8Laws.JumpFromZero` | chip8.cpp:333-434 | BNNN with V0 = 0 goes where 1NNN goes |
| `Chip8Laws.TimerReadsBack` | chip8.cpp:497-513 | FX15 then FY07 copies a register |
| `Chip8Laws.StoreThenLoad` | chip8.cpp:544-554 | FX55 and later FX65 bring V0 to VX back |
| `Chip8Laws.AddThenComplement` | chip8.cpp:365-367 | 7XNN and then the complement restores the register |
| `Chip8Laws.ScrollBack` | chip8.cpp:306-319 | scrolling right and then left keeps all columns but the last four |
| `Chip8Theorems.AluArithmetic` | chip8.cpp:387-416 | result and flag together carry the exact sum, difference or shift |
| `Chip8Theorems.ExecReport` | chip8.cpp:295-563 | no instruction reads the dirty or bell report and none clears it |
| `Chip8Theorems.CallSplit` | chip8.cpp:194-205 | a budget of a + b is a, then b from the resulting state if the first ended ok, reports or-ed, random stream threaded |
| `Chip8Theorems.CallIsSingles` | chip8.cpp:205-572 | any burst equals that many single-instruction calls, self-modifying code included |
| `Chip8Theorems.BurstExplained` | chip8.cpp:205-211 | each exit reason describes the state after the completed instructions |
| `Chip8Theorems.ExitContract` | chip8.cpp:565-581 | that description is the only one; ok iff all instructions complete; a retry after defer or key-wait repeats the exit and changes nothing |
| `Chip8Safety.StepInRange` | chip8.cpp:220-291 | program counter and stack slots stay in 0..4098, I in 16 bits, stack pointer in 0..16 |
| `Chip8Safety.AfterSafe` | chip8.cpp:297-563 | the same in every state of every run, the mode fixed, a changed screen reported, pixels 0 or 1 |
| `Chip8Safety.CallSafe` | chip8.cpp:194-205 | the same for whole calls, whichever way they end |
| `Chip8Safety.DeepSlotsKept` | chip8.cpp:337-341 | slots below the least depth reached are never written |
| `Chip8Safety.ReturnResumes` | chip8.cpp:303-305 | the instruction that first brings the depth back to a CALL's is a RET and resumes right after that CALL |
| `Chip8Sprite.SpriteIsCover` | chip8.cpp:447-482 | in both modes the wrapped cells are pairwise distinct and are exactly the covered ones |
| `Chip8Sprite.DrawMeaning` | chip8.cpp:442-484 | a draw flips exactly the covered cells, all on the active screen; VF is 1 iff a covered cell was lit before |
| `Chip8Sprite.DrawTwice` | chip8.cpp:442-484 | the same sprite at the same position again restores the screen |
| `Chip8Sprite.DrawInstructionTwice` | chip8.cpp:442-484 | the same for a repeated instruction whose position registers are not VF |
| `Chip8Kernel.ScreenRight` | chip8.cpp:306-312 | the row loop of moves and fills is the scroll |
| `Chip8Kernel.ScreenLeft` | chip8.cpp:313-319 | the same to the left |
| `Chip8Kernel.ScreenDown` | chip8.cpp:320-330 | the overlapping move is the scroll down, all rows included |
| `Chip8Kernel.NarrowSprite` | chip8.cpp:469-482 | the nested loops toggle the sprite's cells in order and note hits |
| `Chip8Kernel.WideSprite` | chip8.cpp:446-468 | the same for the 16x16 sprite |
| `Chip8Kernel.Cpu.Screen` | chip8.cpp:220-291 | the screening defers exactly the instructions left to the reference |
| `Chip8Kernel.Cpu.constructor` | chip8.cpp:184-196 | the kernel over given buffers and scalars stands for that machine |
| `Chip8Kernel.Cpu.OneTurn` | chip8.cpp:205-572 | a turn of the loop in place is one step |
| `Chip8Kernel.Cpu.StepFast` | chip8.cpp:167-587 | the in-place kernel computes the call's state, count and reason; a budget below one is refused untouched |
| `TetrixField.ClearTwice` | tetrix.cpp:489-530 | after clearing there is no full row and a second clearing changes nothing |
| `TetrixField.ClearConserves` | tetrix.cpp:489-530 | each cleared row takes ten cells with it and nothing else is lost |
| `TetrixField.ClearDrops` | tetrix.cpp:489-530 | a row that is not full comes down by the number of full rows below it; the rows on top are empty |
| `TetrixField.Pack` | tetrix.cpp:496-520 | the two-pointer scan leaves the surviving rows in order at the bottom |
| `TetrixField.ClearRows` | tetrix.cpp:481-539 | in place: zero rows, then the rows not full in order; the count is the number of full rows |
| `TetrixPiece.PieceCollides` | tetrix.cpp:314-353 | true iff some cell of the piece is outside the 20 by 10 field or on an occupied one |
| `TetrixPiece.MergeCells` | tetrix.cpp:376-391 | merging paints the piece's cells inside the field and no other |
| `TetrixPiece.PieceMerge` | tetrix.cpp:358-395 | the in-place loop is that merge |
| `TetrixPiece.MergeCounts` | tetrix.cpp:376-391 | a fitting piece of distinct cells adds its cells and completes at most one row per cell |
| `TetrixPiece.GhostRow` | tetrix.cpp:406-465 | the loop returns the drop's row |
| `TetrixPiece.GhostStops` | tetrix.cpp:429-457 | every row passed is free and the next collides unless the cap was reached |
| `TetrixPiece.GhostIsCappedDrop` | tetrix.cpp:426-457 | the answer is the uncapped one cut off at row 20 or at the start |
| `TetrixPiece.CapDecidesNothingIff` | tetrix.cpp:426-457 | the cap changes nothing exactly if some row from the start to one past the cap collides |
| `TetrixPiece.CapNeverDecides` | tetrix.cpp:426-457 | with a cell at or below the anchor and a start above row 20 the cap changes nothing |
| `TetrixPiece.CapCanDecide` | tetrix.cpp:426-457 | a shape wholly above its anchor for which it does |
| `TetrixGame.PlayBalanced` | tetrix.cpp:489-530 | a piece keeps cells = 4 pieces - 10 lines, leaves no full row, clears at most four |
| `TetrixGame.PieceRests` | tetrix.cpp:358-465 | a piece is painted where it first cannot go lower, every row on the way free, and no other cell changes |
| `TetrixGame.GameBalanced` | tetrix.cpp:329-530 | the same over every game from the empty field |
| `TetrixGame.LinesKeepPace` | tetrix.cpp:329-530 | 4 pieces - 180 <= 10 lines <= 4 pieces in every game |
| `TetrixGame.PlayMove` | tetrix.cpp:314-539 | the four kernels in sequence play that move in memory |
| `TetrixScore.HeightSplits` | tetrix.cpp:223-256 | a column is as high as its blocks and holes together |
| `TetrixScore.TotalHeight` | tetrix.cpp:236-256 | total height = filled cells + holes, counted by rows |
| `TetrixScore.HolesBelowTop` | tetrix.cpp:242-256 | holes are the gaps in the rows the pass scans |
| `TetrixScore.WellsBound` | tetrix.cpp:268-280 | neighbouring columns are never both wells, so wells <= 100 |
| `TetrixScore.FeatureBounds` | tetrix.cpp:223-280 | height <= 200, holes <= 190, bumpiness <= 180, wells <= 100 |
| `TetrixScore.ScoreIsExact` | tetrix.cpp:282-305 | a score that comes back is the exact integer sum, for any weights and lines |
| `TetrixScore.ScoreFits` | tetrix.cpp:282-305 | for weights up to 3,186,177 and 0..4 lines overflow cannot fire and the score is the exact sum |
| `TetrixShape.CoveredCount` | tetrix.cpp:223-240 | total height is the number of cells at or below a block |
| `TetrixShape.HollowCount` | tetrix.cpp:242-256 | holes are the empty cells with a block above |
| `TetrixShape.LedgeCount` | tetrix.cpp:258-266 | bumpiness is the number of rows and neighbouring columns of which exactly one is covered there |
| `TetrixShape.ShaftCount` | tetrix.cpp:268-280 | wells are the open cells between two covered ones, walls counting as covered, in columns with at least two |
| `TetrixShape.ScoreMeaning` | tetrix.cpp:282-305 | the score is the weighted sum of these counts if every term and partial sum fits the integer type, and an overflow otherwise |
| `TetrixScore.ScoreBoard` | tetrix.cpp:183-308 | the five passes compute the features and their checked combination |
| `QuetzalMemory.DecodeCoded` | examples/zmachine/quetzal-check.py:65-79 | however zero runs are split, decoding gives the difference |
| `QuetzalMemory.DecodedIsCoded` | examples/zmachine/quetzal-check.py:65-79 | every payload not cut inside a pair is such a coding of what it decodes to |
| `QuetzalMemory.MemoryRoundTrip` | examples/zmachine/quetzal-check.py:80-86 | against the dynamic memory that the header bytes of the story delimit, every coding, with or without trailing zeros, decodes to the saved memory without a problem |
| `QuetzalMemory.MemoryOnlyFromCoding` | examples/zmachine/quetzal-check.py:80-86 | memory returned without a problem is as long as that dynamic memory and is coded by the payload |
| `QuetzalMemory.CutIff` | examples/zmachine/quetzal-check.py:68-76 | a payload is cut exactly if it is no coding at all |
| `QuetzalMemory.MemoryProblems` | examples/zmachine/quetzal-check.py:71-84 | which problem is reported: no coding, or a coding of more bytes than dynamic memory |
| `QuetzalBytes.BeSpelled` | examples/zmachine/quetzal-check.py:27-28 | two, three and four bytes, most significant first |
| `QuetzalMemory.DecodeCmem` | examples/zmachine/quetzal-check.py:65-86 | the loop computes that, problems included |
| `QuetzalChunks.WalkImages` | examples/zmachine/quetzal-check.py:31-45 | walking any list of even-padded chunks returns exactly that list, final padding present or not |
| `QuetzalChunks.WalkedIsImages` | examples/zmachine/quetzal-check.py:31-45 | a walk without problems has read such a list |
| `QuetzalChunks.WalkFails` | examples/zmachine/quetzal-check.py:34-42 | a walk with a problem has one, for the first chunk that does not fit, and returns those before it |
| `QuetzalChunks.ParseChunks` | examples/zmachine/quetzal-check.py:31-45 | the loop is that walk, both failures included |
| `QuetzalStacks.PassesIff` | examples/zmachine/quetzal-check.py:89-123 | no problem is reported exactly if the payload is one or more legal frames, the dummy frame first |
| `QuetzalStacks.ProblemsIff` | examples/zmachine/quetzal-check.py:89-123 | each problem is reported exactly if the bytes of its frame show it |
| `QuetzalStacks.ReportIs` | examples/zmachine/quetzal-check.py:89-123 | the report is the one list of them, frame by frame |
| `QuetzalStacks.CheckStks` | examples/zmachine/quetzal-check.py:89-123 | the loop reports the problems of the scan, in order |

## Left out

- Rewriter: braces, lambdas, preprocessor lines and the `(void)` rule; a qualified name is one atom, and a named cast is read as a call, which the source restricts to one argument.
- Rewriter: the character-level tokenizer and the search for contexts; a text comes with its tokens and their offsets, and one expression is rewritten at a time.
- CppParser.ParsePrint: about tokens with template arguments folded in; `CppGrammar.ReadsIff` adds the folding.
- CppRewrite.RewriteReparses: about tokens with template arguments folded in.
- CppRewrite.RewriteIdempotent: about tokens with template arguments folded in; `CppTemplate.SecondPassIff` is about what the tool reads.
- CppStyle.Parser.ParsePostfix: has no rule for braces, and reads a named cast as a call.
- CppStyle.ComputeParen: one context whose tokens are given; the source repeats it over the contexts of a file and splices them together.
- CppTemplate.SecondPassIff: is about the tokens of the rewritten text, because reading tokens off characters is not modelled.
- Actors: sends to something that is not an actor, try-send, broadcast, selective receive with a timeout, names, monitors and status queries.
- Actors: suspension, priorities, joiners, pipes, mailbox and context pooling, garbage collection, save and restore, and the poll that maps real time to the timer list.
- Actors: a predicate of selective receive is pure, and a message that save and restore would invalidate is not refused.
- Chip8Kernel.Cpu.constructor: requires a stack pointer in 0..16, which the source does not check.
- Chip8Kernel.Cpu.StepFast: does not model type, length and access errors of the operands or a non-integer stack slot, and requires a stack pointer in 0..16.
- CHIP-8: integers are unbounded; `Chip8Safety.AfterSafe` shows that the scalars stay far inside 32 bits.
- TetrixField.ClearRows: requires the 20 rows to be distinct arrays, and cells to be integers.
- TetrixField.Pack: requires the 20 rows to be distinct arrays.
- TetrixPiece.PieceMerge: requires the 20 rows to be distinct arrays.
- TetrixGame.PlayMove: requires the 20 rows to be distinct arrays.
- Tetris: copying a field, and the script that calls the kernels.
- Quetzal: the header chunk, the outer form and the verdict of the main program, which only combine the parts modelled here.
- The Trix engine behind `trix.h`, the `.trx` reference programs, option handling, fuzz harnesses, benchmarks and generators.
