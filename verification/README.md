# Eggdrop: models and proofs

This project models the parts of the eggdrop IRC bot whose correctness is hardest to see from the
code: the replicated botnet topology, the relay of party-line users, the lock-free log writer, the
coalescing file writer, the database mirror of the user list, wildcard and address matching, and the
codecs of the botnet protocol. The properties are proved for all inputs, all reachable states or all
runs of the model; a few lemmas beside them are instances and say so. `dafny verify dfyconfig.toml` checks everything.

## How the model is laid out

| files | what they model |
|---|---|
| `Forest`, `Renaming`, `PartyLine`, `BotnetState` | one bot's linked list of bots with its index and counter, the party-line array, and every handler that changes them, in place |
| `BotProtocol`, `LinkTree`, `Network`, `Joining`, `Losing`, `Histories`, `Replaying`, `Shares` | a whole network of bots exchanging `n` and `un` lines over FIFO links, and how one bot's handlers take part in it |
| `DccPairs`, `Relays`, `DccTable` | the connection table, its socket cache, and the relay state machine with its runs |
| `LogFiles`, `AsyncLog`, `LogWriter`, `LogCalls`, `LogPlaces` | the two threads of the log writer in atomic steps, the writer's own code, what becomes of the lines of each call, and which file they go to |
| `Coalesce` | the per-path slots of the background file writer |
| `Keys`, `UserStore` | the ordered key/value store and both ways of saving the user list |
| `Buffers`, `Regex`, `Wildcards`, `Matching`, `LetterCase`, `Cutting`, `Pieces`, `LineEnds` | IRC wildcards, their translation to a regular expression, the engine that runs it, what it does with letters and single wildcards, what cutting a pattern does, and subjects of several lines |
| `Blocks`, `HostMasks`, `MaskAnswers`, `MaskCode` | address prefixes, the scores of two hosts, what the mask comparisons answer told from the texts, and their code |
| `Base64`, `FlagText`, `FlagPlaces`, `FlagReader` | the base-64 numbers and the flag text of the botnet protocol and the user file: the printer, what a text means place by place, and the reader |

Objects the program updates in place are classes whose methods are proved against functions of the
old state; protocols between threads or bots are state machines with an invariant over every run.

## What the proofs found

- A bot that loses or gains a link always ends with every bot's list equal to its component's tree,
  whatever the delivery order, provided no second link event happens meanwhile (`JoinConverges`,
  `LossConverges`, `AlwaysTheTree`).
- `async_log_destroy` never returns when the stop sentinel cannot be allocated, and this is the only
  way a call can block forever (`StuckOnlyWithoutSentinel`, `JoinsForever`, `DestroyCanHang`).
- `async_log_flush` is a barrier if and only if its command could be allocated; otherwise it returns at
  once, possibly with every earlier command still queued (`FlushBarrier`, `FlushCanSkip`).
- Once all that was sent is executed, as after every flush that found memory, every line a log slot was
  called with is in its file if and only if the command of each of its writes found memory, and each
  write that found the slot not recorded open came with a path that could be copied and opened
  (`EveryLineArrivesIff`, `AfterFlushIff`). A slot is recorded open although the copy of its path could
  not be made (`LostCopySkipsLines`), and `putlog` passes no path with the line that follows a repeat
  notice, so that both are lost when the notice's command found no memory (`NoticeDroppedLosesLine`).
- The queue depth of the log can be read as -1, exactly while a command is drained that was pushed and
  not yet counted (`DepthNegativeIff`, `DepthCanBeNegative`).
- After the worker pool is down, a write asked for while a completion with a waiting buffer is still
  due is overwritten by the older buffer; the guard "no buffer waits" is exact (`LateWriteInOrderIff`).
- The incremental save agrees with the full rebuild if and only if the tables were in sync
  (`BranchesAgree`). Changes of the list that mark whom they change keep the sync if and only if the
  tables hold nothing of the handles no longer listed (`EditsKeepSyncIff`). `change_handle` marks the
  user but leaves the records of the old handle behind: after a save, a rename breaks the mirror until
  the next rebuild (`RenameKeepsSyncIff`, `RenameIsForgotten`). `deluser` leaves the records of the
  user it drops (`ForgottenUserStays`). A change that is not marked, such as the highlight flag set by
  `.strip` or the owner flag set from the configuration, breaks the sync if and only if it changes what
  would be stored (`UnmarkedEditIff`). A full rebuild whose commit fails is not asked for again
  (`FailedRebuildIsForgotten`).
- The comment above `irc_to_ere` promises -1 for a pattern that does not fit; the code cuts the pattern
  silently. In plain mode the cut pattern keeps its meaning if and only if only stars were cut and what
  is kept ends in a star followed by nothing but stars and question marks (`TranslationFaithfulIff`);
  `CutMeaning` covers both modes, each way by a condition of its own.
- The end anchor of the engine also holds before a newline. The uncut expression of every pattern says
  of a subject what the pattern means if and only if the subject has no newline (`MeaningIffOneLine`).
  Of the patterns that fit the buffer, the plain matcher answers each as it means if and only if every
  newline stands at the very start or behind the first 1022 characters, and then what precedes it ends
  like the whole subject as far as such a pattern can see (`AnswersMeanIff`).
- `mask_match` depends on the order of its arguments if and only if a mask with a number larger than its
  address is long is set against that same address without a number (`MaskMatchOrderIff`).
- A mask accepts every address of its family if and only if its number is read as less than 1: because it
  is 0, or because it does not fit an int and wraps (`AcceptsFamilyIff`, `VanishesIff`).
- The overflow guard of `base64_to_int` refuses some values below INT_MAX; the smallest is 2147479679
  (`FirstCasualty`).
- `break_down_flags` gives back AND only between global and channel flags (`FlagText.RoundTrip`).
- A bot name is split back from a printed line if and only if it has no blank (`FirstWordIff`). A name
  that came in a line never has one; only the nick of a link itself is not taken from a line.

## Model

| member | source | states |
|---|---|---|
| BotnetState.Botnet.AddBot | src/botnet.c:72-98 | a new bot goes to the tail of the list, its parent and first hop looked up by name, the index maps its name to it and the counter grows by one |
| BotnetState.Botnet.RemBot | src/botnet.c:270-302 | exactly the entry of that name leaves list, index and counter together; an unknown name changes nothing |
| BotnetState.Botnet.UnVia | src/botnet.c:342-359 | terminates although it removes entries from the list it walks, removes exactly the proper descendants, keeps the survivors in order, and removes exactly the people on the bot and below |
| BotnetState.Botnet.DropBot | src/botnet.c:350-358 | the recursive step removes one child's whole subtree and leaves the walk at the right next entry |
| BotnetState.Botnet.Unlink | src/botcmd.c:682-683 | `unvia` followed by `rembot` is pruning the named subtree from the list and its people from the party line |
| BotnetState.Botnet.BotsInSubtree | src/botnet.c:793-806 | the recursive count is the number of bots at and below an entry |
| BotnetState.Botnet.UsersInSubtree | src/botnet.c:808-820 | the recursive count is the number of people at and below an entry |
| BotnetState.Botnet.EofDccBot | src/dcc.c:560-577 | the numbers announced beforehand are exactly what counter and party line lose; the list loses the link's subtree and the other links are told |
| BotnetState.Botnet.LostDcc | src/dcc.c:481-488 | freeing an established link entry prunes the peer's subtree and its people |
| BotnetState.Botnet.NextBotIdx | src/botnet.c:363-376 | the answer is the first link to the first hop of the named bot, or -1 exactly when there is none |
| BotnetState.Botnet.SendTandBut | src/botmsg.c:182-196 | every link but one gets the line appended, nothing else changes |
| BotnetState.Botnet.BotnetSend | src/botmsg.c:313-333 | topology lines go out only when there are bots |
| BotnetState.Botnet.DumpLinks | src/botnet.c:716-728 | the whole list is sent in list order, each bot with the name of its parent |
| BotnetState.Botnet.BotVersion | src/dcc.c:249-299 | a new direct link is listed as a child of the bot itself, announced and given the list as it was before, or refused exactly when known, the bot itself, or of another handle length |
| BotnetState.Botnet.Believable | src/botcmd.c:589-633 | an announcement passes exactly when the link is no leaf, the parent is named, the new name is neither mine nor listed and has at most 32 characters, each from 32 to 126, and the first link to the parent's first hop is this one |
| BotnetState.Botnet.BotNlinked | src/botcmd.c:589-669 | the line is accepted exactly under those conditions, told from the list, the links and the two words of the line; accepted, it is forwarded and the bot listed behind the sender; refused, the sender is cut off with all below it |
| BotnetState.Botnet.BotUnlinked | src/botcmd.c:672-686 | the bot and all below it are pruned and the line forwarded exactly when this is the first link to the bot's first hop; otherwise nothing changes; as the protocol's `Handle` says |
| BotnetState.WhoGoes | src/botnet.c:808-820 | somebody counts as being on or below a bot exactly when their bot is that one or a descendant of it, and stays when it is pruned exactly when not |
| BotnetState.FirstWordPresent | src/misc.c:391-412 | an empty first word means nothing follows, so no bot with an empty name is ever listed |
| Renaming.ViewPrune | src/botnet.c:342-359 | pruning by address and pruning by name describe the same lists |
| Renaming.ViewAppend | src/botnet.c:72-98 | appending by address and appending by name describe the same lists |
| Forest.ViaIsTopmost | src/botnet.c:91-97 | in every list the guarded operations can build, the stored first hop is the topmost ancestor on the parent chain |
| Forest.ParentEarlier | src/botnet.c:72-98 | parents precede children, hence the parent chain ends |
| Forest.WithoutLength | src/botnet.c:270-302 | removing a set of listed entries shortens the list by exactly its size |
| Forest.DescLeast | src/botnet.c:342-359 | the descendants are the smallest set closed under the parent relation |
| PartyLine.PartyLine.AddParty | src/botnet.c:133-184 | a known member only changes channel and time, a new one is added, and the array grows when full; keys stay distinct |
| PartyLine.PartyLine.RemParty | src/botnet.c:304-325 | exactly the member with that bot and socket is removed by moving the last one over it |
| PartyLine.PartyLine.RemPartyBot | src/botnet.c:329-338 | exactly the members of one bot are removed |
| BotProtocol.LookupFinds | src/botnet.c:63-68 | looking a listed name up finds its entry |
| BotProtocol.NextBotIs | src/botnet.c:363-376 | the direction of a listed bot is its stored first hop |
| LinkTree.MatchesIsComponent | src/botcmd.c:589-686 | a list that matches the links names exactly the bots reachable over links |
| LinkTree.FirstHopIsParent | src/botcmd.c:615-617 | the neighbour through which one bot reaches another is its parent in the other's tree |
| Network.DeliverAccepted | src/botcmd.c:589-686 | during a wave every possible delivery is of the line that is due, and is accepted |
| Network.DeliverDuring | src/botcmd.c:589-686 | any delivery keeps the invariant of the wave and moves one receiver on by one line |
| Network.QuietMeansDone | src/botcmd.c:589-686 | when no line is under way, every bot has taken all lines of the wave |
| Joining.GraftHandled | src/botcmd.c:589-661 | each line of a join is accepted by every bot it reaches and grafts one more bot |
| Joining.GraftMatches | src/botnet.c:716-728 | the grafted list is the tree of the joined component |
| Joining.JoinConverges | src/botcmd.c:589-669 | after a link joins two components, all delivery orders end, without a refusal, with every list equal to its component's tree rooted at itself |
| Losing.LossConverges | src/botcmd.c:672-686 | the same after a link is lost |
| Histories.AlwaysTheTree | src/dcc.c:284-292 | over every history of settled link events, from bots that know nobody, every list is its component's tree and no line is ever refused |
| Histories.NeverStuck | src/botmsg.c:182-196 | as long as a line is under way, some delivery is possible |
| Replaying.DumpReplays | src/botnet.c:716-728 | replaying a list to the new neighbour is accepted line by line if and only if no listed bot is known there, and then adds the sender's whole tree in order, each first hop the sender |
| Replaying.GraftedBelow | src/botcmd.c:589-661 | in the result the bots below the sender are exactly those of the sender's list |
| Shares.FirstWordIff | src/misc.c:391-412 | a non-empty name at the front of a line is split off as it was if and only if it has no blank |
| Shares.SplitEdges | src/misc.c:391-412 | blanks at the front are skipped, and a word alone leaves nothing behind it |
| Shares.LineReads | src/botmsg.c:313-333 | a printed `n` or `un` line is split back into its names |
| Shares.TakesLine | src/botcmd.c:589-686 | handling a printed line that is accepted does to this bot's view and outgoing queues what the network's delivery does |
| Shares.SeesLinkUp | src/dcc.c:249-299 | a new link introducing itself is this bot's share of the link coming up |
| Shares.SeesLinkLost | src/dcc.c:560-577 | the end of a link is this bot's share of its loss |
| Shares.BystanderDelivered | src/botmsg.c:182-196 | a delivery to one bot leaves every other bot's share as it was |
| Shares.BystanderLinks | src/dcc.c:284-292 | a link event leaves the share of bots at neither end as it was |
| Shares.LinkUpEitherWay | src/dcc.c:284-292 | it does not matter which end of a new link is named first |
| DccPairs.OneFarEnd | src/botnet.c:1215-1234 | each waiting or relayed user has exactly one far end |
| DccPairs.OneUserEnd | src/botnet.c:1305-1313 | each far end has exactly one user |
| DccPairs.RewritePair | src/botnet.c:1048-1072 | ending or switching one relay leaves all others intact |
| DccPairs.StartPair | src/botnet.c:1080-1149 | a new relay pairs the user with the fresh socket and leaves all others intact |
| Relays.StepKeeps | src/botnet.c:1048-1484 | every step, of a relay or of any other connection, keeps both ends of every relay paired and sockets different |
| Relays.AlwaysSound | src/botnet.c:1048-1484 | so does every run from the empty table; each method below that changes the table does so by such steps |
| Relays.UserComesBack | src/botnet.c:1137-1358 | over every run, a user whose connection lasts is on the party line or in a relay, and back on the party line it has the status it left with |
| DccTable.DccTable.DccMapSet | src/dccutil.c:70-75 | the cache changes for one in-range socket |
| DccTable.DccTable.DccMapClear | src/dccutil.c:78-82 | the cache forgets one socket |
| DccTable.DccTable.FindAnyIdx | src/dccutil.c:155-171 | for any cache contents, even stale, an entry with that socket is returned if and only if there is one, and the cache then points at it |
| DccTable.DccTable.FindIdx | src/dccutil.c:136-153 | the same among entries of the kinds that may be written to: party line, resolving, and others flagged so |
| DccTable.DccTable.LostDcc | src/dccutil.c:373-401 | an entry is marked as lost |
| DccTable.DccTable.RemoveDcc | src/dccutil.c:410-431 | the last entry takes the removed one's place |
| DccTable.DccTable.DccRemoveLost | src/dccutil.c:457-467 | terminates although it steps back, leaves exactly the multiset of entries that are not lost, and keeps the relay pairing |
| DccTable.DccTable.FindAfterRemoval | src/dccutil.c:155-171 | after the clean-up every remaining connection is still found by its socket |
| DccTable.DccTable.TandemRelay | src/botnet.c:1080-1149 | starting a relay pairs user and far end, or changes nothing but a lost entry |
| DccTable.DccTable.FailedTandemRelay | src/botnet.c:1048-1072 | the one waiting user is back on the party line with its status, the far end is lost |
| DccTable.DccTable.ResolveFailure | src/botnet.c:1151-1176 | the same when the name does not resolve |
| DccTable.DccTable.ResolveSuccess | src/botnet.c:1178-1211 | the far end starts connecting, still paired |
| DccTable.DccTable.FindFarEnd | src/botnet.c:1215-1234 | the two searches always find the user's own far end |
| DccTable.DccTable.PreRelayInput | src/botnet.c:1215-1257 | only "*bye*" ends the attempt, and only that one |
| DccTable.DccTable.FailedPreRelay | src/botnet.c:1261-1303 | both ends of one relay go, no other entry changes |
| DccTable.DccTable.ContTandemRelay | src/botnet.c:1305-1344 | both ends switch to relaying and name each other's sockets |
| DccTable.DccTable.EofDccRelay | src/botnet.c:1346-1380 | the user whose far end closed is back on the party line |
| DccTable.DccTable.EofDccRelaying | src/botnet.c:1382-1395 | the search without a bound stops inside the table at the user's own far end |
| DccTable.DccTable.DccRelay | src/botnet.c:1397-1402 | the search without a bound stops inside the table at the relayed user |
| DccTable.DccTable.DccRelaying | src/botnet.c:1450-1484 | the search without a bound stops inside the table at the far end, which is dropped |
| DccTable.DccTable.NewDcc | src/dccutil.c:607-623 | a new connection on a fresh socket keeps the pairing; a table that cannot grow refuses it and stays as it was |
| DccTable.DccTable.LoseOther | src/dccutil.c:373-401 | giving up a connection that is no end of a relay keeps the pairing |
| DccTable.DccTable.ChangeStatus | src/cmds.c:2643-2660 | a change of status bits keeps the pairing |
| LogFiles.NoLineSkipped | src/async_log.c:149-180 | of the commands that are queued, every line of a slot reaches its file in order if and only if every write that found the slot not recorded open came with a path that could be copied and opened |
| LogFiles.LostCopySkipsLines | src/async_log.c:280-284 | an instance: a path that cannot be copied loses this line and the next although the caller did its part |
| LogFiles.FlushSyncs | src/async_log.c:204-212 | a flush leaves nothing in any buffer |
| LogCalls.RunQueues | src/async_log.c:267-301 | over every run the write and close commands sent, and the one under way, are those of the calls that found memory, in the order of the calls |
| LogCalls.EveryLineArrivesIff | src/async_log.c:267-301 | over every run, once all that was sent is executed, every line a slot was called with is in its file in order if and only if each of its writes was queued, and each that found the slot not recorded open came with a path that could be copied and opened |
| LogCalls.AfterFlushIff | src/async_log.c:303-320 | the same right after every flush whose command was allocated |
| LogPlaces.LinesInTheirFiles | src/async_log.c:151-180 | over every run the lines recorded for a slot stand, in order, for writes to it, each paired with the path of the write that opened the slot last before it, and no write that found its slot open, or opened it, is missing |
| LogPlaces.FileOpen | src/async_log.c:151-159 | a slot's open file is the path of the first write that could open it since the start or the last close; a path passed while it is open changes nothing |
| LogCalls.NoticeDroppedLosesLine | src/misc.c:764-775 | after a repeat notice on a slot not recorded open, the line itself arrives if and only if both commands were queued; the record then tells whether the notice was |
| AsyncLog.SameAsSynchronous | src/async_log.c:110-236 | in every reachable state the files hold what running the executed commands synchronously gives, these are the first ones sent, and all of them once the writer is gone |
| AsyncLog.ExitClosesAll | src/async_log.c:231-233 | when the writer is gone every file is closed and no line is left in a buffer |
| AsyncLog.StepKeeps | src/async_log.c:110-338 | every atomic step of either thread keeps the whole invariant |
| AsyncLog.FlushBarrier | src/async_log.c:303-320 | over all returns from a flush: that every earlier command was executed and no line is left in a buffer is guaranteed if and only if the flush command was allocated |
| AsyncLog.OnlyReturns | src/async_log.c:303-320 | a flush returns when it was acknowledged or when its command could not be allocated, and in no other way |
| AsyncLog.AllocatedFlush | src/async_log.c:315-319 | an acknowledged flush returns with every earlier command executed and no line in a buffer |
| AsyncLog.UnallocatedFlush | src/async_log.c:307-310 | a flush without memory pushes, executes and syncs nothing |
| AsyncLog.FlushCanSkip | src/async_log.c:309-310 | for every number of slots such a flush can return while an earlier command is still queued |
| AsyncLog.WakeupDue | src/async_log.c:186-192 | the writer sleeps on a queued command only while the signal for it is still to come |
| AsyncLog.StuckOnlyWithoutSentinel | src/async_log.c:322-338 | inside a call both threads are blocked exactly when a destroy could not allocate its sentinel |
| AsyncLog.JoinsForever | src/async_log.c:329-336 | such a destroy never returns, whatever steps follow |
| AsyncLog.DestroyCanHang | src/async_log.c:329-336 | such a state is reachable |
| AsyncLog.GenuineStepsEnd | src/async_log.c:186-338 | every step that is not a spurious failure or wake-up brings the call in progress nearer to its end |
| AsyncLog.CallsReturn | src/async_log.c:186-338 | until the next call the threads take a bounded number of steps, up to a constant per spurious one; where neither can go on, the call has returned or is a destroy that missed its sentinel |
| AsyncLog.QueueAccounting | src/async_log.c:119-146 | at every step the depth is the stack length short of a push not yet counted and long of a drain not yet subtracted; the high-water mark never falls and covers every completed push |
| AsyncLog.DepthNegativeIff | src/async_log.c:119-146 | the depth is below zero, and then -1, exactly while the one command pushed and not yet counted has been drained and subtracted |
| AsyncLog.DepthCanBeNegative | src/async_log.c:119-146 | that state is reachable |
| LogWriter.StackDrain | src/async_log.c:130-147 | reversing the drained stack gives the order of submission and its length |
| LogWriter.SlotFiles.WriterOpen | src/async_log.c:151-159 | a closed slot is opened when a path came along |
| LogWriter.SlotFiles.WriterWrite | src/async_log.c:161-171 | the synchronous meaning of a write command |
| LogWriter.SlotFiles.WriterClose | src/async_log.c:173-180 | the synchronous meaning of a close command |
| LogWriter.SlotFiles.FlushFiles | src/async_log.c:206-207 | the synchronous meaning of a flush command |
| LogWriter.SlotFiles.Execute | src/async_log.c:193-217 | a drained chain is executed in order, and tells of a stop sentinel |
| LogWriter.SlotFiles.CloseFiles | src/async_log.c:231-233 | when the writer ends every file is flushed and closed |
| Coalesce.RunKeeps | src/async_fileio.c:146-306 | over every run in which no write is asked for while the pool is down and a buffer still waits for its path: one write at a time, a waiting buffer only behind one in flight, whole submissions renamed in order, every buffer held or released exactly once |
| Coalesce.SubmitKeeps | src/async_fileio.c:263-306 | a submission keeps all this if the pool is up or no buffer waits |
| Coalesce.WorkKeeps | src/async_fileio.c:170-204 | every step of a worker, short writes and interruptions included, keeps all this |
| Coalesce.DoneKeeps | src/async_fileio.c:206-229 | a completion keeps all this and launches the waiting buffer |
| Coalesce.IdleHoldsLatest | src/async_fileio.c:206-229 | over the same runs, an idle path whose last write succeeded holds the last submission; no buffer is released twice, and every one once the path is idle |
| Coalesce.LateWriteInOrderIff | src/async_fileio.c:265-274 | with the pool down and a completion due, a write stays in order if and only if no buffer was waiting |
| Coalesce.AwriteWork | src/async_fileio.c:170-204 | for every sequence of answers of write(), the loop replaces the path by the whole buffer or not at all, with the result code of the step that failed and no temporary file left |
| Coalesce.EndsIff | src/async_fileio.c:180-192 | the loop fails exactly when a failed write comes before enough was written, and is not over exactly when the answers run out before that |
| Coalesce.WritesGetThrough | src/async_fileio.c:180-192 | enough short writes get every buffer out, however often they are interrupted |
| Coalesce.FileWriter.CoalesceGet | src/async_fileio.c:146-159 | the slot of a path is found or created |
| Coalesce.FileWriter.AsyncWritebuf | src/async_fileio.c:263-306 | writes at once, hands over, or replaces the waiting buffer |
| Coalesce.FileWriter.AwriteDone | src/async_fileio.c:206-229 | the completion step of the state machine |
| Keys.PrefixFirst | src/egg_store_lmdb.c:149-155 | handle+NUL is the least key with that prefix, so the lower bound is where the run starts |
| Keys.PrefixRun | src/egg_store_lmdb.c:157-169 | keys with a common prefix are contiguous in lexicographic order |
| Keys.HandlesApart | src/egg_store_lmdb.c:70-77 | no key lies in the runs of two different NUL-free handles, one being a prefix of the other included |
| Keys.StartsWithHandle | src/egg_store_lmdb.c:159-161 | the three-part test in the loop is the prefix test |
| Keys.LowerBound | src/egg_store_lmdb.c:154-155 | the position of the first key not below the wanted one |
| Keys.Put | src/egg_store_lmdb.c:257-303 | a put is a map update and keeps the order |
| Keys.DeleteUserEntries | src/egg_store_lmdb.c:136-173 | the cursor loop deletes exactly the keys that start with handle+NUL |
| UserStore.IncIndexAt | src/egg_store_lmdb.c:319-377 | an incremental update rebuilds what belongs to dirty users and leaves every other key |
| UserStore.IndexBranchesAgree | src/egg_store_lmdb.c:246-393 | both branches leave the same index table if and only if clean users agreed and every key belonged to a listed handle |
| UserStore.UsersBranchesAgree | src/egg_store_lmdb.c:246-393 | the same for the users table |
| UserStore.BranchesAgree | src/egg_store_lmdb.c:231-393 | all three tables come out the same if and only if they were in sync |
| UserStore.CommitRestoresSync | src/egg_store_lmdb.c:395-404 | committing and clearing the dirty marks leaves the tables in sync |
| UserStore.EditsKeepSyncIff | src/egg_store_lmdb.c:319-377 | any change of the list in which whoever was added or changed is marked keeps the tables in sync if and only if they hold nothing of the handles no longer listed |
| UserStore.EditsAgreeIff | src/egg_store_lmdb.c:319-377 | after such a change the incremental save agrees with a rebuild under the same condition |
| UserStore.EditsKeepSync | src/egg_store_lmdb.c:321-323 | such a change that gives up no handle keeps the tables in sync |
| UserStore.UnmarkedEditIff | src/cmds.c:2823-2828 | a clean user changed without being marked keeps the tables in sync if and only if its record and its entries stay the same |
| UserStore.RenameKeepsSyncIff | src/userrec.c:888-923 | a change of handle keeps the sync, and the branches agreeing, if and only if the handle stays the same or no table holds anything of the old one |
| UserStore.Store.ChangeHandle | src/userrec.c:904-906 | the user gets the new handle and is marked, nobody else changes |
| UserStore.RenameIsForgotten | src/userrec.c:904-906 | after a save, a rename and another save the tables mirror the list if and only if the handle stayed the same or nobody else is listed |
| UserStore.ForgottenUserStays | src/userrec.c:1047-1084 | dropping a user without deleting its records keeps tables in sync, and both branches agreeing, if and only if no table holds anything of the handle |
| UserStore.DeleteKeepsSync | src/egg_store_lmdb.c:551-582 | deleting the records together with the user keeps the tables in sync |
| UserStore.Store.Rebuild | src/egg_store_lmdb.c:246-302 | drop and rebuild leaves the tables of the list |
| UserStore.Store.Update | src/egg_store_lmdb.c:319-377 | the incremental loops compute the incremental tables |
| UserStore.Store.DelUser | src/egg_store_lmdb.c:551-582 | one user's record and index entries go together, or nothing changes |
| UserStore.Store.WriteTables | src/egg_store_lmdb.c:230-393 | the branch is a full rebuild when asked for or when nobody is clean |
| UserStore.Store.SaveUsers | src/egg_store_lmdb.c:184-404 | after a committed save that rebuilt, or found the tables in sync, the users table holds each handle with its record, and the two index tables exactly the keys handle, NUL, host mask and handle, NUL, account of 1 to 511 bytes; after every committed save the ignores table holds exactly the masks of 1 to 511 bytes, each with the value of its last ignore; an uncommitted one changes no table |
| UserStore.Store.Persist | src/egg_store_lmdb.c:184-404 | the same save in terms of the two branches; it re-establishes the sync |
| UserStore.RebuildMirrors | src/egg_store_lmdb.c:246-302 | a rebuild holds exactly the entries of the list, field by field |
| UserStore.IgnoresHold | src/egg_store_lmdb.c:379-392 | a rebuilt ignores table holds exactly the masks that fit, with the last value of each |
| UserStore.FailedRebuildIsForgotten | src/egg_store_lmdb.c:318-398 | after a rebuild that failed to commit, the next committed save mirrors the list if and only if the tables were in sync anyway |
| Regex.Search | libop/src/regex.c:943-1042 | the simulation with a set of live states answers exactly whether an anchored pattern matches at the start of the text |
| Regex.CloseMeans | libop/src/regex.c:874-911 | following the zero-width steps loses and adds no way to match |
| Matching.IrcToEre | src/match.c:47-110 | writes the anchored translation of the pieces that fit, never past the buffer, and never answers -1 for a pattern that is too long |
| Matching.TranslationReads | src/match.c:10-18 | the translation reads back as the pieces it was made from |
| Matching.KeptMeans | src/match.c:57-105 | the pieces of a pattern mean what the pattern means: runs collapse, `~` takes the blanks and tildes after it, a backslash quotes |
| Matching.TranslationMeans | src/match.c:47-110 | the expression matches exactly what the kept part of the pattern matches |
| Matching.WithoutNewline | src/match.c:18 | for a subject without newlines that is the pattern's recursive meaning |
| Matching.MeaningIffOneLine | libop/src/regex.c:890-893 | in either mode, the uncut expression of every pattern says of a subject what the pattern means if and only if the subject has no newline |
| Matching.FirstLines | libop/src/regex.c:890-893 | a subject with newlines is accepted as the pattern means, or because one of its beginnings up to a newline is |
| Matching.NewlineEndsEarly | libop/src/regex.c:890-893 | an instance |
| Matching.KeptAll | src/match.c:51-105 | the whole pattern is kept if and only if its translation fits |
| Matching.HostMaskFits | src/eggdrop.h:55 | a host mask of at most 323 characters is never cut |
| Cutting.CutKeepsLanguageIff | src/match.c:47-107 | in plain mode a shortened pattern means what the whole one means if and only if nothing was cut, or only stars behind an open end |
| Cutting.TranslationFaithfulIff | src/match.c:44-107 | the plain translation means what the pattern means if and only if it fits, or only stars did not fit and what did has an open end |
| Pieces.CutMeaning | src/match.c:47-107 | in either mode, a cut pattern loses its meaning if a dropped piece needs a character, or is a star and none was kept; it keeps it if no dropped piece needs one and what is kept has a star followed only by stars, `%` and question marks |
| LineEnds.AnswersMeanIff | src/match.c:113-126 | over all plain patterns that fit, the answer for a subject is the pattern's meaning if and only if no newline stands at places 1 to 1021, and none further on has, at a distance a pattern can pin, another character before it than the subject has before its end |
| LineEnds.LongLinesAlike | src/match.c:113-126 | an instance: two lines of one letter, each longer than the buffer |
| LineEnds.AnswersMeanPerIff | src/match.c:132-149 | over all per patterns that fit, for a subject whose first newline, if any, is within the buffer's reach: the answer is the pattern's meaning if and only if there is no newline |
| Cutting.CutPatternAccepts | src/match.c:44-46 | an instance for every length: a pattern of one letter that does not fit |
| Matching.WildMatch | src/match.c:113-126 | empty pattern or subject never match; otherwise the answer is the meaning of the kept pattern up to the end or a newline |
| Matching.WildMatchPer | src/match.c:132-149 | the same in per mode, where the empty pattern is allowed |
| Matching.WildMatchIsGlob | src/match.c:113-126 | for a pattern that fits and a subject without newlines the answer is the recursive wildcard meaning |
| Matching.WildMatchPerIsGlob | src/match.c:132-149 | the same in per mode |
| LetterCase.SubjectCase | src/match.c:121-144 | changing the case of letters in the subject changes no answer, in either mode |
| LetterCase.PatternCase | src/match.c:121-144 | nor does changing the case of letters in the pattern |
| LetterCase.OneCharacter | src/match.c:113-149 | a plain character matches itself and the same letter in the other case, and no other single character |
| LetterCase.QuotedCharacter | src/match.c:62-70 | in per mode a quoted character matches like a plain one, wildcard or not |
| LetterCase.OneWildcard | src/match.c:72-98 | a single wildcard matches anything, one character, a text without blanks, or one or more blanks |
| LetterCase.WildPlaces | src/match.c:57-105 | a run of stars takes two places in the buffer, a question mark one |
| LetterCase.PlainPlaces | src/match.c:57-105 | a plain or quoted character takes two places if it is special in expressions, else one |
| LetterCase.PerPlaces | src/match.c:57-105 | in per mode a run of `%` takes five places, a tilde with the blanks and tildes behind it four |
| Wildcards.SqueezeTwice | src/match.c:307-326 | collapsing twice is collapsing once |
| Wildcards.SqueezeEscTwice | src/match.c:329-352 | the same with quoting |
| Wildcards.SqueezeClean | src/match.c:307-326 | no two stars stand side by side any more, and all other characters are kept in order |
| Wildcards.SqueezeEscClean | src/match.c:329-352 | the same for unquoted stars |
| Wildcards.SqueezeKeeps | src/match.c:307-326 | collapsing keeps the language of the pattern |
| Wildcards.SqueezeEscKeeps | src/match.c:329-352 | collapsing with quoting keeps the language in per mode |
| Wildcards.Collapse | src/match.c:307-326 | the loop in place leaves the collapsed string |
| Wildcards.CollapseEsc | src/match.c:329-352 | the loop in place leaves the collapsed string, quoted stars untouched |
| Blocks.ComparesPrefix | src/match.c:265-275 | comparing whole bytes and one masked byte is comparing the first `mask` bits |
| Blocks.ContainsIff | src/match.c:156-159 | one block holds another exactly when its prefix is no longer and is the other's prefix |
| Blocks.OverlapIff | src/match.c:214-216 | two blocks meet exactly when the shorter prefix is also the other's |
| HostMasks.CidrMatchIff | src/match.c:281-302 | for every count, two texts match exactly when both are addresses of one family whose first `count` bits agree, none being compared below 1 |
| HostMasks.AddrMatchIsContainment | src/match.c:188-209 | with `cmp` two CIDR masks are accepted exactly when the first block holds the second |
| HostMasks.AddrMatchIsMembership | src/match.c:188-209 | a plain address is accepted exactly when it lies in the block |
| HostMasks.MaskMatchIsOverlap | src/match.c:241-258 | masks are accepted exactly when their blocks overlap |
| HostMasks.MaskMatchOrderIff | src/match.c:217-259 | for all hosts, the answer does not depend on their order if and only if neither, with a number longer than its address, is set against that same address without one |
| HostMasks.MaskMatchSymmetric | src/match.c:217-259 | against plain addresses the order of a mask with a readable address never matters if and only if its number, as read, is no longer than the address |
| HostMasks.TooLongIsOneSided | src/match.c:247-258 | a longer number never accepts a plain address, while the address accepts the mask exactly when it is the same address |
| HostMasks.AcceptsFamilyIff | src/match.c:293-301 | a mask with a readable address accepts every address of its family if and only if its number is read as less than 1 |
| HostMasks.VanishesIff | src/eggdrop.h:255 | a run of digits is read as less than 1 exactly when it is 0, wraps to 0, fills the sign bit or exceeds 64 bits |
| HostMasks.AtoiOfDigits | src/eggdrop.h:255 | a run of digits is limited to 64 bits and cut to 32; below 2^31 it is read as its value |
| HostMasks.MaskPartsFit | src/match.c:160-180 | the parts of a mask matched as wildcards are never cut, so they always have their full meaning |
| MaskCode.AddrMatch | src/match.c:160-212 | told from copies of 323 characters in upper case, cut at their last `@`: the answer is positive exactly when both left halves meet, and the hosts are both empty, or meet without a number, or agree on the bits of the number and, when compared as masks, the second number is no smaller; without an `@` or without CIDR support exactly when the whole texts meet; its value is given |
| MaskCode.MaskMatch | src/match.c:217-259 | told from the same copies: left halves that meet either way, and hosts that are both empty, meet either way without a number, or agree on the bits of the smaller length |
| MaskAnswers.AcceptedBlocks | src/match.c:188-209 | between well-formed hosts with numbers acceptance is containment of the blocks, and of an address membership |
| MaskAnswers.ShortNumbers | src/eggdrop.h:255 | numbers of up to three digits are read as written |
| MaskAnswers.NoNumber | src/eggdrop.h:255 | a text that starts with no digit, sign or blank is read as 0 |
| Base64.IntToBase64 | src/botmsg.c:54-70 | the buffer filled from its end holds the digits of every 32-bit value |
| Base64.Base64ToInt | src/botcmd.c:63-74 | the loop with its guard reads a text |
| Base64.RoundTrip | src/botcmd.c:63-74 | a 32-bit value comes back exactly when v/64 + v%64 is at most 2^25-1, and is read as -1 otherwise |
| Base64.DigitsAre | src/botmsg.c:45-52 | the digits are A to Z, a to z, 0 to 9 and the square brackets, in this order; every other character counts as 0 |
| Base64.FirstCasualty | src/botcmd.c:67-68 | all values below 2147479679 come back and that one does not |
| Base64.NeverTooLarge | src/botcmd.c:63-74 | no text is read as more than INT_MAX |
| Base64.TextBack | src/botmsg.c:54-70 | a text that is read at all is written again as it was if and only if it is digits without a leading zero |
| FlagText.RoundTrip | src/flags.c:986-1175 | printing and reading back restores every printed field of both records, and AND between global and channel flags |
| FlagText.WordBack | src/flags.c:1090-1132 | a printed word is read back into the current record; the dash for an empty one adds nothing |
| FlagText.Flag2Str | src/flags.c:1090-1110 | letters of the set bits, then user-defined ones, or a dash |
| FlagText.Bot2Str | src/flags.c:1112-1132 | letters, then digits for the user-defined bot flags, or a dash |
| FlagText.BuildFlags | src/flags.c:1134-1175 | the text of a record pair with its terminator, and its length |
| FlagPlaces.BuiltText | src/flags.c:1134-1175 | the printed text: one part per kind of flags, plus letters then minus letters under their signs, a dash for none, and the separator between parts |
| FlagPlaces.LettersOf | src/flags.c:1090-1132 | the letters of a word are exactly those of its bits |
| FlagPlaces.LettersAscend | src/flags.c:1090-1132 | and stand in ascending order |
| FlagPlaces.ReadPlaces | src/flags.c:986-1088 | the reader's result place by place, as a function of the text |
| FlagPlaces.MaskedBits | src/flags.h:57-59 | the bits a record can have, one by one |
| FlagReader.BreakDownFlags | src/flags.c:986-1088 | for every text, told place by place: the plus record gets exactly the known bits asked for under a plus or no sign since the last separator, the minus record those under a minus; parts change the kind of flags at each separator, digits stand for user-defined or bot flags, unknown bits are dropped, reading stops at the second separator when only global flags are wanted, and the first separator joins |
| FlagReader.PrintAndRead | src/flags.c:986-1175 | the two pieces of code composed restore both records |

## Left out

- Handles and bot names are taken as already case-folded, so that case-insensitive comparison is equality.
- Logging, Tcl and Python hooks, sockets, TLS, DNS and `fsync` are no steps of the model; only the success or failure of an operation appears, as a parameter.
- Network.DeliverDuring: lines travel FIFO per link, both ends of a link event act in one step, and no bot is a leaf, rejected or isolated; the version and share fields of `n` lines are not modelled.
- Shares.TakesLine: names without blanks; a line that is refused is the handlers' own contract.
- Histories.AlwaysTheTree: a second link event before the first has settled is not modelled.
- BotnetState.Botnet.SendTandBut: every peer is recent enough to be written to, and no line is meant for non-isolated peers only.
- BotnetState.Botnet.BotNlinked: the share and version fields, the reasons sent with a disconnect and the answer to a rejected bot are not modelled, and the forwarded line is a value.
- BotnetState.Botnet.DumpLinks: the party-line lines that follow the list are not modelled, and lines are values.
- BotnetState.Botnet.BotVersion: the version number, the share flag and the other lines of the handshake are not modelled.
- PartyLine.PartyLine.AddParty: the status word, and the cut of names to their field, are not modelled.
- BotnetState.Botnet.UnVia: the list is a sequence of nodes with addresses instead of a chain of pointers.
- Ghost bots and the wipe in `botunlink` (src/botnet.c:887-920) drop nodes without `unvia` and are not steps of the model.
- The link handshake and authentication of src/dcc.c; a link is established in one step.
- DccTable.DccTable.TandemRelay: the IPv4 path only, without an end of file on the virtual socket while the name is being resolved; sockets in use are positive and different.
- DccTable.DccTable.ResolveSuccess: the IPv6 branch, which replaces the socket, is not modelled.
- DccTable.DccTable.NewDcc: the new place is filled in one step.
- DccTable.DccTable.LostDcc: places behind the used part of the array are not modelled, nor are in-flight workers.
- AsyncLog.SameAsSynchronous: atomics are sequentially consistent; a failed copy of a line and the byte and line statistics are not modelled.
- Coalesce.AwriteWork: temporary files are identified by their write; `fsync` and permissions are not modelled, and the answers of write() are a finite list.
- Keys.Put: keys of 1 to 511 bytes are stored, others are ignored as the store's refusal is.
- UserStore.Store.SaveUsers: the flat-file blob, the metadata table and channels are not modelled; the text of a record is a value computed elsewhere.
- Regex.Search: the engine is modelled for anchored patterns of atoms with at most one quantifier, the only ones the translator writes; allocation failures and the other syntax are not.
- Matching.WildMatch: null pointers are not modelled.
- Pieces.CutMeaning: in per mode the two conditions are not each other's negation; it stays open for a cut that drops only `*` and `%` behind an end such as `* %`, which is open for another reason.
- LineEnds.AnswersMeanPerIff: in per mode nothing is stated for subjects whose first newline stands behind the first 1022 characters.
- LogCalls.EveryLineArrivesIff: `async_log_restart`, after a fork, is not a step of the model.
- Relays.UserComesBack: what else is kept about a party-line user is not modelled; sockets are reused only once given up.
- HostMasks.AcceptsFamilyIff: that every address has a text is assumed.
- MaskCode.AddrMatch: the readers of address texts are parameters, assumed to give 4 or 16 bytes and to tell the families apart by the colon.
- Blocks.ComparesPrefix: masking a byte is written as clearing its low bits arithmetically.
- FlagText.RoundTrip: flag words are sets of bit places of non-negative ints; global together with bot flags is not a combination that is printed.
- `cron_match`, the `*_sanity_check` functions, the user interface, scripts and configuration are not modelled.
