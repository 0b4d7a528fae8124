# VISHNU: verified models of its protocols, codecs and parsers

VISHNU sends batch jobs and file operations to remote servers. This project models the
parts of it that hold real logic and proves what they promise, for all inputs, all runs and
all interleavings:

- **The LSF script parser.** `ScriptLexer` turns a script's directive lines into an argument
  list; `ScriptRoundTrip` proves that written arguments come back and that lines can be
  continued anywhere, `ScriptErrors` which scripts are refused, `ScriptDetails` what becomes of
  comments, blanks and quotes. `OptionReading`, `OptionFold` and `SubmitOptions` fold the
  recognised options into a submission request; `OptionText` relates what a user writes to what
  is read, and `OptionTable` states option by option what each sets and refuses.
  `TimeFields`, `Calendar` and `DateOption` split times, and choose the date fields left out;
  `EpochSeconds` gives the result as a formula in seconds.
- **The thread pool.** `WorkerPool` is a step machine over the mutex, the condition variable
  and the queue, with spurious wakeups and any scheduler.
- **The service registry.** `ServerCodec` is the `$$$` text form of the server list,
  `Annuary` the registry and its operations, `Sweep` the dispatcher's watch interleaved with
  subscriptions, `Failover` a client's call over several servers.
- **The command mappers.** `Mapper` has concurrent builders in one map, `MapperDecode` reads
  built commands back by slices, `CommandTable` goes through them one by one, `SubmitParams` prints a submission's parameters.
- **Transport and transfers.** `LazyPirate` is the retry loop, `TlsFraming` the end-marker
  framing over a buffer of fixed size, `FileTransfer` the status record that workers, stop
  requests and the monitor write.

`Text` and `Numbers` give the C++ and Boost string operations that the others use.

The branches of the option loop are the `Treat` methods of `SubmitOptions.Submit`, each proved
against what its argument reads as; `ParseFile` puts them together.

Classes carry the state that the source updates in place; their methods are proved equal to
specification functions, and the laws are lemmas about those functions. Where threads
interleave, each access under a mutex, and each SQL statement, is one step of a state machine.

## What the proofs found

Each of these is part of the model; where a law fails, the exact condition under which it holds,
or a run that breaks it, is proved below.

- `getTimeToKens` never returns for a time that starts with the separator, and only for those.
- A date whose chosen month lacks the day rolls over into the next month and then matches
  none of the day asked for.
- The watch pings a snapshot, so a server that subscribes again while it is being pinged is
  removed and does not come back by itself; the registry at the end of a sweep is
  characterised exactly.
- `diet_call` would pass over a server that offers the service but whose callback returned an
  error code, and try the servers behind it. The callbacks of this repository report their
  failures as results and return 0, and for such callbacks the first server that offers the
  service ends the call. Without a dispatcher the last attempt goes to an empty uri and carries
  the last server's answer instead of the caller's profile.
- `finalize` throws on an unknown key with the mutex held: from then on every allocation and
  every finalization waits for ever.
- A command built under a name that its mapper does not hold carries whatever number its variable
  was left with, and is decoded as the command of that number. Six file commands are built so,
  among them `vishnu_create_dir`, which the mapper knows as `vishnu_mkdir`.
- `decodeExp` measures a two-digit command with the one-digit offset, so that the separator
  stays on the session's identifier. `decodeQueue` drops a queue name of one character.
  `decodeAddWork` drops the last character of its options.
- Of all the decoders, two print the name of another command: `decodeDelAuthAcc` prints that of
  deleting a local account, and the command that defines the work identifier is dispatched to
  `decodeAid`, so that it cannot be told from defining the authentication identifier.
  `decodeWid`, which would print the right name, is not called; nor does anything in the repository
  build that command. Connecting and reconnecting are decoded to nothing.
- A stop request cancels a transfer exactly if a process identifier is recorded for it, and none
  ever is: records are written with -1, and `TransferExec::updatePid`, which would change that,
  has no caller in the repository. So a stop request returns 0, the transfers it selected go on,
  and no record is ever cancelled. What is said of cancelled records below would come to bear
  only once `updatePid` were called.
- For the same reason the monitor never finds a process, and each of its passes marks every
  transfer in progress as failed, until the end of the copy writes over it.
- The monitor's update is not guarded and not atomic with its selection. A mark on a transfer
  that has completed meanwhile makes it failed without an error text, for which the call returns
  0; this needs no process identifier. A mark on a cancelled one would turn it into a failed one.
  Nothing else breaks either property.
- `TransferExec::exec` never records the command's status, so a move removes its source also
  after a copy that failed, whatever the failure.
- A `#` right behind the keyword of a directive makes the parser throw: the position in front
  of it wraps around, where the branch written for that case is never taken.

## Model

| member | source | states |
|---|---|---|
| `ScriptLexer.VerifyQuotaCharacter` | TMS/src/lsf_parser/LSFParser.cpp:95-125 | the pairwise search accepts a line exactly when it holds the quote an even number of times |
| `ScriptLexer.ReadLogicalLine` | TMS/src/lsf_parser/LSFParser.cpp:375-409 | one logical line, read by the source's loop, is skipped, refused or cut down to its directive as the specification says |
| `ScriptLexer.ConvertScriptIntoArgv` | TMS/src/lsf_parser/LSFParser.cpp:336-453 | the loops over lines and tokens compute the specified argument list, or its error, for every script |
| `ScriptLexer.RegroupTokens` | TMS/src/lsf_parser/LSFParser.cpp:419-450 | the quote-regrouping loop computes the specified regrouping, also where a quote is never closed |
| `ScriptLexer.GroupIsCleanable` | TMS/src/lsf_parser/LSFParser.cpp:74-93 | whatever the loop hands to `cleanString` has the character at its end that the function reads without looking |
| `ScriptRoundTrip.RegroupArg` | TMS/src/lsf_parser/LSFParser.cpp:425-450 | a written argument, plain or quoted, becomes exactly one argument whatever tokens follow |
| `ScriptRoundTrip.CountTokens` | TMS/src/lsf_parser/LSFParser.cpp:412-415 | splitting at blanks loses no character that is not a blank |
| `ScriptRoundTrip.DirectiveIsRead` | TMS/src/lsf_parser/LSFParser.cpp:375-409 | a directive line, indented or not, with or without a comment, is read as its body |
| `ScriptRoundTrip.LexerRoundTrip` | TMS/src/lsf_parser/LSFParser.cpp:336-453 | for every script of directive lines in any layout, comments and other lines, the lexer returns exactly the arguments written, in order |
| `ScriptRoundTrip.OneLineRoundTrip` | TMS/src/lsf_parser/LSFParser.cpp:336-453 | written on one line, spaces between, a list of arguments comes back if and only if its first `#`, if any, is inside a word |
| `ScriptRoundTrip.CutGathers` | TMS/src/lsf_parser/LSFParser.cpp:352-370 | the pieces of a continued line pile up in front of its last physical line |
| `ScriptRoundTrip.CutLeavesArguments` | TMS/src/lsf_parser/LSFParser.cpp:352-370 | cutting a line by trailing backslashes leaves the arguments of the script around it unchanged |
| `ScriptRoundTrip.ContinuationIsTransparent` | TMS/src/lsf_parser/LSFParser.cpp:352-370 | a cut is transparent in every script if and only if it does not separate a backslash that ends the line from the line's end |
| `ScriptErrors.HashBehindKeywordThrows` | TMS/src/lsf_parser/LSFParser.cpp:387-402 | a line reads out of range if and only if it is a directive with a `#` right behind its keyword |
| `ScriptErrors.CommentAtKeywordThrows` | TMS/src/lsf_parser/LSFParser.cpp:387-402 | so every comment that is not set apart from its keyword throws, whatever the prefix and the comment |
| `ScriptErrors.LexFailsOnFirstBadLine` | TMS/src/lsf_parser/LSFParser.cpp:352-409 | a script fails with a line's error if and only if the first of its logical lines to be refused is refused with that error |
| `ScriptErrors.ScriptThrowsIff` | TMS/src/lsf_parser/LSFParser.cpp:352-409 | a script throws out of range if and only if a logical line has a `#` right behind its keyword and no line before it is refused |
| `ScriptErrors.OneLineThrows` | TMS/src/lsf_parser/LSFParser.cpp:387-402 | a script of one such line, with any comment |
| `ScriptDetails.HashInsideIsRead` | TMS/src/lsf_parser/LSFParser.cpp:391-399 | a `#` inside a word stays, with all that follows it; only the quotes decide whether the text is read |
| `ScriptDetails.CommentIsCut` | TMS/src/lsf_parser/LSFParser.cpp:391-399 | a comment behind a space is cut, with whatever quotes it holds |
| `ScriptDetails.PlainTextIsRead` | TMS/src/lsf_parser/LSFParser.cpp:391-409 | a text without `#` is read whole, and refused if and only if its quotes do not pair up |
| `ScriptDetails.SpacedKeyword` | TMS/src/lsf_parser/LSFParser.cpp:381-389 | spaces between the `#` and the keyword do not matter |
| `ScriptDetails.HiddenKeyword` | TMS/src/lsf_parser/LSFParser.cpp:381-389 | spaces inside the keyword hide it, and the text then begins a fixed number of characters into the line |
| `ScriptDetails.BlankSeparates` | TMS/src/lsf_parser/LSFParser.cpp:412-415 | any of the six blanks separates two words |
| `ScriptDetails.LeadingBlanksAreDropped` | TMS/src/lsf_parser/LSFParser.cpp:74-93 | blanks behind an opening quote are dropped with it |
| `ScriptDetails.TrailingQuoteIsDropped` | TMS/src/lsf_parser/LSFParser.cpp:74-93 | a quote that only ends a word is dropped |
| `ScriptDetails.OnePairIsCleaned` | TMS/src/lsf_parser/LSFParser.cpp:74-93 | inside a pair of one kind of quote the other kind stays |
| `ScriptDetails.UnclosedIsRefused` | TMS/src/lsf_parser/LSFParser.cpp:425-446 | behind any arguments, a quote that no later token ends with refuses the script |
| `OptionText.ProcessorsRoundTrip` | TMS/src/lsf_parser/LSFParser.cpp:519-545 | a written pair of processor numbers sets the minimum before the comma and the maximum after it |
| `OptionText.WallTimeIsRead` | TMS/src/lsf_parser/LSFParser.cpp:294-321 | `hours:minutes` is read as sixty times the hours plus the minutes |
| `OptionText.DateRoundTrip` | TMS/src/lsf_parser/LSFParser.cpp:169-238 | a date written with any number of leading fields is read back field by field |
| `OptionText.CheckpointIsRead` | TMS/src/lsf_parser/LSFParser.cpp:574-608 | a directory, `init=` and a first period, and a regular period each end up in their own field |
| `OptionText.TransferRoundTrip` | TMS/src/lsf_parser/LSFParser.cpp:744-798 | a written file transfer is read back: both names and the direction |
| `OptionTable.TextOptions` | TMS/src/lsf_parser/LSFParser.cpp:501-937 | each of 24 text options, for every argument, sets its own flag and its own field to the argument and nothing else |
| `OptionTable.SharingOptions` | TMS/src/lsf_parser/LSFParser.cpp:847-864 | `-is` sets the input file, `-eo` the error file, `-oo` the output file, each with the flags of both options |
| `OptionTable.DocumentOptions` | TMS/src/lsf_parser/LSFParser.cpp:917-932 | `-jsdl` and `-jsdl_strict` set the same field to the document, and no flag |
| `OptionTable.HostsOption` | TMS/src/lsf_parser/LSFParser.cpp:509-518 | `-m` sets the list of hosts, one for each word |
| `OptionTable.FlagOptions` | TMS/src/lsf_parser/LSFParser.cpp:561-669 | each of eight options without an argument sets its flag and nothing else |
| `OptionTable.NumberOptions` | TMS/src/lsf_parser/LSFParser.cpp:682-809 | each of eight numeric options sets its field and no flag, or is refused |
| `OptionTable.FlaggedNumberOptions` | TMS/src/lsf_parser/LSFParser.cpp:887-904 | `-sp` and `-mig` set their flag as well |
| `OptionTable.RefusedOptions` | TMS/src/lsf_parser/LSFParser.cpp:644-949 | interactive options and others that are not treated are refused, whatever their argument |
| `OptionTable.LimitOptions` | TMS/src/lsf_parser/LSFParser.cpp:648-835 | a run limit, a CPU limit and a run time estimate without a slash set their time; only the estimate sets a flag |
| `OptionTable.LimitOptionsWithHost` | TMS/src/lsf_parser/LSFParser.cpp:648-835 | with a slash they also set the host behind the first one, and the flag of the host |
| `OptionTable.WarningOption` | TMS/src/lsf_parser/LSFParser.cpp:872-876 | the warning period sets its time and its flag, or is refused as the time is |
| `OptionTable.DateOptions` | TMS/src/lsf_parser/LSFParser.cpp:738-743 | `-b` and `-t` set the begin and the end, and no flag |
| `OptionTable.MinutesAreRead` | TMS/src/lsf_parser/LSFParser.cpp:294-321 | a time without a colon is minutes, if it is a number |
| `OptionTable.WallTimeOfFields` | TMS/src/lsf_parser/LSFParser.cpp:294-321 | of several fields the last is minutes and the one before it hours; the others only have to be numbers |
| `OptionTable.FieldsRefused` | TMS/src/lsf_parser/LSFParser.cpp:294-321 | one field that is no number refuses the time |
| `OptionTable.OneProcessorNumber` | TMS/src/lsf_parser/LSFParser.cpp:519-545 | one number is both the least and the most; anything else without a comma is refused |
| `OptionTable.TwoProcessorNumbers` | TMS/src/lsf_parser/LSFParser.cpp:519-545 | with a comma, both sides must be numbers |
| `OptionTable.CheckpointDirectory` | TMS/src/lsf_parser/LSFParser.cpp:574-608 | a directory alone sets only itself; a blank argument has no result |
| `OptionTable.RegularPeriod` | TMS/src/lsf_parser/LSFParser.cpp:574-608 | a period behind the directory, with a method or not, must be a number |
| `OptionTable.Operators` | TMS/src/lsf_parser/LSFParser.cpp:744-798 | the five operators of a file transfer, and no other, give a direction |
| `OptionTable.TransferOption` | TMS/src/lsf_parser/LSFParser.cpp:744-798 | for every list of words: fewer than two, or another operator, is refused, and the rest is one transfer |
| `OptionTable.SpooledExcludes` | TMS/src/lsf_parser/LSFParser.cpp:546-854 | `-i` and `-is` exclude each other in either order, and `-is` a second `-is`, whatever request they are added to |
| `OptionTable.RerunningExcludes` | TMS/src/lsf_parser/LSFParser.cpp:609-842 | `-r` and `-rn` exclude each other in either order |
| `OptionTable.DocumentsExclude` | TMS/src/lsf_parser/LSFParser.cpp:917-932 | `-jsdl` and `-jsdl_strict` exclude each other in either order |
| `OptionTable.Defaults` | TMS/src/lsf_parser/LSFParser.cpp:490-497 | a script without options leaves exactly the default name and output files |
| `OptionTable.LeftoverWord` | TMS/src/lsf_parser/LSFParser.cpp:953-956 | a word that belongs to no option refuses an otherwise accepted script |
| `OptionFold.ReadingIsFaithful` | TMS/src/lsf_parser/LSFParser.cpp:499-952 | the flags by which options exclude each other are set only by the options they are named for |
| `OptionFold.AcceptOne` | TMS/src/lsf_parser/LSFParser.cpp:546-615 | what an accepted option excludes shows in the request it leaves, and nothing else does |
| `OptionFold.AcceptedIff` | TMS/src/lsf_parser/LSFParser.cpp:499-952 | a sequence of options is accepted if and only if each is sound by itself, no two exclude each other and the request excludes none |
| `OptionFold.FoldLeaves` | TMS/src/lsf_parser/LSFParser.cpp:499-952 | the request left: the flags and fields of all options added to those before, file transfers in the order of their options |
| `OptionFold.LastOneWins` | TMS/src/lsf_parser/LSFParser.cpp:501-560 | a field holds what the last option that sets it says |
| `OptionFold.NotSet` | TMS/src/lsf_parser/LSFParser.cpp:499-952 | a field that no option sets stays as it was |
| `OptionFold.FlagsAreRaised` | TMS/src/lsf_parser/LSFParser.cpp:499-952 | a flag is set if and only if it was before or an option sets it |
| `OptionFold.OrderDoesNotMatter` | TMS/src/lsf_parser/LSFParser.cpp:499-952 | permuted options are accepted alike and set the same flags |
| `OptionFold.JsdlTells` | TMS/src/lsf_parser/LSFParser.cpp:917-932 | the JSDL flag tells which of its two options was used, if any |
| `OptionFold.SameRequest` | TMS/src/lsf_parser/LSFParser.cpp:499-952 | permuted options of which no two set the same field, file transfers in order, leave the very same request |
| `SubmitOptions.ConvertWallTimeToTime` | TMS/src/lsf_parser/LSFParser.cpp:294-321 | the loop over the fields computes the specified minutes, or refuses |
| `SubmitOptions.Submit.AppendXFile` | TMS/src/lsf_parser/LSFParser.cpp:754-772 | growing the array through a copy keeps all entries, in order, and adds one |
| `SubmitOptions.Submit.ParseFile` | TMS/src/lsf_parser/LSFParser.cpp:490-961 | the whole loop, defaults first: the final request, or the first refusal |
| `SubmitOptions.ParseAcceptsIff` | TMS/src/lsf_parser/LSFParser.cpp:490-961 | a script is accepted if and only if no word is left over, each option is sound, and none excludes another or is excluded by the request |
| `SubmitOptions.AnyOrderIsAcceptedAlike` | TMS/src/lsf_parser/LSFParser.cpp:499-952 | acceptance is invariant under permutation of the options |
| `SubmitOptions.AnyOrderSameRequest` | TMS/src/lsf_parser/LSFParser.cpp:490-961 | and the whole parse, defaults included, ends in the same request for such permutations |
| `TimeFields.GetTimeTokens` | TMS/src/lsf_parser/LSFParser.cpp:141-161 | the right-to-left loop returns the reverse of the ordinary split, empty fields included |
| `TimeFields.SplitLast` | TMS/src/lsf_parser/LSFParser.cpp:150-158 | the field behind the last separator is the last piece of the left-to-right split |
| `TimeFields.EndsUnlessLeadingSeparator` | TMS/src/lsf_parser/LSFParser.cpp:150-158 | in unsigned arithmetic the loop ends if and only if the time does not start with the separator |
| `Calendar.OrderOfInstants` | TMS/src/lsf_parser/LSFParser.cpp:240-289 | valid times compare as their instants do, and no two share one |
| `Calendar.MkTimeNormalises` | TMS/src/lsf_parser/LSFParser.cpp:287-289 | `mktime` of a day or month one too far is the instant of the valid time it carries over to |
| `DateOption.ConvertDateToTime` | TMS/src/lsf_parser/LSFParser.cpp:169-291 | every date gives the specified instant, or the first error in the source's order |
| `DateOption.NeverPast` | TMS/src/lsf_parser/LSFParser.cpp:240-289 | a date without a year never lies before the current minute |
| `DateOption.FirstMatchIffDayExists` | TMS/src/lsf_parser/LSFParser.cpp:240-289 | it is the least instant from now on that matches every given field, if and only if the chosen month has the day |
| `DateOption.ShortDaysExist` | TMS/src/lsf_parser/LSFParser.cpp:240-289 | up to the 28th it always is |
| `DateOption.RollsOver` | TMS/src/lsf_parser/LSFParser.cpp:240-289 | where the day does not exist the result matches nothing that was asked |
| `DateOption.GivenYearIsKept` | TMS/src/lsf_parser/LSFParser.cpp:268-289 | a date with a year is that date, past or not, if and only if it exists |
| `EpochSeconds.DaysOfYears` | TMS/src/lsf_parser/LSFParser.cpp:287-289 | the days before a year in closed form: 365 for each, and the leap days by the three divisors |
| `EpochSeconds.InSeconds` | TMS/src/lsf_parser/LSFParser.cpp:287-289 | an instant in seconds since 1970-01-01, as one formula of year, month, day, hour and minute with the twelve month offsets |
| `EpochSeconds.DateInSeconds` | TMS/src/lsf_parser/LSFParser.cpp:169-291 | a written date, with any fields left out, comes to that many seconds of the fields chosen |
| `EpochSeconds.FullDateInSeconds` | TMS/src/lsf_parser/LSFParser.cpp:169-291 | a date that names its year comes to those seconds whatever the time is now |
| `EpochSeconds.FirstBadField` | TMS/src/lsf_parser/LSFParser.cpp:186-238 | the first field out of range, from the minute up, decides what a date is refused for |
| `EpochSeconds.FurtherFields` | TMS/src/lsf_parser/LSFParser.cpp:186-238 | fields beyond the year must be numbers and add nothing |
| `EpochSeconds.NotADate` | TMS/src/lsf_parser/LSFParser.cpp:186-200 | a leading colon leaves no result, and a date without any is refused |
| `WorkerPool.StepKeepsExclusion` | communication/utils.hpp:47-76 | every step keeps mutual exclusion, and every task in the queue or taken, in order |
| `WorkerPool.StepKeepsWakeups` | communication/utils.hpp:47-76 | every step keeps the bound on queued tasks by awake workers and pending notifications |
| `WorkerPool.Safety` | communication/utils.hpp:47-76 | in every reachable state of any number of threads: exclusion, tasks taken in submission order once each, and no lost wakeup |
| `WorkerPool.WorkConserving` | communication/utils.cpp:43-51 | at rest the queue is empty or every worker is busy |
| `WorkerPool.Progress` | communication/utils.hpp:47-76 | until the pool is at rest some thread can move by itself: no deadlock |
| `WorkerPool.InternalRunsEnd` | communication/utils.cpp:43-51 | left alone the pool comes to rest within a bound, whatever the scheduler does |
| `WorkerPool.BoundWithoutReturns` | communication/Worker.hpp:149-156 | while no task returns, every worker that took one keeps it for good |
| `WorkerPool.Saturation` | communication/Worker.hpp:149-156 | with as many never-returning tasks as threads, at rest the queue is empty and tasks and threads are in bijection |
| `ServerCodec.ToString` | communication/Server.cpp:81-92 | the loop writes name, uri and services each behind a `$$$`; without services it reads out of range |
| `ServerCodec.ServicesRoundTrip` | communication/Server.cpp:94-118 | which service lists survive, exactly |
| `ServerCodec.ServerRoundTrip` | communication/Server.cpp:81-118 | a server survives `toString` and `fromString` if and only if no field contains or ends in what reads as a separator; single services of one or two dollars are the exception |
| `ServerCodec.TrailingDollarIsLost` | communication/Server.cpp:81-118 | a uri that ends in a dollar never comes back |
| `ServerCodec.ListServer` | communication/dispatcher/AnnuaryWorker.hpp:204-212 | the message is the joined texts, and it fails exactly where a server has no service |
| `ServerCodec.ExtractServersFromMessage` | communication/DIET_client.cpp:326-339 | the loop reads the message record by record, skipping empty ones |
| `ServerCodec.OddRecords` | communication/DIET_client.cpp:326-339 | empty records and those a NUL begins are skipped; one of a single field is read beyond its end |
| `ServerCodec.NoServices` | communication/Server.cpp:81-118 | a record of a name and a uri alone is read as a server without services, which cannot be written |
| `ServerCodec.SeparatorFound` | communication/DIET_client.cpp:326-339 | the long separator is found behind a record's own dollars, although they run into it |
| `ServerCodec.ServerListRoundTrip` | communication/DIET_client.cpp:326-339 | every list of servers with non-empty dollar-free fields and a service each is read back in order, if and only if it holds no NUL |
| `Annuary.Annuary.Add` | communication/Annuary.cpp:41-53 | appends unless the name and uri are there |
| `Annuary.Annuary.Remove` | communication/Annuary.cpp:55-62 | takes out every entry of the name and uri, keeping the order of the others |
| `Annuary.Annuary.Get` | communication/Annuary.cpp:66-79 | the servers that offer the service, in order; all of them for the empty name |
| `Annuary.FillServices` | communication/Annuary.cpp:121-156 | the loop fills in the module's services, with the machine where it is part of the name |
| `Annuary.Annuary.SetInitConfig` | communication/Annuary.cpp:103-119 | reads uri and machine out of each entry and appends its server, in order, without looking for existing ones |
| `Annuary.Annuary.Sweep` | communication/dispatcher/Dispatcher.cpp:77-97 | undisturbed, a sweep leaves exactly the servers none of whose pings failed |
| `Annuary.AddCounts` | communication/Annuary.cpp:41-53 | `add` never makes a second entry and changes no other count |
| `Annuary.RemoveCounts` | communication/Annuary.cpp:55-62 | `remove` leaves no entry of its key and touches no other |
| `Annuary.AddedIsLast` | communication/Annuary.cpp:41-53 | the new entry is last and carries the services given, unless one of its name and uri is there |
| `Annuary.RemovedInOrder` | communication/Annuary.cpp:55-62 | `remove` keeps the order of what it leaves |
| `Annuary.RemovedFromOne` | communication/Annuary.cpp:25-62 | an entry goes if and only if both its name and its uri are the ones given |
| `Annuary.OfferingInOrder` | communication/Annuary.cpp:66-79 | `get` keeps the order of the registry |
| `Annuary.OfferingOfOne` | communication/Annuary.cpp:66-79 | it lists a server if and only if the server has the service, or no service is named |
| `Annuary.SurvivesIff` | communication/dispatcher/Dispatcher.cpp:77-97 | a quiet sweep leaves a server if and only if no ping to its name and uri stayed unanswered |
| `Annuary.SurvivingInOrder` | communication/dispatcher/Dispatcher.cpp:77-97 | and keeps the order |
| `Annuary.ServicesOfModule` | communication/Annuary.cpp:121-156 | each service of a known module, with `@` and the machine exactly where the table says so; any other module only routes |
| `Annuary.EntryIsRead` | communication/Annuary.cpp:103-119 | a configuration entry names a uri and perhaps a machine that replaces the default one; words behind them are ignored |
| `Annuary.ConfiguredInOrder` | communication/Annuary.cpp:103-119 | one server for each entry, in order |
| `Sweep.RegistryOfEvents` | communication/dispatcher/Dispatcher.cpp:77-97 | after any interleaving the registered keys can be read off the events alone |
| `Sweep.SweepProgress` | communication/dispatcher/Dispatcher.cpp:83-94 | every server of the snapshot behind the sweep answered or was dropped |
| `Sweep.SweepEnd` | communication/dispatcher/Dispatcher.cpp:77-97 | at the end a key is registered if and only if a subscription of it still stands, or it answered in this sweep and nothing removed it |
| `Sweep.LateSubscriptionIsLost` | communication/dispatcher/Dispatcher.cpp:83-94 | for every server, a run in which it subscribes again between its failed ping and its removal and is gone at the end |
| `Sweep.ElectedIsAlive` | communication/dispatcher/AnnuaryWorker.hpp:117-123 | the server elected then answered, or subscribed since |
| `Sweep.NeverTwice` | communication/Annuary.cpp:41-62 | no interleaving gives an unregistered key more than one entry, nor a key that the configuration lists several times more than that |
| `Failover.DietCall` | communication/DIET_client.cpp:137-206 | every attempt made, the answer that ends the call, the profile left and the code returned; a success of the first server is one attempt, code 0 and its result |
| `Failover.AnswersThatEnd` | communication/DIET_client.cpp:186-189 | the results that end a call, spelled out: a success, and an error without the known text; no other |
| `Failover.SuccessEndsTheCall` | communication/DIET_client.cpp:181-192 | no server behind a success is asked |
| `Failover.FirstSuccessIsTheCall` | communication/DIET_client.cpp:181-192 | a success of the first server is the whole call: one attempt, code 0 and that result |
| `Failover.SilentServersAreTriedOnce` | communication/DIET_client.cpp:180-206 | where no server gives a result each gets the caller's profile once, then the dispatcher, whose outcome decides the code |
| `Failover.RunsThatSettle` | communication/SeDWorker.hpp:51-60 | the runs a client takes for an answer, spelled out |
| `Failover.AttemptsCarryTheProfile` | communication/DIET_client.cpp:180-199 | every attempt carries the caller's profile, exactly unless the last one goes out without a dispatcher after an answer that changed it |
| `Failover.UnknownServiceIsPassedOver` | communication/SeDWorker.hpp:51-60 | an unknown service always reaches the client as the error text it skips |
| `Failover.KnownServiceIsRun` | communication/SeD.cpp:45-70 | a service the server has is run, and after a 0 its results are sent back as they are |
| `Failover.UnknownServiceIsCounted` | communication/SeD.cpp:45-70 | one it does not have is answered with 1, a parameter count of -1 and the parameters as sent |
| `Failover.OnlyOfferingEnds` | communication/SeD.cpp:45-70 | a server ends the call if and only if it is in reach, offers the service and its run settles it |
| `Failover.FirstOfferingServerAnswers` | communication/DIET_client.cpp:180-192 | the call ends with the first server that offers the service, if and only if that server's run is not one the client takes for an unknown service |
| `Failover.OrderlyServersAnswer` | communication/DIET_client.cpp:180-192 | where callbacks return 0 with a success or an error of their own, the first server that offers the service ends the call, with its own result |
| `Failover.ErrorCodeIsPassedOver` | communication/SeDWorker.hpp:54-58 | a server whose callback returns any other code is passed over |
| `Mapper.FreshKey` | communication/registry/FMSMapper.cpp:112-126 | the probed key is not live, not 0, and between n+1 and 2n+1 for n live keys |
| `Mapper.Mapper.GetKey` | communication/registry/FMSMapper.cpp:78-88 | the number of the first command of that name; otherwise the variable is left as it was |
| `Mapper.Mapper.Code` | communication/registry/FMSMapper.cpp:90-127 | the probing loop ends with the specified key; an append changes one builder only |
| `Mapper.Mapper.Finalize` | communication/registry/Mapper.cpp:27-40 | takes the builder out, or throws with the mutex held |
| `Mapper.BuildersDoNotMix` | communication/registry/FMSMapper.cpp:90-127 | under every live key, in every run with keys used again, is the encoding of what was appended since its allocation |
| `Mapper.FinalizeReturnsTheBuilt` | communication/registry/Mapper.cpp:27-40 | a finished command is that encoding |
| `Mapper.EncodedLiterally` | communication/registry/FMSMapper.cpp:99-110 | a message is its number and every parameter behind a `#`; an empty one adds `# ` |
| `Mapper.FirstNameCounts` | communication/registry/FMSMapper.cpp:78-88 | of equal names the first one's number counts |
| `Mapper.LiveIsHeld` | communication/registry/FMSMapper.cpp:90-127 | a key stays with its builder, whatever other sessions finish, until it is finalized itself |
| `Mapper.AppendNeverWaits` | communication/registry/FMSMapper.cpp:97-110 | an append never waits, and throws if and only if its key is not being built |
| `Mapper.AllocatesLeastKey` | communication/registry/FMSMapper.cpp:112-127 | an allocation gives the least free key above the number of live ones |
| `Mapper.UnknownKeyBlocksForEver` | communication/registry/Mapper.cpp:31-35 | a call blocks if and only if an unknown key was finalized before it |
| `MapperDecode.FindSeparator` | communication/registry/Mapper.cpp:42-54 | all positions of the separator, in order |
| `MapperDecode.EncodedSlices` | communication/registry/FMSMapper.cpp:404-418 | slicing by separators recovers the parameters when all but the last are free of them |
| `MapperDecode.OffsetFitsOneWidth` | communication/registry/TMSMapper.cpp:189 | for every message the constant offset gives the first slice if and only if it is the number of digits in front |
| `MapperDecode.OffsetsFit` | communication/registry/UMSMapper.cpp:1180 | every offset of the three mappers fits its command, save that of the export command |
| `MapperDecode.DecodeRoundTrip` | communication/registry/FMSMapper.cpp:129-207 | a command decodes to the parameters it was built from if and only if its offset fits |
| `MapperDecode.ExportKeepsTheSeparator` | communication/registry/UMSMapper.cpp:1180 | the exported session's identifier always keeps a `#` |
| `MapperDecode.OneCharacterQueueIsLost` | communication/registry/TMSMapper.cpp:347-361 | the queue is printed if and only if its name has two characters or more |
| `MapperDecode.AddWorkIsCutShort` | communication/registry/TMSMapper.cpp:541-547 | the options reach their parser without their last character |
| `MapperDecode.FmsPrintsItsName` | communication/registry/FMSMapper.cpp:150-206 | every complete FMS command is decoded under its own name |
| `MapperDecode.TmsPrintsItsName` | communication/registry/TMSMapper.cpp:146-178 | every complete TMS command is decoded under its own name |
| `MapperDecode.UmsPrintsItsName` | communication/registry/UMSMapper.cpp:157-282 | of the 34 UMS commands a complete one is decoded under its own name if and only if it is none of four: two decode to nothing, two under the name of another |
| `MapperDecode.DeleteAuthAccountReadsAsLocal` | communication/registry/UMSMapper.cpp:612-628 | deleting an authentication account decodes, with its parameters, as deleting the local account |
| `MapperDecode.DefineWorkReadsAsAuth` | communication/registry/UMSMapper.cpp:271-273 | defining the work identifier decodes as defining the authentication identifier |
| `CommandTable.CodedEach` | communication/registry/FMSMapper.cpp:99-110 | parameters come back as they were, an empty one as a space |
| `CommandTable.FmsComesBack` | communication/registry/FMSMapper.cpp:150-206 | each of the 17 FMS commands, with the number of parameters the table gives it, comes back with them |
| `CommandTable.TmsComesBack` | communication/registry/TMSMapper.cpp:146-178 | so does each TMS command but the two that cut something off |
| `CommandTable.UmsComesBack` | communication/registry/UMSMapper.cpp:157-282 | and each UMS command from the third to the last but one, two of them under the name of another |
| `CommandTable.OptionalParameter` | communication/registry/UMSMapper.cpp:157-282 | the sixth UMS command also comes back without its parameter |
| `CommandTable.FmsIncomplete` | communication/registry/FMSMapper.cpp:150-206 | with fewer parameters than its decoder takes, every FMS command throws |
| `CommandTable.TmsIncomplete` | communication/registry/TMSMapper.cpp:146-178 | so does every TMS command |
| `CommandTable.UmsIncomplete` | communication/registry/UMSMapper.cpp:157-282 | and every UMS command that takes a parameter, save the sixth |
| `CommandTable.NoSuchCommand` | communication/registry/UMSMapper.cpp:157-282 | a number that no command of the mapper has decodes to nothing, the first two UMS commands among them |
| `MapperDecode.FinishedCommandDecodes` | communication/registry/FMSMapper.cpp:90-207 | a finished command, however interleaved its building, decodes to the parameters appended since its allocation if and only if its offset fits |
| `Mapper.NumberOfName` | communication/registry/FMSMapper.cpp:78-88 | a name the mapper holds gets its own number, whatever the variable held; any other leaves the variable as it was |
| `MapperDecode.UnknownNameDecodesAsStale` | communication/registry/FMSMapper.cpp:122-124 | a finished command of an unknown name decodes as the command of the stale number, or to nothing where there is none |
| `SubmitParams.AppendParams` | communication/registry/TMSMapper.cpp:280-292 | the position loop prints one flag and one piece for each piece between spaces |
| `SubmitParams.EveryParameterIsPrinted` | communication/registry/TMSMapper.cpp:280-305 | parameters without spaces are printed as they are, in order |
| `SubmitParams.ListedInOrder` | communication/registry/TMSMapper.cpp:280-292 | what is printed for one part is the flag and the part, and parts follow one another |
| `LazyPirate.Client.Send` | communication/zhelpers.cpp:182-220 | it returns; true exactly with the first useful reply among the messages allowed, kept and not empty; a client that is not quiet uses every retry, a quiet one sends once; the number of messages and sockets; no socket sends twice without a reply |
| `LazyPirate.RetriesOnlyHelp` | communication/zhelpers.cpp:182-220 | more retries leave an answered call answered to the same message; an unanswered one gains if and only if a useful reply comes to a further message allowed |
| `LazyPirate.EveryRetryIsUsed` | communication/zhelpers.cpp:182-220 | a client that is not quiet is answered at the latest by the message that gets a useful reply, up to its last retry |
| `LazyPirate.QuietClientTriesOnce` | communication/zhelpers.cpp:202-208 | without verbosity no retry past the first is ever used |
| `TlsFraming.SendMsgs` | communication/sslhelpers.cpp:313-325 | what is written: each message and the marker as C strings with a newline |
| `TlsFraming.WrittenInOrder` | communication/sslhelpers.cpp:313-325 | messages follow one another |
| `TlsFraming.WrittenAlone` | communication/sslhelpers.cpp:313-325 | one is written with a newline, or up to its first NUL and without one |
| `TlsFraming.RecvMsg` | communication/sslhelpers.cpp:150-161 | the loop keeps all that comes before the chunk that starts with the marker |
| `TlsFraming.FramingRoundTrip` | communication/sslhelpers.cpp:150-161 | for every chunk size with room for the marker the server gets the request and one newline, if and only if the request holds no NUL and no chunk of it starts with the marker |
| `TlsFraming.MarkerlessIsDelivered` | communication/sslhelpers.hpp:27-28 | a request without the marker is delivered however its lines are cut |
| `TlsFraming.SmallBufferWaitsForEver` | communication/sslhelpers.cpp:150-161 | without room for the marker the loop never ends |
| `FileTransfer.Database.Copy` | FMS/src/server/FileTransferServer.cpp:284-310 | one retry after a warning; failed with the output, or completed without |
| `FileTransfer.OutputIsKept` | FMS/src/server/FileTransferServer.cpp:301-309 | output without ssh's line is kept: no output is a good copy, and any at all a failed one with that text |
| `FileTransfer.FirstLineIsDropped` | FMS/src/server/FileTransferServer.cpp:366-376 | of ssh's line and what follows, what follows counts; the line without a newline is an error |
| `FileTransfer.Database.CheckFile` | XMS/src/MonitorXMS.cpp:188-218 | every transfer in progress whose process does not exist is marked failed, no other is touched |
| `FileTransfer.CheckedEach` | XMS/src/MonitorXMS.cpp:199-213 | a pass marks a transfer if and only if it is in progress and no process is recorded for it and running; its error text stays |
| `FileTransfer.CheckWithoutProcesses` | XMS/src/MonitorXMS.cpp:210 | where no process is recorded a pass leaves no transfer in progress, whatever is running |
| `FileTransfer.Database.StopThread` | FMS/src/server/FileTransferServer.cpp:566-592 | without a process nothing; else cancelled, or failed with the error thrown |
| `FileTransfer.Database.StopTransfers` | FMS/src/server/FileTransferServer.cpp:517-559 | the loop over the selected transfers, up to the first failure; an error where none is selected |
| `FileTransfer.StopsGoOn` | FMS/src/server/FileTransferServer.cpp:538-559 | stops without a failure leave the rest of the request to go on |
| `FileTransfer.FirstFailureEndsTheStop` | FMS/src/server/FileTransferServer.cpp:538-592 | the first failed kill ends the request: its transfer is failed with the text, those behind it are not touched |
| `FileTransfer.StopCancelsIffProcess` | FMS/src/server/FileTransferServer.cpp:517-592 | a stop request that returns 0 has cancelled a transfer if and only if it selected it with a recorded process, and has changed no other |
| `FileTransfer.StopWithoutProcesses` | FMS/src/server/FileTransferServer.cpp:566-592 | where no process is recorded it returns 0 and changes nothing |
| `FileTransfer.StopLeavesCancelledIff` | FMS/src/server/FileTransferServer.cpp:566-592 | the same under any interleaving, for the step that deals with a selected transfer |
| `FileTransfer.NoProcessNoStop` | FMS/src/server/FileTransferServer.cpp:566-592 | in every run, as long as no process of a transfer is recorded, no stop acts on it, the monitor never spares it and it is never cancelled |
| `FileTransfer.NothingIsEverCancelled` | FMS/src/server/FileTransferServer.cpp:620-630 | a run in which nothing calls `updatePid` has no cancelled record |
| `FileTransfer.StopLeavesItRunning` | FMS/src/server/FileTransferServer.cpp:517-592 | a run in which a stop request selects a transfer, returns 0, and the transfer completes |
| `FileTransfer.OnlyTheMonitorTouchesCancelled` | XMS/src/MonitorXMS.cpp:209-213 | once process identifiers are recorded: a step changes a cancelled record if and only if it is the monitor's mark on it |
| `FileTransfer.StepKeepsInv` | FMS/src/server/FileTransferServer.cpp:284-350 | a step keeps each record consistent with its worker, error texts included, if and only if it is not a mark on a completed record |
| `FileTransfer.Safety` | FMS/src/server/FileTransferServer.cpp:284-350 | so every run without such late marks keeps it throughout |
| `FileTransfer.CancelledUntilMarked` | FMS/src/server/FileTransferServer.cpp:338-350 | in every run, recorded processes included, a cancelled record stays unchanged if and only if the monitor does not mark it |
| `FileTransfer.CancelledIsAbsorbing` | FMS/src/server/FileTransferServer.cpp:338-350 | the monitor's select and update being one step, a cancelled record never changes again |
| `FileTransfer.ZeroMeansCompleted` | FMS/src/server/FileTransferServer.cpp:380-397 | in every run: a synchronous call returns 0 exactly for transfers completed or left to the client, and the error text is there exactly for failed and cancelled ones, if and only if no late mark of the transfer stands; where one stands the call returns 0 for a failed transfer |
| `FileTransfer.RemovedIffMoveOver` | FMS/src/server/FileTransferServer.cpp:313-336 | in every run the removal of a source was tried exactly for the moves that are over |
| `FileTransfer.RemovalFollowsCopy` | FMS/src/server/FileTransferServer.cpp:313-320 | a worker goes on only after its one copy has ended, with whatever outcome |
| `FileTransfer.MoveRemovesAfterGoodCopyIff` | FMS/src/server/FileTransferServer.cpp:313-336 | in every run a move that is over has removed its source after a good copy if and only if the one message its copy ended with is empty |
| `FileTransfer.FailedCopyIsRemoved` | FMS/src/server/FileTransferServer.cpp:313-336 | for every error text, a run in which the copy fails and the source is removed after it |
| `FileTransfer.LateMarkOverwritesCancelled` | XMS/src/MonitorXMS.cpp:199-213 | were `updatePid` called: with the monitor's statements apart there is a run that turns a cancelled transfer into a failed one |
| `FileTransfer.LateMarkFailsSilently` | XMS/src/MonitorXMS.cpp:199-213 | and one that turns a completed copy, reported as such, into a failed one |

## Left out

- Sockets, OpenSSL, SQL, ssh, scp and signals: their outcomes are parameters or steps; the tables of service names are a parameter; authentication and sessions are not modelled.
- EMF and JSON payloads: opaque strings; of the mapper decoders only the slices they take are modelled, not the options they print out of a parsed object.
- `getopt_long_only`: the option loop starts from recognised options and the words left over.
- `searchAndConvertVishnuScriptGenSyntax`, which reads the script again with another prefix: the lexer is proved for any prefix, the rewriting of its arguments is not modelled.
- What a submission request holds after an option was refused: the caller throws it away.
- SubmitOptions.ConvertWallTimeToTime: minutes and hours are added without the wrap-around of a 32-bit sum, which is undefined in C++; a time that starts with a colon, for which the source does not return, is a refusal of its own kind, and so is a blank `-k`, which reads past the end of a list.
- DateOption.ConvertDateToTime: local time zones and daylight saving; years are proleptic Gregorian and times UTC.
- ScriptRoundTrip.LexerRoundTrip: words hold no blank, quote or backslash, as those mean something to the lexer, and the first `#` of a line is inside a word or begins its comment; scripts are the lines that `getline` gives.
- WorkerPool: shutting the pool down and `try_pop`; no destructor wakes the parked workers.
- Mapper.Mapper.Code: appending to a builder takes no mutex in the source and is one atomic step here; keys are unbounded integers.
- MapperDecode.OffsetFitsOneWidth: positions are unsigned 32-bit numbers, so messages are shorter than 2 GB.
- MapperDecode.DecodeRoundTrip: commands built with as many parameters as their decoder takes; with fewer it throws, which `CommandTable` states; with more the last one keeps the rest, which is in the model but in no law.
- LazyPirate.Client.Send: retries are not negative; a negative count only wraps around after 2^31 tries.
- FileTransfer: thread joins and the client-side copy of a local transfer; a stop request that throws leaves the rest of its selection to no one, which the runs allow without requiring it.
- `Server::add`, `Server::remove`, uri and host extraction, `ls` parsing and tables of state names: one-line lookups and edits whose bodies already say all there is to say.
- `TlsClient::recvMsg`, whose test depends on where reads end, and `ServerXMS::getConfigOptions`, whose comma loop does not advance: no guarantee can be stated.
