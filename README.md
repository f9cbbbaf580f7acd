# longcuckoo recurring-experiment scheduler, modelled in Dafny

This project models two parts of longcuckoo, a Cuckoo Sandbox fork that reruns
the same sample as a recurring "experiment".

The first part is the experiment command line, `utils/experiment.py`:

- the action table and the required-argument check;
- the splitting of `key=value` tokens in `main`;
- the handlers that decide what to ask of the task database (`new`, `schedule`,
  `delta`, `timeout`);
- the IP-address and eggname allocators;
- the cron script that keeps at least five machines available by cloning new
  ones.

The second part is the task-lifecycle views of the web interface,
`web/analysis/views.py`:

- `schedule`, `unschedule`, `terminate` and `remove`, over an in-memory store of
  tasks, experiments, machines and analysis records;
- the classification of a search query.

Modules, one per file:

- `Wrappers` (`wrappers.dfy`): `Option` and `Result`.
- `Text` (`text.dfy`): the Python 2 string operations the code relies on. These are
  `strip`/`lstrip`/`rstrip`, `split(c)`, `split(c, 1)`, `split()`, `int()`,
  `"%d"` and `"%02d"`, each with the properties the rest of the model needs.
  - The command line works on byte strings (`str`), whose `strip` drops ASCII
    whitespace only.
  - `search` works on the `unicode` value Django posts, whose `strip` also drops
    Unicode whitespace such as the no-break space U+00A0. The strip functions
    take the string type as a parameter.
- `Records` (`records.dfy`): tasks (status, repeat mode, experiment), machines
  and their lock, and `count_machines_available`.
- `Allocators` (`allocators.dfy`): `allocate_ip_address` and `allocate_eggname`.
  - The address is computed as a method with the source's loop. It is proved equal
    to a specification function, and the allocation rule is proved about that
    function.
- `Frontend` (`frontend.dfy`): `ARGUMENTS`, the action lookup, `check_arguments`
  and the argument loop of `main`. The two loops are methods proved against
  specification functions.
- `Handlers` (`handlers.dfy`): `handle_new`, `handle_schedule`, `handle_delta` and
  `handle_timeout`.
- `Provisioning` (`provisioning.dfy`): the `MACHINE_CRONTAB` loop.
  - It is a method over the machine table that the clones extend.
  - Its specification is a function of the initial table and the outcomes of the
    clone commands.
- `Lifecycle` (`store.dfy`): each view is a function from a store value to the
  store afterwards and the page rendered.
  - The class `TaskStore` holds the same state in fields.
  - Its methods perform each view through the database primitives the source
    calls (`view_task`, `set_status`, `delete_task`, `list_tasks`,
    `unlock_machine_by_experiment`, `delete_experiment`).
  - Each method is proved to end in the state the function describes.
- `Search` (`search.dfy`): the decision `search` takes on the posted query, ending
  in the filter it would send to the results database.

Behaviour the model makes explicit:

- **Max plus one.** The address allocator takes the highest octet in the subnet
  plus one. It does not fill gaps: `.3` and `.7` give `.8`.
- **Exhaustion test.** Exhaustion is tested with `==` against 254. A table that
  already holds `.254` therefore yields the broadcast address `.255`.
- **Unreadable octets.** An unreadable octet in the subnet makes `int()` raise,
  so no address is produced. Addresses outside the subnet are ignored wherever
  they stand.
- **Eggname width.** Eggnames are `egg` followed by at least two digits, and have
  exactly five characters up to 98 machines.
- **Length check in `search`.** The query is stripped and cut at its first colon.
  The "too short" test looks at the value before it is left-stripped, so
  `name:  a` is accepted with the one-character value `a`.
  - A query with nothing before its colon is treated as a digest lookup of the
    text after the colon.
  - The `string` term sends the regex option `-1` (not `-i`); it is kept as written.

Two places where the code does less than its own comments and neighbouring
lines suggest; the model follows the code:

- `handle_count_available_machines` is documented as counting "the available
  machines for longterm analysis" (utils/experiment.py:183). It calls
  `count_machines_available()` without a tag (lines 190-192), and a TODO on
  line 188 says tags cannot be given yet. So the cron loop counts every
  available machine, not only machines tagged `longterm`.
- `handle_new` converts the timeout with `time_duration(timeout)` (line 133).
  It passes `delta` on as the text it was given (line 138).

## Model

| member | source | states |
|---|---|---|
| Text.Strip | utils/experiment.py:266-268 | `strip()`: the input with its leading and trailing whitespace removed, that is, a slice of the input whose dropped characters on either side are all whitespace, and which neither starts nor ends with whitespace; whitespace is that of the string type |
| Text.LStrip | web/analysis/views.py:281 | `lstrip()`: a suffix of the input, all of whose dropped characters are whitespace of the string type (Unicode whitespace for a `unicode` value), not starting with whitespace |
| Text.RStrip | utils/experiment.py:268 | `rstrip()`: a prefix of the input, all of whose dropped characters are whitespace, not ending with whitespace |
| Text.StripUnspaced | utils/experiment.py:268 | stripping a string that neither starts nor ends with whitespace returns it unchanged |
| Text.Split | utils/experiment.py:45 | `s.split(c)` has at least one piece and no piece contains `c` |
| Text.SplitJoin | utils/experiment.py:45 | splitting a join of `c`-free pieces gives back the pieces |
| Text.JoinSplit | utils/experiment.py:45 | joining the pieces of `s.split(c)` with `c` gives back `s` |
| Text.SplitCons | utils/experiment.py:134 | splitting `a + c + b` with `c` not in `a` gives `a` followed by the pieces of `b` |
| Text.IndexOf | utils/experiment.py:265 | the position found holds `c` and no earlier position does |
| Text.SplitOnce | utils/experiment.py:265 | `s.split(c, 1)` unpacked into two names fails exactly when `c` is absent; otherwise the first part has no `c` and the parts rebuild `s` |
| Text.SplitOnceAt | web/analysis/views.py:267 | `split(c, 1)` cuts at the first `c` |
| Text.LStripPadding | web/analysis/views.py:281 | left-stripping whitespace padding in front of a non-space character leaves exactly what follows the padding |
| Text.RStripPadding | utils/experiment.py:266-268 | right-stripping whitespace behind a value that does not end in whitespace leaves exactly the value |
| Text.StripPadded | web/analysis/views.py:267 | stripping a value that neither starts nor ends in whitespace, wrapped in any whitespace padding, gives back the value |
| Text.LStripUnspaced | utils/experiment.py:49 | left-stripping a string that does not start with whitespace returns it unchanged |
| Text.Words | utils/experiment.py:81 | `str.split()` yields only non-empty words without whitespace |
| Text.WordsJoin | utils/experiment.py:81 | `split()` of words joined by single spaces gives back the words |
| Text.FormatNat | utils/experiment.py:56 | `"%d"` of a natural number is its shortest numeral: digits with no leading zero (`0` alone for zero), one digit exactly below 10 |
| Text.DecimalValueOfFormatNat | utils/experiment.py:56 | the digits written for `n` read back as `n` |
| Text.CanonicalIsFormatNat | utils/experiment.py:56 | conversely, every numeral without leading zeros is what `"%d"` writes for its value, so `FormatNat` is the only such numeral |
| Text.DecimalValuePositive | utils/experiment.py:56 | a numeral starting with a non-zero digit has a positive value |
| Text.FormatInt | utils/experiment.py:56 | `"%d"`: for `n >= 0` the numeral without leading zeros whose value is `n`; for `n < 0` a minus sign followed by that numeral of `-n`; never surrounded by whitespace |
| Text.FormatPadded2 | utils/experiment.py:62 | `"%02d"`: digits whose value is `n`, exactly two below 100, and zero-padded only up to width two (a longer result has no leading zero) |
| Text.ParseInt | utils/experiment.py:49 | `int()` on a byte string: strip, optional sign, decimal digits; its properties are `ParseDigits`, `ParseNegativeDigits` and `ParseFormatInt` |
| Text.ParseFormatInt | utils/experiment.py:49 | `int()` reads back whatever `"%d"` wrote |
| Records.CountAvailable | utils/experiment.py:31 | `count_machines_available()` never exceeds the number of machines |
| Records.Max | utils/experiment.py:51 | `max()` of a non-empty list is an element no element exceeds |
| Allocators.ClassesAppend | utils/experiment.py:44-49 | each address is read on its own: the classes of a concatenation of tables are the concatenation of their classes |
| Allocators.ClassifyAddress | utils/experiment.py:45-49 | reading one address: outside the subnet unless it has four dot-separated parts starting `192`, `168`, `56`; then its octet, or unreadable when `int()` fails; its properties are `ClassifyPrefixed` and `ClassifyPrefixedText` |
| Allocators.ClassifyPrefixedText | utils/experiment.py:45-49 | `192.168.56.x` with an `x` free of dots that `int()` reads as `n` is classified as octet `n` |
| Allocators.PrefixSplit | utils/experiment.py:45 | `192.168.56.x` with `x` free of dots splits into the four parts `192`, `168`, `56`, `x` |
| Allocators.SubnetOctets | utils/experiment.py:43-49 | the octets collected in table order, or failure at the first unreadable one; its properties are `SubnetOctetsMembers`, `SubnetOctetsSkip` and `SubnetOctetsNoneExtends` |
| Allocators.SubnetOctetsStep | utils/experiment.py:44-49 | one more address extends the collected octets by its octet, leaves them alone when foreign, and fails when unreadable |
| Allocators.NextOctet | utils/experiment.py:51-54 | max plus one, 3 with no octet, exhaustion at 254; its properties are `NextOctetIsMaxPlusOne` and `ExhaustedExactlyAfter253` |
| Allocators.NextOctetAfter | utils/experiment.py:51-54 | adding the allocated octet makes the next allocation one higher |
| Allocators.NextAddress | utils/experiment.py:39-56 | the address `allocate_ip_address` returns for a table; its properties are `NextAddressIsMaxPlusOne`, `NextAddressFresh` and `NextAddressAfterProvisioning` |
| Allocators.AllocateIpAddress | utils/experiment.py:39-56 | the loop over the machine table returns exactly the next address of the specification |
| Allocators.SubnetOctetsNoneExtends | utils/experiment.py:49 | once an unreadable octet is met the whole computation fails |
| Allocators.SubnetOctetsMembers | utils/experiment.py:44-49 | when every subnet address is readable, the collected octets are exactly the octets present |
| Allocators.UnreadableFails | utils/experiment.py:49 | an unreadable octet anywhere makes the allocation fail |
| Allocators.NextOctetIsMaxPlusOne | utils/experiment.py:51-54 | the next octet is the largest present plus one, or 3 when none is present; the result is exhaustion exactly when that octet is 254 |
| Allocators.NextAddressIsMaxPlusOne | utils/experiment.py:51-56 | the same rule stated on the addresses: `192.168.56.<max+1>`, or exhaustion at 254 |
| Allocators.ClassifyPrefixed | utils/experiment.py:45-56 | an allocated address is read back as its own octet |
| Allocators.ForeignAddressIgnored | utils/experiment.py:46-47 | an address outside the subnet, wherever it stands, does not change the result |
| Allocators.SubnetOctetsSkip | utils/experiment.py:46-47 | an address outside the subnet contributes no octet |
| Allocators.NextAddressFresh | utils/experiment.py:51-56 | an allocated address is not already in the table |
| Allocators.ExhaustedExactlyAfter253 | utils/experiment.py:51-54 | the subnet counts as exhausted exactly when every address is readable and the highest octet present is 253 |
| Allocators.PastBoundaryGivesBroadcast | utils/experiment.py:52 | with `.254` present and nothing higher, the allocator returns `192.168.56.255` |
| Allocators.NextAddressAfterProvisioning | utils/experiment.py:51-56 | after the allocated address is added, the next call allocates the following octet |
| Allocators.ThreeAndSevenGiveEight | utils/experiment.py:51 | allocation takes max plus one and does not fill gaps: `.3` and `.7` give `.8` |
| Allocators.EmptyFleetStartsAtThree | utils/experiment.py:51-56 | an empty table gets `192.168.56.3` |
| Allocators.AllocateEggname | utils/experiment.py:59-62 | `egg` followed by at least two digits that read as the machine count plus one, without a leading zero once past two digits (`egg100`, not `egg0100`) |
| Allocators.EggnameInjective | utils/experiment.py:62 | different machine counts give different eggnames |
| Allocators.EggnameWidth | utils/experiment.py:60-62 | the name has five characters exactly up to 98 machines, and grows past that |
| Frontend.SignatureWords | utils/experiment.py:66-81 | every `ARGUMENTS` entry splits into the listed words |
| Frontend.Underscored | utils/experiment.py:250 | `replace("-", "_")`: no dash is left, only dashes change, each into an underscore, and a name without dashes is returned unchanged |
| Frontend.LookupAction | utils/experiment.py:250-255 | `hasattr(em, "handle_" + action)` over the closed set of actions; its properties are `LookupActionName` and `LookupActionSound` |
| Frontend.LookupActionName | utils/experiment.py:250-253 | every action is found under its name and under its dashed spelling |
| Frontend.LookupActionSound | utils/experiment.py:250-255 | a name is accepted only if, with dashes read as underscores, it is an action's name |
| Frontend.Coerce | utils/experiment.py:257-266 | a keyword value is `True`/`False` exactly when its stripped text is `true`/`false`, otherwise the stripped text |
| Frontend.Positional | utils/experiment.py:267-268 | positional arguments never contain `=` |
| Frontend.KeyValue | utils/experiment.py:264-266 | one token read as a keyword: its stripped key and coerced value when it holds `=`, nothing otherwise |
| Frontend.KeywordMap | utils/experiment.py:266 | the dictionary the keyword readings build, later tokens overwriting earlier ones; its properties are `KeywordMapDomain` and `KeywordMapLastWins` |
| Frontend.Keywords | utils/experiment.py:263-266 | the keyword dictionary of the tokens; its properties are `KeywordsDomain` and `KeywordsLastWins` |
| Frontend.PositionalSnoc | utils/experiment.py:263-268 | one more token adds its stripped self to the positional list exactly when it holds no `=` |
| Frontend.KeywordMapSnoc | utils/experiment.py:266 | one more keyword reading sets its key to its value, and a token without `=` changes nothing |
| Frontend.SplitArguments | utils/experiment.py:262-268 | the loop's lists are exactly the positional and keyword readings of the tokens |
| Frontend.KeywordMapDomain | utils/experiment.py:266 | a key is set exactly when some token names it |
| Frontend.KeywordMapLastWins | utils/experiment.py:266 | a key named more than once takes the value of its last token |
| Frontend.KeywordsDomain | utils/experiment.py:263-266 | the same as `KeywordMapDomain`, stated on the tokens |
| Frontend.KeywordsLastWins | utils/experiment.py:263-266 | the same as `KeywordMapLastWins`, stated on the tokens |
| Frontend.Required | utils/experiment.py:81-86 | a word is required when no `|` stands at or before it |
| Frontend.Missing | utils/experiment.py:86 | a required word is missing when no positional argument reaches its position and no keyword names it |
| Frontend.PositionalAppend | utils/experiment.py:263-268 | positional arguments keep their order across any split of the tokens |
| Frontend.CheckArguments | utils/experiment.py:79-87 | returns nothing exactly when no required word is missing, otherwise the first missing required word |
| Frontend.NewRequiresNameAndPath | utils/experiment.py:69-87 | `new` requires `name` and `path` and nothing else |
| Frontend.CronActionsRequireNothing | utils/experiment.py:71-87 | the actions the cron script calls require no argument |
| Frontend.ParseCommandLine | utils/experiment.py:250-277 | the call fails as an invalid action exactly when the action is unknown; a known action either gets the call with the split tokens, when no required word is missing, or reports the FIRST missing required word |
| Handlers.HandleNew | utils/experiment.py:119-138 | `add_path` gets a recurrent task whose tag list is `longterm` followed by the given tags, with the other arguments passed through |
| Handlers.NewDefaultTags | utils/experiment.py:119-134 | with the default empty tags the tag list is `longterm` and one empty tag |
| Handlers.HandleSchedule | utils/experiment.py:142-157 | an unknown experiment and one without tasks fail; otherwise it schedules from the experiment's highest task id with the given delta and timeout |
| Handlers.HandleDelta | utils/experiment.py:160-169 | with a value, only that experiment's delta changes; without one, nothing changes |
| Handlers.HandleTimeout | utils/experiment.py:171-180 | with a value, only that experiment's timeout changes; without one, nothing changes |
| Handlers.DeltaTimeoutCommute | utils/experiment.py:160-180 | setting a delta and setting a timeout do not interfere |
| Handlers.ScheduleIgnoresStoredSettings | utils/experiment.py:142-180 | stored delta and timeout do not change what `schedule` asks for |
| Provisioning.NextMachine | utils/experiment.py:32-35 | the machine a pass clones is available and tagged `longterm` |
| Provisioning.ProvisionFrom | utils/experiment.py:25-36 | the run of the loop from a table: stop at the floor, at the first allocation failure or at the first failed clone; its properties are `ProvisionShape`, `ProvisionClonesMissing` and the lemmas below |
| Provisioning.ProvisionStopsAt | utils/experiment.py:31-35 | the three ways a pass ends the run: five machines available, no address, or a failed clone |
| Provisioning.ProvisionContinues | utils/experiment.py:31-35 | a successful clone continues the run from the table grown by that machine |
| Provisioning.CountAvailableAppend | utils/experiment.py:31 | adding a machine raises the count by one exactly when it is available |
| Provisioning.ProvisionMachines | utils/experiment.py:25-35 | the loop ends as the specification run does; it only appends machines built from freshly computed address and eggname; it stops at the floor exactly when five machines are available, and every clone adds one available machine |
| Provisioning.ProvisionShape | utils/experiment.py:25-35 | a run only appends recomputed clones, stops at the floor exactly when five are available, and each clone adds one available machine |
| Provisioning.ExtendsTrans | utils/experiment.py:31-35 | passes compose: one extension of an extension is an extension of the original table |
| Provisioning.ExtendsAppend | utils/experiment.py:32-35 | appending the machine the next pass computes keeps the table an extension |
| Provisioning.ProvisionClonesMissing | utils/experiment.py:30-35 | a run that reaches the floor clones exactly the number of machines that were missing, none when five were already available |
| Provisioning.ProvisionReachesExactlyFloor | utils/experiment.py:31 | starting below the floor, a run never leaves more than five available |
| Provisioning.ProvisionAddressesFresh | utils/experiment.py:39-56 | no clone reuses an address already in the table |
| Provisioning.ProvisionNamesDistinct | utils/experiment.py:59-62 | the clones of one run have distinct eggnames |
| Lifecycle.RunningOf | web/analysis/views.py:447 | `list_tasks(experiment=e, status=TASK_RUNNING)`: the running tasks of the experiment, a subset of all its tasks |
| Lifecycle.Demote | web/analysis/views.py:449-451 | the experiment's running tasks become single-shot; every other task, and every task's status and experiment, stay as they were |
| Lifecycle.DemoteKeepsListings | web/analysis/views.py:447-456 | demoting changes neither listing of any experiment, so the later `list_tasks` at line 456 sees the same tasks |
| Lifecycle.DemoteIdempotent | web/analysis/views.py:449-451 | demoting twice is demoting once |
| Lifecycle.UnlockByExperiment | web/analysis/views.py:454 | every machine locked by the experiment becomes free and no machine remains locked by it; every other machine is unchanged |
| Lifecycle.UnlockIdempotent | web/analysis/views.py:454 | releasing twice is releasing once |
| Lifecycle.UnlockKeepsAvailable | web/analysis/views.py:454 | releasing raises the number of available machines by exactly the number the experiment held, so never lowers it |
| Lifecycle.ScheduleStep | web/analysis/views.py:420-428 | the `schedule` view on a store value; its properties are `ScheduleOnlyFlipsUnscheduled`, `ScheduleIdempotent` and `UnscheduleUndoesSchedule` |
| Lifecycle.UnscheduleStep | web/analysis/views.py:430-438 | the `unschedule` view on a store value; its properties are `UnscheduleOnlyFlipsScheduled` and `UnscheduleUndoesSchedule` |
| Lifecycle.TerminateStep | web/analysis/views.py:440-462 | the intended `terminate` view on a store value; its properties are the `Terminate` lemmas below |
| Lifecycle.TerminateAsWrittenStep | web/analysis/views.py:440-462 | `terminate` as the source runs it, failing on the undefined `TASK_SINGLE`; its properties are `TerminateAsWrittenDiffers` and `TerminateAsWrittenKeepsRecurring` |
| Lifecycle.RemoveStep | web/analysis/views.py:365-410 | the `remove` view on a store value; its property is `RemoveDecision` |
| Lifecycle.ScheduleOnlyFlipsUnscheduled | web/analysis/views.py:420-428 | only an UNSCHEDULED task becomes SCHEDULED; every other task and all other state are unchanged; an unknown task fails |
| Lifecycle.UnscheduleOnlyFlipsScheduled | web/analysis/views.py:430-438 | only a SCHEDULED task becomes UNSCHEDULED; everything else is unchanged; an unknown task fails |
| Lifecycle.UnscheduleUndoesSchedule | web/analysis/views.py:420-438 | unscheduling a freshly scheduled task restores the store |
| Lifecycle.ScheduleIdempotent | web/analysis/views.py:420-438 | scheduling twice is scheduling once, and likewise for unscheduling |
| Lifecycle.TerminateRemovesTask | web/analysis/views.py:440-445 | terminate always removes the task; an unknown task fails and nothing changes |
| Lifecycle.TerminatePendingTouchesNothingElse | web/analysis/views.py:446 | terminating a PENDING task changes no machine and no other task |
| Lifecycle.TerminateReleasesOrDemotes | web/analysis/views.py:446-454 | for a task not PENDING: the machine is released exactly when no other task of the experiment runs; otherwise the running tasks are demoted and the machines are left alone |
| Lifecycle.TerminateDropsEmptyExperiment | web/analysis/views.py:456-458 | the experiment is deleted exactly when it has no task left; other experiments remain |
| Lifecycle.TerminateIgnoresItself | web/analysis/views.py:443-447 | the deleted task itself does not count as running, so a lone running task releases its machine |
| Lifecycle.TerminateTwice | web/analysis/views.py:440-445 | a second terminate of the same task finds nothing and changes nothing |
| Lifecycle.TerminatePreservesValid | web/analysis/views.py:440-458 | terminate keeps every task attached to an existing experiment, and keeps any experiment from holding two machines |
| Lifecycle.RemoveDecision | web/analysis/views.py:369-406 | the task is deleted exactly when one analysis record matches; none or several give their error pages and leave the store untouched |
| Lifecycle.TerminateAsWrittenDiffers | web/analysis/views.py:446-458 | the source's terminate, whose `TASK_SINGLE` is never imported (line 24), agrees with the intended effect except when the task is not pending and other tasks of its experiment run: then it fails after the deletion, without demoting or releasing |
| Lifecycle.TerminateAsWrittenKeepsRecurring | web/analysis/views.py:447-451 | a concrete store where the source leaves a running task recurrent while the intended effect makes it single-shot |
| Lifecycle.TaskStore.SetStatus | web/analysis/views.py:424 | `set_status` changes that task's status and nothing else |
| Lifecycle.TaskStore.SetRepeat | web/analysis/views.py:449-451 | changes that task's repeat mode and nothing else |
| Lifecycle.TaskStore.DeleteTask | web/analysis/views.py:444 | `delete_task` removes the task and nothing else |
| Lifecycle.TaskStore.UnlockMachineByExperiment | web/analysis/views.py:454 | releases the experiment's machine and nothing else |
| Lifecycle.TaskStore.DeleteExperiment | web/analysis/views.py:458 | deletes the experiment and nothing else |
| Lifecycle.TaskStore.Schedule | web/analysis/views.py:420-428 | the view on the store fields ends in the state and page of `ScheduleStep` |
| Lifecycle.TaskStore.Unschedule | web/analysis/views.py:430-438 | the view on the store fields ends in the state and page of `UnscheduleStep` |
| Lifecycle.TaskStore.DemoteAll | web/analysis/views.py:449-451 | switching the running tasks one at a time gives `Demote` |
| Lifecycle.TaskStore.Terminate | web/analysis/views.py:440-462 | the intended view, step by step, ends in the state and page of `TerminateStep` |
| Lifecycle.TaskStore.TerminateAsWritten | web/analysis/views.py:440-462 | the view as the source runs it ends in the state and error of `TerminateAsWrittenStep` |
| Lifecycle.TaskStore.Remove | web/analysis/views.py:365-410 | the view ends in the state and page of `RemoveStep` |
| Search.TermQuery | web/analysis/views.py:283-315 | a filter exists exactly for the thirteen known terms, and it carries the given value |
| Search.TermAndValue | web/analysis/views.py:266-270 | with no colon, the term is empty and the value is the whole query; otherwise the query is term, colon, value, with no colon in the term |
| Search.TermAndValueAt | web/analysis/views.py:267 | the query is cut at its first colon |
| Search.ErrorMessage | web/analysis/views.py:274-330 | an error line is shown exactly for the too-short, invalid-term and unrecognised outcomes, and the invalid-term line ends with the term |
| Search.Classify | web/analysis/views.py:262-330 | the decision of `search` on the posted field; its properties are `ClassifyTerm`, `ClassifyDigest`, `TermValueNonEmpty`, `PaddedShortValueAccepted` and `DigestBehindUnicodePadding` |
| Search.ReMatchHex | web/analysis/views.py:317-323 | `re.match(r"^([a-fA-F\d]{n})$", v)`: `n` hex digits, then the end of the string or a final newline |
| Search.DigestQuery | web/analysis/views.py:316-330 | the digest lookups tried in order; its property is `DigestByLength` |
| Search.ClassifyTerm | web/analysis/views.py:267-316 | with a term in the `unicode` strip of the query: a value under 3 characters is too short, checked before the term; then a known term runs its filter on the left-stripped value, and an unknown one is an invalid term |
| Search.ClassifyDigest | web/analysis/views.py:267-330 | a query whose `unicode` strip has no colon, or nothing before its first colon, is a digest lookup of the value |
| Search.LeadingColon | web/analysis/views.py:267 | a query starting with a colon has an empty term and the rest as its value |
| Search.ClassifyNoTerm | web/analysis/views.py:316-330 | with an empty term the outcome is the digest lookup of the value, or unrecognised |
| Search.DigestByLength | web/analysis/views.py:317-330 | on a value not ending in whitespace, a hex string of length 32, 40, 64 or 128 maps to md5, sha1, sha256 or sha512, and anything else is unrecognised |
| Search.TestedValuesUnspaced | web/analysis/views.py:267-270 | the value the view tests never ends in whitespace, so `$` only matches at the end |
| Search.TermValueNonEmpty | web/analysis/views.py:272-281 | every term filter that is run has a non-empty value |
| Search.PaddedShortValueAccepted | web/analysis/views.py:274-281 | a one-character value behind two characters of Unicode whitespace passes the length check |
| Search.DigestBehindUnicodePadding | web/analysis/views.py:267-318 | an md5 wrapped in any Unicode whitespace, a trailing no-break space included, is still looked up as that md5 |

## Left out

- The results database (MongoDB and GridFS) is left out. So are the blob
  reference counts that `remove` deletes (web/analysis/views.py:369-393). Only
  the 0/1/many decision on the number of analysis records is kept, as a multiset
  of task ids.
- The queries `search` sends, their sorting, and the page data gathered after
  them are left out. The classification ends in the filter it would send.
- Django request handling and rendering are left out. So are `start` and the
  listing views (`index`, `experiment`, `pending`, `chunk`, `filtered_chunk`,
  `report`, `file`), which only query and format data. A rendered page is reduced
  to its message or error.
- The `Database` class is not part of this model. Its operations are modelled as
  exact operations on the store:
  - `list_tasks` returns every matching task;
  - `update_experiment` on an unknown name changes nothing;
  - `delete_task` on an unknown id changes nothing;
  - `view_task` and `view_experiment` return None for an unknown key, and the
    views' dereference of that None becomes an error outcome.
- `time_duration` is not part of this model. Durations reach `handle_schedule`
  and the timeout of `handle_new` already as integers.
- `handle_help`, `handle_list` and the printing of the handlers are console
  output and are left out. So is `handle_machine_cronjob`, which writes the
  script to a file.
- The external `vmcloak-clone` is reduced to one "register an available machine
  tagged `longterm`" step, and its success is a parameter of the run. `set -e` is
  modelled as the end of the run at the first failing command.
- The `getattr` dispatch is reflection. It is modelled as a closed set of actions,
  and `ParseCommandLine` ends in the call it would make.
- Python's binding of the positional and keyword arguments to the handler's
  parameters is left out.
- argparse parsing of the command line itself is left out. The model starts from
  the action name and the argument tokens.
- Concurrency between cron runs and user actions is outside the code shown and is
  not modelled. So are machines added out of band.
- `Text.ParseInt` models Python 2 `int()` on a byte string only: strip, an
  optional sign and ASCII digits; the addresses and argument tokens it reads
  are `str`. Python 2 `int()` of a `unicode` string also accepts Unicode decimal
  digits; no such string reaches it in the modelled code.
- Machine addresses and command-line tokens are read as byte strings (`str`),
  so their strip drops ASCII whitespace only; a `unicode` address from the
  database is not modelled.
- Search regexes are modelled only as far as the digest patterns go. For the
  term searches the pattern is passed on as text and is not interpreted.

## Findings

| source | as written | input that shows it | evidently intended | confidence | as-written member | corrected member |
|---|---|---|---|---|---|---|
| web/analysis/views.py:447-451 | the demotion branch of `terminate` uses `TASK_SINGLE`, which the import on line 24 does not bring in, and assigns to the list returned by `list_tasks` instead of to its tasks; the view raises after the task was deleted, the experiment's running tasks stay recurrent and its machine stays locked | two RUNNING recurrent tasks of one experiment, whose machine is locked, and `terminate` of the first | every running task of the experiment becomes single-shot, so that it frees the machine once done, and the view completes | not executed | Lifecycle.TerminateAsWrittenKeepsRecurring | Lifecycle.TerminateReleasesOrDemotes |
