# Season and registry services: a verified model

The Dendra network pays a daily, season-capped reward to the miners and jurors of an inference programme. The services
that decide the pay run beside the chain: they read chain records and an append-only evidence log, apply an integer
formula, and publish a ranking that anyone may recompute. Around them stand a faucet with sliding-window caps, a
registry of capacity reports, a reader of unwound audits, a jury model, a request generator and the relay's disk store.

This project models those services and proves what they promise over every run and every input: a cap holds over any
window, a crash loses only what it interrupted, a fast or resumable form agrees with the plain one, what is not known is
not paid. Where a promise holds on a condition only, the condition is proved exactly, in both directions.

The files, one module each:

- `Faucet`: the three counters, the state file, rollback, refund and the fail-closed restart.
- `FaucetAnswers`: what every request is answered, from the log of drips alone.
- `Evidence`, `UnwoundWork`: the evidence log at the level of bytes, and the pay of unwound jobs read from it.
- `UnwoundRule`: the same pay said on the lines of the log, without the sets and counts of the rule.
- `Damage`, `Exposure`: evidence with records missing, what then stays unpaid, and exactly what does not.
- `UnwindOrigin`: the resumable scan of block events through a cache.
- `CapacityStore`, `MinerClasses`, `RateLimiter`: the registry's store, what it may publish about one miner, its limiter.
- `SeasonRules`, `SeasonWindow`: rule sets, the registry that fixes them, the set of a day, the blocks of a day.
- `StateMarkers`: the markers of a job's state, and when a substring of it reads one.
- `JobStates`, `DayFacts`, `DayIdentities`, `SeasonCalc`: from job states to a day's facts, identities, pay and payments.
- `Verdicts`, `FaultReveal`: timely and paid verdicts, controlled faults and the reveal that lists them.
- `VerdictTally`, `RevealMeaning`: the counted verdicts as a replay of the blocks, and a reveal in plain terms.
- `JuryModel`: the exact distribution of a jury's votes.
- `Generator`: the day's request counters across restarts.
- `RelayStore`: the disk store of the relay.
- `Ordering`, `Accounts`, `Tally`, `Wrappers`: string order, sorting, permutations, sums, counting and options shared by
  the others.

What the model takes as given:

- Clocks never go back, and a file replaced by a rename is replaced whole or not at all and stays replaced.
- sha256 is any function with digests of 32 bytes. Nothing assumes it injective: results that would need it exhibit a
  collision as their other case, and the relay's file names are taken apart on the keys in use.
- The fingerprint of a rule set is any function of it.
- A listing of jobs holds each id once, and a job has one settlement height (where a result needs it, it says so).
- JSON, base64 and UTF-8 are functions; an evidence record is written on one line and a proper prefix of it does not
  parse. Dictionary fields of a wrong type are refused by the source and are not representable here.
- Floating point numbers are reals.
- The rules stated in the docstrings of `final_season_rank` and `final_season_server` are used only through the arguments
  they pass; those files are not part of this model.

Claims that turned out to hold on a condition, each proved as an if-and-only-if:

- The faucet's cooldown survives an unreadable state file exactly when it is at most one day
  (`Faucet.CooldownHoldsExactlyWhen`).
- The faucet refuses an address exactly when the log holds a live drip of it younger than the cooldown, provided every
  refund was saved: a refund whose save failed is forgotten by a restart, and the address stays refused
  (`FaucetAnswers.AnswersFromTheLog`; `LostRefundLocks` is such a run).
- The resumable scan, called again without failure, finishes exactly when no pause of its own scan, or none of a scan
  from nothing, leaves more ids in the cache than its bound: past it the cache is reset at every call
  (`UnwindOrigin.FinishesExactlyWhen`; `CrowdedNeverFinishes` is a chain where it does not).
- An unreadable line pays an unpaid unwound job exactly when the job is exposed (`Exposure.PaidByDamageExactlyWhen`);
  filing its grades under the day of its seal is what protects every job (`Exposure.FilingProtectsExactlyWhen`).
- An append stopped before the first byte of its record leaves no mark at all: that is harmless exactly when the record is
  not an incoherent grade (`Exposure.LossNeverPaysExactlyWhen`).
- A day's work voided by its grades stays void exactly when the day itself is not marked unreadable: `day_identities` does
  not read the marker, so a torn grade can make a graded-out day's work count again
  (`DayIdentities.VoidStaysExactlyWhen`). Unknown is not always unpaid there, whatever the ranking's rule says elsewhere.
- Unsigned traffic leaves the verified block alone exactly when STALE_S is at most PURGE_S
  (`CapacityStore.HarmlessExactlyWhen`).
- With every count saved, the generator keeps the day's number exactly when no day is named again after another was
  (`Generator.NumbersHoldExactlyWhen`).
- Ranks of the relay store strictly increase exactly unless two successive deposits of one nanosecond straddle the
  counter's wrap, or a restart off the wrap (`RelayStore.RanksIncrease`).

## Model

| member | source | states |
|---|---|---|
| Faucet.CapsHoldOverEveryRun | services/faucet.py:156-385 | over every run of requests, refunds, failed saves, restarts and damaged files, any 24 hours hold at most DAILY_CAP drips and IP_DAILY per IP, and no address is served twice within its cooldown without a refund, given a cooldown of at most a day or a file never damaged |
| Faucet.CooldownHoldsExactlyWhen | services/faucet.py:178-203 | the cooldown survives every run if and only if it is at most one day |
| Faucet.LongCooldownForgotten | services/faucet.py:178-203 | a run that serves an address twice within a cooldown longer than a day, after a start on an unreadable file |
| Faucet.StepKeeps | services/faucet.py:328-385 | every step keeps memory and file covering every drip that can still count |
| Faucet.RunKeeps | services/faucet.py:156-385 | the same invariant over every legal run |
| Faucet.FaucetService.RateOk | services/faucet.py:328-366 | the verdict and new counters of one request, rolled back when the save fails |
| Faucet.FaucetService.RateRefund | services/faucet.py:369-385 | the cooldown of the address is given back, the windows are not |
| Faucet.FaucetService.SaveState | services/faucet.py:156-175 | what the file holds after a save, or raises and leaves it |
| Faucet.FaucetService.LoadState | services/faucet.py:178-203 | a start takes back what still counts, and fills the day's cap on an unreadable file |
| FaucetAnswers.AnswersFromTheLog | services/faucet.py:328-366 | on every run whose file is never damaged, a request is refused for its address, then its IP, then the day, exactly when the log of drips says so (for the address, every refund being saved), and is granted otherwise unless the save fails |
| FaucetAnswers.StepInStep | services/faucet.py:156-385 | every event keeps the counters and the file equal to what the log says of the last day and the cooldowns |
| FaucetAnswers.RunInStep | services/faucet.py:156-385 | the same equality over every such run |
| FaucetAnswers.LostRefundLocks | services/faucet.py:369-385 | a run in which an unsaved refund, lost by a restart, leaves an address refused though the log holds no live drip of it |
| Evidence.AppendLines | services/final_season_evidence.py:32-47 | one append stopped at any byte adds at most one line, the part of the record that reached the file |
| Evidence.AppendReads | services/final_season_evidence.py:32-76 | what one append adds to a read: the record, one unreadable line, or nothing |
| Evidence.CrashLeavesCompleted | services/final_season_evidence.py:32-76 | after any appends each stopped anywhere, a read gives exactly the completed records in order and counts exactly the torn ones |
| Evidence.DayFile.Append | services/final_season_evidence.py:32-47 | the bytes of the file after an append that stopped anywhere |
| Evidence.DayFile.Read | services/final_season_evidence.py:59-76 | the records that parse, in order, then one marker counting the lines that do not |
| Damage.DamageNeverPays | services/final_season_facts.py:368-385 | a job paid on evidence with records missing, behind the unreadable marker or without a trace unless they are incoherent grades, is paid on the whole evidence |
| Damage.DamageNeverPaysMore | services/final_season_facts.py:388-423 | the same per miner over a season's files: the jobs paid are a subset |
| Damage.CrashesNeverPayMore | services/final_season_facts.py:314-429 | from bytes to pay: appends cut short anywhere in their record, or before it unless it is an incoherent grade, never add a paid job |
| Damage.CrashIsLoss | services/final_season_evidence.py:32-76 | a file whose appends were cut short reads as the whole file with those records behind the marker or lost |
| Damage.LossIsDamage | services/final_season_facts.py:388-423 | what is missing from the files is missing from the lines read, and marked or harmless |
| Exposure.PaidByDamageExactlyWhen | services/final_season_facts.py:329-385 | a job the whole evidence leaves unpaid is paid by some damage if and only if some seal's day stays unmarked once the days of its own grades and earlier seals are marked, and its miner's day then pays |
| Exposure.FilingProtectsExactlyWhen | services/final_season_facts.py:329-385 | grades of a job filed under one day and its seals under another protect it from every damage if and only if the days are one |
| Exposure.MisfiledGradePays | services/final_season_facts.py:329-385 | for every two different days, evidence and damage that pay a job the whole evidence leaves unpaid |
| Exposure.LossNeverPaysExactlyWhen | services/final_season_facts.py:368-423 | a record may be lost without a mark and never pay a job if and only if it is not an incoherent grade |
| Exposure.LostGradePays | services/final_season_facts.py:368-423 | for every incoherent grade, evidence in which losing it without a mark pays the job it was about |
| Exposure.FirstSeal | services/final_season_facts.py:336-345 | a job is sealed for the day of the first file that seals it |
| UnwoundWork.AnswerGrades | services/final_season_facts.py:83-91 | the dictionary of grades per answer and grader |
| UnwoundWork.AnswerGradesMeaning | services/final_season_facts.py:75-91 | an answer is incoherent in it exactly when it has grades and none says coherent |
| UnwoundWork.AnsweredJobs | services/final_season_facts.py:113-122 | exactly the jobs some seal lists |
| UnwoundWork.SealedDays | services/final_season_facts.py:336-345 | each sealed job under the day of its first seal |
| UnwoundWork.SampledOf | services/final_season_facts.py:314-326 | the sampled answers of each miner on the day |
| UnwoundWork.GradesOf | services/final_season_facts.py:314-326 | one combined grade per graded answer of each miner on the day |
| UnwoundWork.GradingReads | services/final_season_facts.py:362-365 | what every grading of the day is read from |
| UnwoundWork.DecideIsGrading | services/final_season_facts.py:368-385 | the decision on the dictionaries is the rule stated on the records |
| UnwoundWork.EntryPaysExactly | services/final_season_facts.py:388-423 | the published record says paid exactly when the rule pays |
| UnwoundWork.UnwoundWork | services/final_season_facts.py:388-423 | per miner, the number of unwound jobs the rule pays, and the record of every one |
| UnwoundRule.PaysExactly | services/final_season_facts.py:362-423 | an unwound job is paid exactly when the chain says it is clear, some line seals it, and its own coherent grade, or without a grade of its own a readable seal file and a day that speaks for it, is in the lines |
| UnwoundRule.GradingMeans | services/final_season_facts.py:314-385 | what each grading says of the lines: own grades first, then the file of the first seal, then the miner's day |
| UnwoundRule.FirstSealMeans | services/final_season_facts.py:336-345 | the day a job is sealed for is that of the first line that seals it |
| UnwoundRule.EntrySays | services/final_season_facts.py:388-423 | the published record of an unwound job: sealed, not sealed or unknown, and why it is not paid |
| UnwindOrigin.DrawnIsFinal | services/c3_gate.py:376-386 | what the cache learned of an unwound job's draw stays true at later heights |
| UnwindOrigin.SearchHeights | services/c3_gate.py:260-281 | the whole search when the page bound allows it, else its first pages, said incomplete |
| UnwindOrigin.ReadBlocks | services/c3_gate.py:358-371 | after any number of blocks, the cache holds what a scan to its height gives |
| UnwindOrigin.Resume | services/c3_gate.py:354-386 | a scan resumed anywhere answers as a scan from nothing |
| UnwindOrigin.ReadUnwindOrigin | services/c3_gate.py:307-389 | every answer given passed every check of the node and the listing and equals a one-shot scan up to the same height, whatever the cache held and whatever failed |
| UnwindOrigin.Refreshes | services/c3_gate.py:303-389 | the same over any sequence of refreshes, nodes and chains through one cache |
| UnwindOrigin.FinishesExactlyWhen | services/c3_gate.py:303-389 | from any cache, repeated calls without failure end with an answer if and only if no pause of its own scan, or none of a scan from nothing, is past the cache's bound; and then within twice as many calls as there are heights |
| UnwindOrigin.CallAgain | services/c3_gate.py:307-389 | one call without failure moves any cache as that account says |
| UnwindOrigin.RepeatedCalls | services/c3_gate.py:307-389 | from any cache an earlier refresh left, enough repeated calls answer exactly under that condition |
| UnwindOrigin.CrowdedNeverFinishes | services/c3_gate.py:339-342 | a chain on which no number of calls without failure answers, from nothing or from any cache that does not fit |
| UnwindOrigin.OriginMeans | services/c3_gate.py:324-386 | for every log, listing and height: an id is no-seed exactly when a block below unwound it in a no-seed loop, drawn exactly when it is also listed undisputed and a deferral names it, unknown exactly when no event query can carry it |
| UnwindOrigin.UndisputedMeans | services/c3_gate.py:324-325 | the undisputed jobs are those of the listing with the resolved and unwound markers and no disputed one |
| UnwindOrigin.UnwoundCountMeans | services/c3_gate.py:324-348 | the number the positive control compares is that of the listed jobs with the resolved and unwound markers |
| UnwindOrigin.UnwindBlocksMean | services/c3_gate.py:346-349 | what the positive control counts is the blocks that unwound a job |
| CapacityStore.NamespacesApart | services/capacity_server.py:180-218 | no key is in both keyspaces and a proven key names one miner |
| CapacityStore.CapDeclared | services/capacity_server.py:380-394 | at most DECLARED_MAX declared entries, the newest write kept, only oldest others evicted |
| CapacityStore.DeclaredFolded | services/capacity_server.py:240-285 | exactly the declared reports a signed report of the same machine and identity replaces |
| CapacityStore.Registry.DoPost | services/capacity_server.py:1494-1519 | the store after one report: refused as a replay, unavailable, or stored, superseding, purging and capping |
| CapacityStore.StoredShape | services/capacity_server.py:1494-1519 | a stored report is held, every other record unchanged, and a signed record leaves by age only |
| CapacityStore.NewestIsKept | services/capacity_server.py:380-394 | in every run the declared entries stay within their bound, and the report just stored is held exactly when it is still within its retention |
| CapacityStore.OnlyProofChanges | services/capacity_server.py:199-237 | in every run the record of a miner changes only by a deposit proven for it, or leaves by age |
| CapacityStore.OrderNeverGoesBack | services/capacity_server.py:361-377 | in every run the signed order of a fresh record never decreases |
| CapacityStore.AnsweredExactly | services/capacity_server.py:361-377 | a report is refused as a replay exactly when a fresh record of the same miner with a strictly greater order is held; every other one is stored when the store can be written |
| CapacityStore.NeverLockedOut | services/capacity_server.py:361-377 | the same order, any order over a stale record, and every unsigned report are stored |
| CapacityStore.LeavesExactlyWhen | services/capacity_server.py:221-237 | why an entry leaves on a deposit, and that entries past retention and the report's own key from before the namespaces always do |
| CapacityStore.BoundDropsTheOldest | services/capacity_server.py:380-394 | a declared entry is dropped by the bound exactly when fewer others are older, by time then key, than there are entries beyond the bound |
| CapacityStore.UnsignedTrafficNeverVerified | services/capacity_server.py:1002-1055 | no unsigned traffic alters the verified block at a given time and registry |
| CapacityStore.ShortRetentionLosesVerified | services/capacity_server.py:928-931 | with PURGE_S below STALE_S one unsigned report empties the verified block |
| CapacityStore.HarmlessExactlyWhen | services/capacity_server.py:1494-1519 | unsigned traffic is harmless to the verified block in every run if and only if STALE_S is at most PURGE_S |
| CapacityStore.VerifiedOncePerMiner | services/capacity_server.py:1002-1055 | a registered miner is counted at most once |
| CapacityStore.TotalAdds | services/capacity_server.py:1002-1055 | the sums of the verified block do not depend on the order of the rows |
| CapacityStore.AggregateVerified | services/capacity_server.py:1002-1055 | the loop computes the sums over exactly the fresh, unfolded, registered signed rows |
| CapacityStore.VerifiedExactly | services/capacity_server.py:1002-1055 | the rows counted are the signed reports of registered miners at most STALE_S old |
| CapacityStore.TotalSums | services/capacity_server.py:1002-1055 | each figure of the verified block by itself over any listing of the rows, memory and cores over the primary reports only |
| MinerClasses.Sizes | services/capacity_server.py:1277-1307 | how many registered rows share each class |
| MinerClasses.Publishable | services/capacity_server.py:1277-1307 | every published class covers MINER_ANONYMITY_MIN rows, the withheld pool is empty or as large, and nothing is withheld without need |
| MinerClasses.ClassesOf | services/capacity_server.py:1277-1307 | the same from any store and registry |
| MinerClasses.AnswersHideInACrowd | services/capacity_server.py:1310-1330 | a class shown or a report withheld is, the report's age aside, the answer of at least MINER_ANONYMITY_MIN miners, and with nothing published every registered id gets one answer |
| MinerClasses.AgeDatesToTheStep | services/capacity_server.py:1262-1269 | two reports are shown with one age exactly when they fall in one step, and then were stored less than a step apart |
| MinerClasses.ShownExactly | services/capacity_server.py:1310-1330 | exactly what is shown, withheld or absent for a registered miner, field by field |
| RateLimiter.DecidesAsFullHistory | services/capacity_server.py:1348-1364 | over every run the self-purging table decides as a limiter that keeps everything |
| RateLimiter.NeverMoreThanLimit | services/capacity_server.py:1348-1364 | no key is accepted more than `limit` times in any window |
| RateLimiter.TableHoldsRecentKeys | services/capacity_server.py:1348-1364 | every other key left after a call was accepted within the window |
| RateLimiter.Limiter.RateOk | services/capacity_server.py:1348-1364 | the decision and the table after one call |
| SeasonRules.CheckFaultPeriods | services/final_season_rules.py:187-212 | accepts exactly the sound, ordered, disjoint periods with distinct commitments |
| SeasonRules.OnePeriodPerDay | services/final_season_rules.py:421-427 | a day lies in at most one period |
| SeasonRules.AtImport | services/final_season_rules.py:144-253 | what the environment names gives a consistent registry |
| SeasonRules.RegistryOnlyGrows | services/final_season_rules.py:249-312 | over every call sequence what is fixed stays fixed and the history only grows |
| SeasonRules.NamedFixesAllOrNothing | services/final_season_rules.py:290-312 | a named set is fixed whole when its fingerprint binds it, else nothing changes |
| SeasonRules.FoundStaysFound | services/final_season_rules.py:321-327 | a fingerprint once found names the same set at the same position for ever |
| SeasonRules.RuleSetOf | services/final_season_rules.py:321-327 | the first set of the history with the fingerprint, or none has it |
| SeasonRules.RuleRegistry.constructor | services/final_season_rules.py:144-253 | the registry at import |
| SeasonRules.RuleRegistry.SetKitMin | services/final_season_rules.py:256-270 | the floor and the sets it completes; a refusal changes nothing |
| SeasonRules.RuleRegistry.SetFaultCommitments | services/final_season_rules.py:273-287 | the periods, the payer and the jury set; a refusal changes nothing |
| SeasonRules.RuleRegistry.JurySetNamed | services/final_season_rules.py:290-312 | the set named, and the registry that results |
| SeasonRules.SetsNeverGoBack | services/final_season_rules.py:330-404 | the set of a day is the one at its position, and positions never go back |
| SeasonRules.CapsNeverFall | services/final_season_rules.py:42-128 | along the history the caps never fall and the length of a day never changes |
| SeasonRules.RankedDayKeepsItsSet | services/final_season_rules.py:330-404 | a day once ranked keeps its set whatever is fixed afterwards |
| SeasonRules.InForceExactly | services/final_season_rules.py:330-404 | a day is given a set exactly when it is a season day, the first days are in order and the last set begun is fixed; and then that set |
| SeasonRules.EachSetChanges | services/final_season_rules.py:42-128 | what each set changes of the one before it and nothing else: unwound work, rates and caps doubled, half as many requests again, the kit keys, the jury keys |
| SeasonWindow.SeasonEndHeight | services/final_season_chain.py:139-155 | the greatest height before the end, lo - 1 when there is none, refused while the end is not passed |
| SeasonWindow.WholeSeconds | services/final_season_rules.py:507-513 | dropping the fraction of a header time loses nothing against a whole second |
| SeasonWindow.InDayExactly | services/final_season_rules.py:499-532 | a block lies in a day's window exactly when that is its day and it is not past the cut |
| SeasonWindow.WindowsApart | services/final_season_rules.py:516-532 | windows of different days share no block |
| SeasonWindow.SeasonDays | services/final_season_chain.py:139-155 | with the days cut at the searched height, a block lies in exactly its one day if and only if it is before the end |
| SeasonWindow.FirstFullDayIsFirst | services/final_season_facts.py:499-514 | the first full day is the first day starting after the registration's block |
| StateMarkers.SplitJoins | services/final_season_facts.py:280-281 | splitting a state loses nothing and no marker holds the separator |
| StateMarkers.MarkerIsSubstring | services/final_season_facts.py:93-102 | what the marker test reads, the substring test reads too |
| StateMarkers.SplitFindsMarkers | services/final_season_facts.py:280-281 | the split of a state holds exactly its markers, found by their positions |
| StateMarkers.WordInMarker | services/final_season_facts.py:93-110 | a word without the separator is in a state exactly when one of its markers holds it |
| StateMarkers.WordBeginsMarker | services/final_season_facts.py:93-110 | the separator and a word are in a state exactly when a later marker begins with the word |
| JobStates.PathsApart | services/final_season_facts.py:96-110 | no job is both final positive and unwound, and an unwound one has no outcome |
| JobStates.FinalPositiveMeans | services/final_season_facts.py:96-102 | paid for good exactly when a marker says paid, no slash is read, nothing was clawed back, unwound, refunded or expired, and no dispute is open |
| JobStates.OutcomeMeans | services/final_season_facts.py:104-110 | an outcome exactly when disputed, resolved and not unwound, a conviction exactly when clawed back or slashed |
| JobStates.JobUnwoundMeans | services/final_season_facts.py:270-292 | what the unwound path answers, on markers and slash: nothing, a refusal, a conviction, no primary, or clear |
| DayFacts.CountVotes | services/final_season_facts.py:240-242 | one more for each juror that agreed with the outcome on another's job, nothing for others |
| DayFacts.ChainDayFacts | services/final_season_facts.py:212-243 | for every miner the number of its jobs counted, for every juror the number of agreeing verdicts; refused while the day is not final |
| DayFacts.UnwoundProgrammeJobs | services/final_season_facts.py:295-311 | the unwound programme jobs of the window |
| DayFacts.UnwoundMeaning | services/final_season_facts.py:270-311 | each of them is a programme job settled in the window with the unwound marker, credited to its own miner |
| DayFacts.CreditedJob | services/final_season_facts.py:212-311 | a credited job is on exactly one path and credited to its own miner |
| DayFacts.CreditsCounted | services/final_season_facts.py:212-423 | the two operations together count exactly the jobs credited |
| DayFacts.CreditedOnce | services/final_season_facts.py:198-311 | a job credited by two rankings of a season was credited by one, to one miner |
| DayFacts.EachJobPaidOnce | services/final_season_facts.py:198-311 | over any days and miners the requests counted are as many as the jobs they are counted for |
| DayFacts.WindowMeans | services/final_season_facts.py:198-220 | the counted window is given exactly when its last block lies in the day and is final, and holds exactly the programme jobs settled in it |
| DayFacts.WorkMeans | services/final_season_facts.py:222-234 | what a verified request is, on heights, markers and slash |
| DayFacts.VerdictMeans | services/final_season_facts.py:235-243 | what a counted verdict is, on heights, markers and slash |
| DayFacts.UnwoundRefusedExactly | services/final_season_facts.py:270-311 | the unwound jobs are refused exactly while the day is not final or when the slash of one of them cannot be told |
| DayFacts.CreditedExactly | services/final_season_facts.py:198-423 | a job is credited to a miner exactly when it is its own programme job settled in the day and either paid for good and sealed, or unwound with nothing against it under a set that pays it and paid by the evidence |
| DayFacts.ConvictedIsNeverCredited | services/final_season_facts.py:280-292 | a credited job has no slash and no clawed marker; on the unwound path its slash was read as false |
| DayIdentities.Payouts | services/final_season_facts.py:439-442 | the address each miner declared last |
| DayIdentities.DayIdentities | services/final_season_facts.py:432-457 | one identity per miner of any family, in order, its work void when its day is graded out |
| DayIdentities.AlwaysAccepted | services/final_season_facts.py:432-457 | the calculation never refuses such identities under a set that knows their facts |
| DayIdentities.IdentityExactly | services/final_season_facts.py:432-457 | a miner has one identity exactly when some family names it, with its facts, no work on a graded-out day, and the address it declared last or the default |
| DayIdentities.VoidExactly | services/final_season_facts.py:443-452 | a day is void exactly when its grades are all incoherent and two answers were graded or at most one sampled |
| DayIdentities.VoidStaysExactlyWhen | services/final_season_facts.py:443-452 | a graded-out day stays void under every loss that marks only given days if and only if the day itself is not among them |
| DayIdentities.TornGradeUnvoids | services/final_season_facts.py:426-452 | of two sampled answers graded incoherent, one grade torn makes the day's work count again |
| SeasonCalc.ShareKeepsOrder | services/final_season_calc.py:196-201 | a larger payable is never paid less |
| SeasonCalc.BudgetShared | services/final_season_calc.py:194-201 | the floors fit the budget and lose less than one unit per payable row |
| SeasonCalc.BuildRows | services/final_season_calc.py:164-192 | the rows before the budget, refused on a bad row or an identity met twice |
| SeasonCalc.ComputeDay | services/final_season_calc.py:164-206 | the ranking, exactly when the facts are accepted |
| SeasonCalc.DayFitsItsBudget | services/final_season_calc.py:194-206 | a day stays within its caps and loses fewer units of a binding budget than it has payable rows |
| SeasonCalc.UnknownIsNeverPaid | services/final_season_calc.py:113-203 | nobody is paid without an address, the kit and dated registration the set requires, and work |
| SeasonCalc.OrderIsKept | services/final_season_calc.py:196-204 | between published rows order of payables is order of pay |
| SeasonCalc.RankingIgnoresOrder | services/final_season_calc.py:164-206 | every permutation of the identities is accepted alike and ranked identically |
| SeasonCalc.RankingIsSorted | services/final_season_calc.py:204-206 | the ranking holds every row of the facts once, best paid first, ties by miner id |
| SeasonCalc.EachFactIsWorth | services/final_season_calc.py:104-136 | one request, verdict, window or judge day more adds exactly its rate, windows up to their bound and none without a request |
| SeasonCalc.ProbationShare | services/final_season_calc.py:129-132 | a probation pays its share of the whole gross, rounded down |
| SeasonCalc.AcceptedExactly | services/final_season_calc.py:113-192 | the facts accepted: no identity twice, a judge flag of 0 or 1, and kit facts only under a set with the kit keys |
| SeasonCalc.RowSays | services/final_season_calc.py:164-192 | every published row carries one identity's facts, its gross is their worth at the set's rates, and its payable the whole gross when it is entitled and nothing otherwise |
| SeasonCalc.IdentityIsPublished | services/final_season_calc.py:164-206 | every identity has its row |
| SeasonCalc.BudgetExactly | services/final_season_calc.py:194-198 | the budget is the smaller of the daily cap and what the season cap leaves, floored at 0, and the share is the budget over the total when it binds |
| SeasonCalc.PayablesAddUp | services/final_season_calc.py:194-206 | the published payables and grosses add up to the totals |
| SeasonCalc.PaidExactly | services/final_season_calc.py:196-201 | a row is paid its payable when the total fits the budget, else its payable times the budget over the total, rounded down |
| SeasonCalc.PaidWhatIsDue | services/final_season_calc.py:164-206 | when what is due to the entitled rows fits both caps every row is paid exactly its due |
| SeasonCalc.ReasonsExactly | services/final_season_calc.py:164-203 | each reason is given exactly when it holds |
| SeasonCalc.SeasonWithinCaps | services/final_season_calc.py:164-206 | over any days and facts the set never goes back, each day fits its cap and the season its cap in force |
| SeasonCalc.AddDay | services/final_season_calc.py:212-217 | the payments of one day added to each address and to the whole |
| SeasonCalc.WeekTotals | services/final_season_calc.py:209-218 | per address exactly what it earned, in all exactly what was paid, in the order of the addresses; refuses exactly when a row is paid without an address |
| SeasonCalc.WeekPaysWhatTheDaysPaid | services/final_season_calc.py:209-218 | on days of a season the payment is never refused and adds up to what they paid |
| Verdicts.JobVerdicts | services/final_season_facts.py:169-192 | the verdicts of one audit that count, and the record of those in the window |
| Verdicts.TimelyVerdicts | services/final_season_facts.py:135-195 | exactly the verdicts committed before their resolution; refused exactly when a date was not read |
| Verdicts.JuryVerdicts | services/final_season_facts.py:695-725 | per juror, the number of verdicts committed strictly after its reveal arrived |
| Verdicts.PayIsVoteBlind | services/final_season_facts.py:695-725 | two days that differ only in the votes are refused alike and pay every juror the same verdicts |
| Verdicts.AbsentChangesNothing | services/final_season_facts.py:170-174 | verdicts with no commit in the window change nothing counted |
| Verdicts.FaultContradictions | services/final_season_facts.py:734-766 | exactly the jurors that voted for a contradicting fault, with no reveal in hand where that is the fault |
| Verdicts.ZeroIsNeverContradicted | services/final_season_facts.py:734-766 | a juror that votes only "0" is never contradicted |
| Verdicts.UnseenIsNotHeld | services/final_season_facts.py:135-195 | a verdict outside the window is neither paid nor held against its juror |
| VerdictTally.PrecedesExactly | services/final_season_facts.py:154-156 | a commit precedes the resolution exactly when the tally of every chain showing the two, replayed transactions first and end of block last, has read it |
| VerdictTally.CountedExactly | services/final_season_facts.py:135-195 | the counted verdicts are exactly those such a tally has always read, with their own votes |
| VerdictTally.ListedExactly | services/final_season_facts.py:170-195 | the record lists exactly the verdicts not known to be outside the window, and what was unknown first of those not counted |
| VerdictTally.PaidExactly | services/final_season_facts.py:695-725 | a verdict is paid exactly when its juror is not the miner audited, a reveal sealed to it arrived, and the commit's block is dated strictly later |
| VerdictTally.NotPaidExactly | services/final_season_facts.py:713-721 | the reason recorded for every verdict not paid |
| VerdictTally.HeldExactly | services/final_season_facts.py:750-766 | which votes on a fault are held against their juror, and why the others are not |
| FaultReveal.CheckTraps | services/final_season_facts.py:876-885 | accepts exactly the well formed, strictly ordered identities |
| FaultReveal.CheckEntries | services/final_season_facts.py:897-914 | accepts exactly the entries of committed identities in their drawn class, no job twice |
| FaultReveal.CheckFaultReveal | services/final_season_facts.py:844-915 | accepts exactly the reveal that opens the commitment |
| FaultReveal.HexRoundTrip | services/final_season_facts.py:851-853 | a hexadecimal digest stands for one sequence of bytes |
| FaultReveal.DrawnNotListed | services/final_season_facts.py:828-841 | the drawn requests left out, none exactly when the reveal is complete |
| FaultReveal.ListedIsDrawn | services/final_season_rules.py:448-459 | every listed job is drawn in its class for a committed identity |
| FaultReveal.ListsExactlyTheDrawn | services/final_season_facts.py:828-915 | an accepted, complete reveal lists exactly the drawn jobs of the scope, each in its drawn class |
| FaultReveal.RevealsAgree | services/final_season_facts.py:828-915 | two such reveals of one commitment agree on jobs and classes, or exhibit a sha256 collision |
| FaultReveal.FlagsAreNotBound | services/final_season_facts.py:898-914 | whether a drawn request was faulted, and its words, are not bound by the commitment |
| RevealMeaning.DrawExactly | services/final_season_rules.py:448-459 | a request is drawn exactly when the first eight bytes of its digest, as a number, leave a remainder below the rate; its class is at the remainder of the next eight |
| RevealMeaning.DrawsItsShare | services/final_season_rules.py:448-459 | of any 10 000 requests whose digests begin with consecutive numbers, exactly as many are drawn as the rate has basis points |
| RevealMeaning.ClassesExactly | services/final_season_facts.py:868-872 | a document may commit exactly seven lists of classes |
| RevealMeaning.TrapsExactly | services/final_season_facts.py:876-885 | the identities are some, well formed, and each strictly before all the later |
| RevealMeaning.AcceptedExactly | services/final_season_facts.py:844-915 | the accepted reveals in plain terms, from the digests to every entry |
| RevealMeaning.LeftOutExactly | services/final_season_facts.py:828-841 | what is reported left out is exactly the drawn, unlisted programme requests of committed identities settled within the blocks |
| RevealMeaning.LeftOutInOrder | services/final_season_facts.py:834-841 | in the order of their ids |
| JuryModel.VotesAreAll | services/c3_jury_model.py:40-50 | the reference sum ranges over every outcome of that many jurors and no other |
| JuryModel.VotesOnce | services/c3_jury_model.py:40-50 | it counts each outcome once |
| JuryModel.AddJuror | services/c3_jury_model.py:44-49 | one pass gives every count its juror's silence and the count above its vote |
| JuryModel.PoissonBinomial | services/c3_jury_model.py:40-50 | each entry is the sum over all outcomes with that many votes; none is negative and they sum to 1 |
| JuryModel.PAtLeast | services/c3_jury_model.py:53-59 | the probability of at least k votes, for every k |
| JuryModel.GeneratingFunction | services/c3_jury_model.py:40-50 | for every z the distribution, as a polynomial in z, is the product of 1 - p + p z over the jurors, each rate brought between 0 and 1 |
| JuryModel.RaisingRatesHelps | services/c3_jury_model.py:53-59 | the chance of a bar never drops when any rates are raised |
| JuryModel.PerfectJurorShifts | services/c3_jury_model.py:69-74 | a perfect juror shifts the distribution by one vote |
| JuryModel.BarRises | services/c3_jury_model.py:33-37 | a seat raises the bar by at most one; above the quorum three seats raise it by two |
| JuryModel.BarIsLeast | services/c3_jury_model.py:33-37 | the bar is the least number at or above the quorum that is two thirds of the seats |
| JuryModel.BelowCounts | services/c3_jury_model.py:76-81 | the jurors to fix are those below the target rate |
| JuryModel.AddedJurors | services/c3_jury_model.py:69-74 | a perfect juror that raises the bar changes nothing and none ever hurts |
| JuryModel.Scenarios | services/c3_jury_model.py:62-82 | both levers are exact, and along neither does the chance fall; a jury of no seats is refused |
| Generator.DayNumberHolds | services/final_season_generator.py:318-428 | over every run in which no day is named again after another, answers exceed the day's largest number, and requests three times it, by no more than those lost unsaved |
| Generator.SavedDaysNeverExceed | services/final_season_generator.py:365-428 | with every count saved neither is ever exceeded |
| Generator.QuotaWasNamed | services/final_season_generator.py:256-267 | the largest number in force is one a status named for that day |
| Generator.StepKeeps | services/final_season_generator.py:365-428 | every status, failed save, stop and restart keeps counters, file and what was sent in step |
| Generator.NumbersHoldExactlyWhen | services/final_season_generator.py:365-428 | with every count saved, the day's number holds over every run that names given days if and only if no day is named again after another was |
| Generator.EachVisitSends | services/final_season_generator.py:374-390 | a day named again after another is sent its whole number again, once per visit |
| Generator.SpacingSpreads | services/final_season_generator.py:239-253 | none exactly when the number is reached; else the requests left fill the span exactly, or come a second apart |
| Generator.SpanExactly | services/final_season_generator.py:239-253 | the span is five seconds per block left until the next day's first block, or the time left when shorter |
| Generator.SendsUntilTheNumber | services/final_season_generator.py:365-428 | on one day, over any replies and restarts with every count saved, the due requests are sent until the number is answered or three times it sent, and no longer |
| Generator.FindsExactly | services/final_season_generator.py:287-304 | what counts a status finds, and exactly when it stops the process |
| Generator.GeneratorProcess.ReadDay | services/final_season_generator.py:287-304 | a new day's counts come from the file; an unreadable file stops the process |
| Generator.GeneratorProcess.Send | services/final_season_generator.py:307-315 | one request counted, and its count saved whole or not at all |
| Generator.GeneratorProcess.Turn | services/final_season_generator.py:365-428 | one turn of the loop, with when its request is due and when it makes the next one due |
| RelayStore.RunMirrors | services/relay_store.py:112-157 | after any writes, removals and evictions interrupted anywhere, the directory holds exactly the live keys with their last completed values |
| RelayStore.ReadRecords | services/relay_store.py:175-195 | every readable record once, temporary files ignored, unreadable ones counted |
| RelayStore.EvictOld | services/relay_store.py:196-204 | the entries within retention in order, and the others' files deleted |
| RelayStore.LoadKind | services/relay_store.py:159-208 | one kind reloaded in rank order, with exactly how many records were unreadable and how many deleted |
| RelayStore.LoadReturnsLive | services/relay_store.py:159-208 | a reload gives every live key within retention once with its last value in rank order and deletes exactly those past it |
| RelayStore.ReloadAfterAnyRun | services/relay_store.py:104-208 | the same after any history with crashes |
| RelayStore.LiveExactly | services/relay_store.py:112-157 | a key is live exactly when some completed write of it was ended by nothing since, with that write's value |
| RelayStore.ComesBackExactly | services/relay_store.py:104-208 | after any history a reload gives an entry exactly when a completed write of its key, content and rank was ended by nothing since and is not older than the retention; no key twice, in rank order |
| RelayStore.RankDates | services/relay_store.py:183-190 | a record without a time is dated by the clock its rank was made from |
| RelayStore.RankOrder | services/relay_store.py:104-109 | ranks order by time, then by the counter modulo 1000, exactly |
| RelayStore.RanksIncrease | services/relay_store.py:104-109 | over any deposits and restarts, ranks strictly increase if and only if no two successive deposits of one nanosecond straddle the counter's wrap, or a restart that does not fall on a wrap |
| RelayStore.DiskStore.NextSeq | services/relay_store.py:104-109 | the next rank and the counter after it |
| RelayStore.DiskStore.Write | services/relay_store.py:112-136 | the directory after a write stopped at any stage |
| RelayStore.DiskStore.Remove | services/relay_store.py:153-157 | the record of the key is gone and nothing else |
| RelayStore.LoadAll | services/relay_store.py:172-208 | every kind reloaded as its own reload, and the two totals over them |
| RelayStore.DiskStore.Load | services/relay_store.py:159-208 | the same on the store: what each kind gives, the directory it leaves, and the totals |

## Left out

- HTTP handlers, sockets, retries and subprocess calls: plumbing around the cores; their answers are parameters.
- Signatures, addresses and sealing: a report's proven miner and its signed order are inputs.
- The chain itself: it appears as a log of jobs, events, heights and header times.
- `final_season_rank`, `final_season_server`, `final_season_payout`, `relay.py` and `the_proof.py` are not part of this model.
- `judge_presence`, `kit_report`, `contradicted_jurors` and `reveal_arrivals`: branch-by-branch readings of one record each.
- `audit_class`, `audit_partition` and the rest of the gate's report: settled by a reading.
- `_migrate_proven_prefix`: the store starts empty, with the keyspaces it has now.
- The page loops of `final_season_chain` other than the end search: the same shape as the paged walk of `UnwindOrigin`.
- The wording of `reason` strings, Prometheus text, hardware coarsening and display.
- The iteration order of the dictionaries that `sorted` walks: the results are dictionaries, equal whatever the order.
- A faucet without a state file forgets its counters at a restart: the runs proved about have a state file, or no restart.
- The operator removing the faucet's or the generator's state file by hand.
- Generator.GeneratorProcess.Turn: reads the clock once a turn, where the source reads it up to three times.
- RelayStore.DiskStore.Write: takes the rename as durable; the source's directory fsync is best effort, and a rename lost to a machine crash reads as a write that stopped before it.
- MinerClasses.AnswersHideInACrowd: compares the answers without the rounded age of the report, which the source publishes beside the class and which can differ within it; an unreadable registry, answered with an error, is not modelled.
- JuryModel.PoissonBinomial: computes on reals, so it says nothing of floating point rounding.
- FaultReveal.CheckFaultReveal: a field of a wrong JSON type is refused with the bytes that do not parse.
