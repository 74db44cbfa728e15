# What this project proves about NetBBS

A Dafny model of four parts of NetBBS whose correctness is not visible in any one function, with proofs
of what they promise. `dafny verify dfyconfig.toml` checks all of it.

## The managed-DNS service

The registration service hands out names, lets them mature, and keeps a record set at a DNS provider in step
with its table. Handlers are coroutines: every call to the provider is a point where other requests go on, and a
fresh registration never takes the lock that the other transitions hold.

- `registrations.dfy`, `registration_store.dfy`: the table, its statements as functions, and the database object whose
  methods run them in place.
- `rate_limit.dfy`, `dns_provider.dfy`: the token bucket and the provider, each with its object; the provider's contract is
  also proved of the dynamic updates (RFC 2136) that carry it out.
- `protocol.dfy`: the service as a state machine. One action is one block of code between two awaits. The lane records who
  holds the lock and what it has read so far. Calls fail or succeed, with or without effect, as the environment chooses.
- `server.dfy`: the server object. Each method is one such block, written with assignments and database calls, and proved to
  reach the state and give the reply that its step of the protocol says (`HandleRegister` that of `RegisterStep`, and so on);
  `Perform` joins them.
- `table_rules.dfy`, `protocol_invariant.dfy`: the invariant and that every action keeps it.
- `protocol_runs.dfy`, `maturation.dfy`, `cooldown.dfy`, `rename_continuity.dfy`, `admission_rate.dfy`: what holds in every run.
- `answers.dfy`, `rename_answers.dfy`: what every request is answered, exactly when, and what it brings about once the provider has
  answered, told of the columns of the rows; `kept_contact.dfy`: contact that is kept counts, whatever runs in between.
- `waiting_reclaims.dfy`, `unsound_landings.dfy`: when promises fail, exactly.
- `lane_order.dfy`, `scenarios.dfy`, `waiting_runs.dfy`, `claimed_twice.dfy`, `borrowed_contact.dfy`: runs in which they do.

The invariant holds in every run, and with it: nothing is left behind at the provider, a maturation time is set once, the cooldown holds, a rename
never goes dark, and the bound on admissions. Other promises do not hold in every run.

1. `_admit_reclaim` checks both caps and its callers check the status (services/managed_dns/server.py:791-799), then takes the lock (805),
   and reads only activity and credential again (806-810). `locked()` is false while the lock is promised to a waiter, such as the
   sweep; a reclaim arriving then queues behind it, contrary to the comment at 248-250. Meanwhile a registration may fill the cap or the node's
   slot, or the row may be revoked. Four promises can break: the cumulative cap, the node cap, that claims are distinct, and that a revoked row
   stays inactive. `waiting_reclaims.dfy` says, for every state, when the turn of a waiting reclaim keeps each; `waiting_runs.dfy` and
   `claimed_twice.dfy` have runs that break each. `Promises` names the promises a theorem watches, and the theorem assumes no more of the waiting
   turns than these need (`Harmless`), and only of those of the node or the name it is about; a run without waiting reclaims meets every such
   condition. For claims the condition is that of all links between rows (`TurnKeepsLinks`): `ClaimsCollide` gets there by a turn that leaves claims
   distinct but two active rows of a node unrelated, which a later rename chains and its completion breaks.
2. The deletion of a cancelled replacement's record yields. If the replaced name changes hands meanwhile, the cancellation records its contact on a
   row that was not read (services/managed_dns/server.py:1173-1220, services/managed_dns/store.py:455-467). `BorrowedContact` gives a run in which a
   stranger's row then matures too early. `LandingDeserves` and `SoundExactly` say when the row deserves the window it is left with; earned maturation
   assumes that of every cancellation that lands on the row, and `EveryUnsoundLandingSpoils` shows that none can be spared.

The lock serves its waiters first in, first out. The protocol lets a request take the idle lane although a reclaim waits for it, which no real run does,
so the theorems are about more runs than there are. `LaneOrder.InOrder` describes the runs that respect the queue: who waits, and why a waiting reclaim has
somebody ahead of it. The runs in `waiting_runs.dfy` and `claimed_twice.dfy` are in that order, and nobody waits in the one in `borrowed_contact.dfy`.

Assumptions: the clock never goes back; secrets are fresh and hashing is injective, so a credential is its hash; a call that reports success has
taken effect; a crash happens at an await, or between saving the bucket and inserting the row. Requests arrive validated.
The sweep may visit any name and purge at any time, from a pass begun at any past moment, which covers the order the program chooses.

## Read state on boards

`board_compaction.dfy` has the compact form of a reader's state, a floor and a bounded set of posts opened above it, and the loop that
folds one into the other. `board_sessions.dfy` lets any number of sessions read floor, newest post and rows at different moments and
write later from what they read, while posts arrive and are deleted. `read_positions.dfy` has the jump to the first unread post and the cursors of
file areas.

## Terminal and scenes

`terminal.dfy` and `screen.dfy` are the emulator, as functions on a screen and as the object that paints in place; `scene_codec.dfy` is the encoder,
the player that draws the runs again, and that the two undo each other. `sequences.dfy` says what each escape sequence and control character does
wherever it is fed, as the screen it leaves. Where the emulator raises an exception the model has no result,
and it is proved exactly when that is.

## Calendars and intervals

`backup_schedule.dfy`: slots, what is due, and polls and saves over time. A poll reads in a worker and marks later; a save that changes the timing in
between can fire for a past slot, contrary to the docstring at src/netbbs/backup_schedule.py:159-162. `SaveDuringPoll` says exactly when; only
the poll under way and the next one can. `prose.dfy`: merging spans and the text between them. `roster.dfy`: which entries of a roster are
kept, and cutting a line to the terminal.

## Model

| member | source | states |
|---|---|---|
| `ProtocolRuns.EveryRunObeysNodeCap` | services/managed_dns/server.py:736-740 | After any run a node has at most two active rows, and two only as a pending row and the row it names as replaced, if each waiting reclaim of the node that is carried out finds at most one active row of the node, the other half of its rename |
| `ProtocolRuns.EveryRunKeepsClaimsDistinct` | services/managed_dns/store.py:287-304 | After any run at most one pending or abandoned row names any given row as replaced, if each waiting reclaim that is carried out fits the links of renames |
| `ProtocolRuns.EveryRunLeavesNothingBehind` | services/managed_dns/server.py:1308-1334 | After any run at all, whatever provider calls failed and whatever ran during the awaits, a row that ever matured and is now released, abandoned or revoked has no record at the provider |
| `ProtocolRuns.EveryMaturationIsEarned` | services/managed_dns/server.py:1294-1345 | After any run in which no cancellation lands unsoundly on it, a matured row has behind it an unbroken chain of contacts by its own node, with no gap beyond the abandonment period, spanning at least the minimum age and ending at `maturedAt` |
| `ProtocolRuns.PendingIsNotMatured` | services/managed_dns/store.py:360-373 | After any run at all, pending means that `maturedAt` is unset and matured that it is set |
| `ProtocolRuns.SoundExactly` | services/managed_dns/server.py:1173-1220 | Whatever landed on other rows before, a finished cancellation leaves the row it contacts with a window it deserves if and only if it lands soundly |
| `Maturation.LandingDeserves` | services/managed_dns/store.py:455-467 | A cancellation that contacts a pending row, the one that was read or a fresh one, leaves it with a window it deserves if and only if the row is of the node that cancelled and is the row that was read, or its window starts now |
| `UnsoundLandings.EveryUnsoundLandingSpoils` | services/managed_dns/server.py:1173-1220 | After any run that is about to land a cancellation unsoundly, heartbeats alone can make the row it contacts mature unearned, whatever the two periods, as long as there are any |
| `Maturation.StepAudits` | services/managed_dns/server.py:942-963 | One step under which nothing lands unsoundly on a row keeps its audit trail in line with its columns |
| `Cooldown.MaturedAtIsSetOnce` | services/managed_dns/store.py:360-373 | After any run at all, whatever follows, a set `maturedAt` and its credential stay with the row; only a newly issued registration under the name can have others |
| `ProtocolRuns.EveryRunObeysCumulativeCap` | services/managed_dns/server.py:749-762 | After any run the active rows number at most the cumulative cap, although fresh registrations skip the lane and a cancellation yields between its check and its write, if each waiting reclaim that is carried out finds room in the table |
| `ProtocolRuns.RunKeepsInvariant` | services/managed_dns/server.py:248-251 | The invariant of table, records and lane survives any interleaving of blocks between awaits, and so does each promise it watches that no waiting reclaim harms |
| `ProtocolRuns.ClockAdvances` | services/managed_dns/server.py:215 | In no run does the clock go back |
| `Cooldown.EveryRevocationIsFinal` | services/managed_dns/server.py:713-734 | After any run, a revoked row is unchanged until its cooldown is over and never active again, and afterwards only a newly issued registration can hold its name, if no waiting reclaim of that name that is carried out from then on finds it revoked |
| `Cooldown.EveryCooldownHolds` | services/managed_dns/store.py:553-574 | After any run at all, whatever follows, an inactive name stays with its registration until its cooldown is over, unless a cancellation takes it that its own node has asked for |
| `Cooldown.CancellationIsOwn` | services/managed_dns/server.py:1123-1142 | A cancellation is admitted only for a rename whose two rows, and whose authenticated row, belong to one node |
| `Cooldown.CancellationTakesOwn` | services/managed_dns/store.py:419-444 | The row a cancellation deletes is a pending or abandoned replacement of the node that asked |
| `Cooldown.CancellationTakesOrLeaves` | services/managed_dns/store.py:419-468 | A finished cancellation deletes its replacement or leaves it unchanged, and never deletes a revoked one |
| `RenameContinuity.RenameNeverGoesDark` | services/managed_dns/server.py:1308-1334 | In any run, while a rename is outstanding and no deletion of the live record takes effect unanswered and nobody sweeps or revokes the live name, the live name is published; the step that ends it leaves it published, or has released it with a replacement matured and published |
| `RenameContinuity.StepStaysLive` | services/managed_dns/server.py:1308-1334 | The same for one step; with the links of renames whole it is the outstanding replacement that takes over |
| `RenameContinuity.CompletionEndsRename` | services/managed_dns/store.py:401-416 | Completion releases the old row and matures the replacement in the lane in one step, the new record being up |
| `RenameContinuity.RevocationSpares` | services/managed_dns/server.py:611-637 | A revocation touches neither the rows nor the records of names it does not target |
| `AdmissionRate.AdmissionsAreBounded` | services/managed_dns/server.py:749-754 | After any run, the rows inserted into the table in any window number at most the capacity plus the rate times its length, crashes and restarts included |
| `AdmissionRate.StepPays` | services/managed_dns/server.py:1086-1098 | Every row a step inserts is paid for with one token, and the persisted bucket keeps agreeing with the one in memory |
| `AdmissionRate.InsertionsAreCounted` | services/managed_dns/store.py:251-269 | A step raises the count of admissions by the number of rows it inserts into the table |
| `AdmissionRate.WaitingIsRewarded` | services/managed_dns/server.py:749-781 | After any run, once time enough for a token has passed, a registration of a name without a row is answered 201, if its node has no active row and the table has room |
| `WaitingReclaims.TurnKeepsCap` | services/managed_dns/server.py:798-815 | A waiting reclaim that is carried out keeps the cumulative cap if and only if the table still has room |
| `WaitingReclaims.TurnKeepsNodeCap` | services/managed_dns/server.py:791-815 | It keeps the cap of its node if and only if the node has at most one active row, the other half of its rename |
| `WaitingReclaims.NodeCapByRows` | services/managed_dns/server.py:791-815 | With the links whole: if and only if each active row of the node is a pending replacement of the returning row, or is what the returning row will replace |
| `WaitingReclaims.TurnKeepsClaims` | services/managed_dns/store.py:471-492 | It leaves claims distinct if and only if nobody else claims what its row claims |
| `WaitingReclaims.TurnKeepsLinks` | services/managed_dns/store.py:471-492 | It leaves the links of renames whole if and only if its row fits them |
| `WaitingReclaims.TurnRevives` | services/managed_dns/server.py:805-815 | It makes a revoked row active again if and only if its row has been revoked meanwhile |
| `LaneOrder.InOrderIsLegal` | services/managed_dns/server.py:248-251 | A run in the order of the lane's lock, waiters and all, is a run of the protocol and ends in the same state |
| `ClaimedTwice.ClaimsCollide` | services/managed_dns/store.py:287-304 | A concrete run in that order after which two manageable rows name the same one as replaced |
| `WaitingRuns.CapExceeded` | services/managed_dns/server.py:798-805 | A concrete run in that order in which a waiting reclaim exceeds the cumulative cap |
| `WaitingRuns.NodeCapBroken` | services/managed_dns/server.py:791-805 | A concrete run in that order in which a waiting reclaim gives its node two unrelated active rows |
| `WaitingRuns.RevokedRowReturns` | services/managed_dns/server.py:805-815 | A concrete run in that order in which a waiting reclaim makes a revoked row active again |
| `BorrowedContact.UnearnedMaturation` | services/managed_dns/server.py:1173-1220 | A concrete run in which a row matures without having earned it, because a stale cancellation recorded its contact on it |
| `Answers.HeartbeatAnswers` | services/managed_dns/server.py:1294-1371 | A heartbeat of an active row, with the lane free, records the contact, matures the row exactly when it is ripe and replaces nothing, and calls the provider with an address if and only if that address was observed and: the row is a ripe replacement, or it is live afterwards, the address is new to it, and it has only just become live, has no known address or is dynamic; otherwise it is answered 200 at once |
| `Answers.HeartbeatPublishes` | services/managed_dns/server.py:1347-1371 | When it does call, for a row that replaces nothing, and the provider answers, the record and the known address are the observed one and nobody else's record has changed; if the provider fails, only the contact has been recorded |
| `Answers.TakeOverAnswers` | services/managed_dns/server.py:1308-1341 | The two calls of a take-over, whatever ran meanwhile: after the first the old record goes if the old row is live and of the same node, and after the last the replacement is live and the old row released; a failure leaves the rest to the next heartbeat |
| `Answers.HeartbeatTakesOver` | services/managed_dns/server.py:1305-1341 | The heartbeat of a ripe replacement, with a provider that answers: its record is up before the old one goes, and then the one row is live and the other released, at the time of the heartbeat |
| `Answers.HeartbeatTakesOverNothing` | services/managed_dns/server.py:1308-1341 | With no live row of the same node to take over from, the replacement is live after its own record alone |
| `Answers.PublicationAnswers` | services/managed_dns/server.py:913-940 | A publication that succeeds makes the address known; one that fails leaves it to the next heartbeat, which a reclaim or a cancellation provokes by forgetting the address |
| `Answers.RegistrationAnswers` | services/managed_dns/server.py:736-781 | For a name that is free, or past its cooldown: 403 exactly when the node has an active row, 503 when the table is full, 429 when the bucket has earned no token; otherwise 201, a pending row and one token less, which no refusal costs |
| `Answers.RegistrationRefused` | services/managed_dns/server.py:700-733 | A name that is active, or cooling down without proof of whose it was, or revoked, is refused and nothing changes |
| `Answers.ReclaimAnswers` | services/managed_dns/server.py:783-815 | A reclaim, on either route, is refused when its node has an active row, when the table is full, when the lane is held, or by the index, in this order; otherwise the row is back with its identity and its past, and a live one is about to be published |
| `Answers.ReclaimRestores` | services/managed_dns/server.py:894-940 | A live row that is reclaimed is published at the observed address once the provider has answered; if it fails, the address is forgotten |
| `Answers.ReclaimRefused` | services/managed_dns/server.py:862-892 | The reclaim route answers the retry of a reclaim that succeeded, and refuses what only `/register` may decide |
| `Answers.TurnAnswers` | services/managed_dns/server.py:805-815 | A reclaim that waited looks once more whether its row is inactive and has its credential, and at nothing else |
| `Answers.ReleaseAnswers` | services/managed_dns/server.py:1398-1424 | A release is refused while a rename is under way on either side; a live row loses its record first, any other is released at once |
| `Answers.ReleaseTakesDown` | services/managed_dns/server.py:1415-1424 | A live row is released when its record is gone, and stays when the deletion fails |
| `Answers.SweepAnswers` | services/managed_dns/server.py:315-332 | A visit takes a row exactly when it is active and its latest contact, or its creation, lies before the pass by more than the abandonment period; a record it may have goes first, and if that fails the row stays |
| `Answers.PurgeAnswers` | services/managed_dns/server.py:336-338 | A pass deletes exactly the inactive rows whose cooldown was over when it began |
| `Answers.BusyLane` | services/managed_dns/server.py:1270-1273 | While the lane is held, heartbeats, renames, cancellations, releases and revocations are turned away, and nothing changes |
| `Answers.UnprovenCredential` | services/managed_dns/server.py:1279-1292 | A credential that no active row has is refused, and nothing changes |
| `RenameAnswers.RenameRefused` | services/managed_dns/server.py:990-1035 | A replacement cannot be renamed, nor a row to its own name, nor to another while a replacement of the same node stands |
| `RenameAnswers.RenameAskedAgain` | services/managed_dns/server.py:1027-1063 | The same rename asked for again: an abandoned replacement comes back if there is room and no other pending row replaces the same; both rows are in contact, and the replacement has a new secret |
| `RenameAnswers.RenameAnswers` | services/managed_dns/server.py:1003-1109 | A new rename, once a claim that does not stand is withdrawn: exactly which refusal, which deletes the expired row under the new name, and which costs a token; otherwise a pending replacement of the same node and kind, and the old row in contact |
| `RenameAnswers.CancelAnswers` | services/managed_dns/server.py:1123-1176 | Exactly when a cancellation is refused and how, the caps read on the table without the replacement; otherwise the replacement's record goes first |
| `RenameAnswers.CancelUnproven` | services/managed_dns/server.py:1123-1142 | A credential no row has cancels nothing |
| `RenameAnswers.CancelTakesBack` | services/managed_dns/server.py:1209-1220 | Once the provider has answered: the replacement and its record are gone and an active replaced row is in contact, whatever else changed; if the provider fails, nothing has |
| `RenameAnswers.CancelRevives` | services/managed_dns/server.py:1177-1237 | With an abandoned replaced row: exactly when it may still be revived, which refusal it is otherwise, and the row that comes back |
| `RenameAnswers.CancelRestores` | services/managed_dns/server.py:1222-1237 | A live row that comes back is published at the observed address once the provider has answered again |
| `RenameAnswers.RevokeRefused` | services/managed_dns/server.py:532-554 | A revocation of no row, a revoked one, or one that is not what was reviewed is refused |
| `RenameAnswers.RevocationRuns` | services/managed_dns/server.py:598-642 | With a provider that answers, a revocation runs to its end: every record goes that there may be, then every row; a failure leaves the rows alone |
| `RenameAnswers.RevokeTakesDown` | services/managed_dns/server.py:556-642 | A revocation takes the name and the other half of its rename of the same node, with any record they may have, and nothing else |
| `RenameAnswers.RevokesExactly` | services/managed_dns/server.py:611-637 | Whatever ran during the calls, the writes take exactly the targets whose credential is unchanged and that are not revoked |
| `KeptContact.EveryKeptContactCounts` | services/managed_dns/server.py:1294-1345 | After any run in which a pending row is never out of contact for longer than the abandonment period, whatever else ran, its next heartbeat finds it ripe exactly when the minimum age has passed since its window began, and matures it if it replaces nothing |
| `KeptContact.StepStands` | services/managed_dns/server.py:942-963 | No action moves the window of a pending row in contact |
| `ProtocolInvariant.StepKeeps` | services/managed_dns/server.py:248-251 | Every action leads from the invariant to the invariant, and keeps each watched promise unless it is the turn of a waiting reclaim that harms it |
| `ProtocolInvariant.InitiallyHolds` | services/managed_dns/server.py:193-251 | The empty service satisfies the invariant |
| `ProtocolInvariant.RegisterKeeps` | services/managed_dns/server.py:703-781 | Registration keeps the invariant, also while somebody else holds the lane |
| `ProtocolInvariant.HeartbeatKeeps` | services/managed_dns/server.py:1277-1371 | A heartbeat keeps the invariant |
| `ProtocolInvariant.RenameKeeps` | services/managed_dns/server.py:990-1109 | A rename, fresh or retried, keeps the invariant, the detaching of a stale relationship included |
| `ProtocolInvariant.FinishCancelKeeps` | services/managed_dns/server.py:1173-1235 | The second half of a cancellation keeps the invariant whatever happened during its provider call |
| `ProtocolInvariant.RevokeKeeps` | services/managed_dns/server.py:528-642 | A revocation keeps the invariant |
| `ProtocolInvariant.SweepKeeps` | services/managed_dns/server.py:304-333 | A visit of the sweep keeps the invariant |
| `ProtocolInvariant.PurgeKeeps` | services/managed_dns/store.py:553-574 | The purge keeps the invariant |
| `ProtocolInvariant.ContinueKeeps` | services/managed_dns/server.py:1308-1334 | Whatever follows a provider call, failed or not, keeps the invariant |
| `ProtocolInvariant.TurnKeeps` | services/managed_dns/server.py:805-815 | The turn of a waiting reclaim keeps the invariant, and the watched promises it does not harm |
| `ProtocolInvariant.HeldLane` | services/managed_dns/server.py:703-781 | Nothing that happens while the lane is held takes away what its owner will rely on |
| `TableRules.NodeCapHolds` | services/managed_dns/server.py:736-740 | The links of renames imply the cap for each node |
| `TableRules.NotFull` | services/managed_dns/store.py:323-334 | A node counts no active row exactly when it has none |
| `Registrations.ActiveAfterUpdate` | services/managed_dns/store.py:337-344 | What replacing or deleting one row does to the active rows that are counted |
| `ProtocolInvariant.ReactivateRows` | services/managed_dns/store.py:471-492 | A reactivated row keeps its identity, its maturation and its claim and is contacted now, unless the index on `replaces_name` refuses it |
| `ProtocolInvariant.RenameFreshRows` | services/managed_dns/server.py:1064-1109 | A new rename leaves the table alone, or deletes the expired row under the new name, records the contact and inserts the replacement |
| `ProtocolInvariant.RetryRenameRows` | services/managed_dns/server.py:1027-1063 | A retried rename contacts both rows, revives the replacement and mints its secret anew, and touches no other row |
| `ProtocolInvariant.FinishCancelRows` | services/managed_dns/server.py:1173-1235 | A finished cancellation removes the replacement and at most contacts or revives the previous row |
| `ProtocolInvariant.HeartbeatRows` | services/managed_dns/server.py:1294-1345 | A heartbeat contacts its row and matures it in place exactly when it is pending, old enough and replaces nothing |
| `Server.ManagedDnsServer.SpendToken` | services/managed_dns/server.py:751-754 | Asks the bucket for a token and saves it exactly when it is granted |
| `Server.ManagedDnsServer.RevokeRest` | services/managed_dns/server.py:598-642 | Deletes what is left to delete, one call at a time, then revokes |
| `Server.ManagedDnsServer.RevokeTargets` | services/managed_dns/server.py:611-637 | Revokes exactly the targets whose credential is unchanged |
| `Server.ManagedDnsServer.GoOn` | services/managed_dns/server.py:304-347 | The state and reply of `Protocol.Continue` for every owner of the lane |
| `Server.ManagedDnsServer.Perform` | services/managed_dns/server.py:248-251 | One action of the service: the state and the reply are those of the protocol's step, the invariant holds again, and so does each watched promise the action does not harm |
| `RegistrationStore.Database.InsertRegistration` | services/managed_dns/store.py:251-269 | Inserts a pending row unless the name, the credential or a pending claim on the replaced name is taken |
| `RegistrationStore.Database.GetByCredential` | services/managed_dns/store.py:307-311 | The row with the credential, if any |
| `RegistrationStore.Database.GetReplacementFor` | services/managed_dns/store.py:287-294 | The newest pending or abandoned row naming the given one, if any |
| `RegistrationStore.Database.RevokeRegistration` | services/managed_dns/store.py:510-534 | Any row but a revoked one |
| `RegistrationStore.Database.CompleteRename` | services/managed_dns/store.py:401-416 | Matures the replacement and releases the previous row of the same node |
| `RegistrationStore.Database.CancelPendingReplacement` | services/managed_dns/store.py:419-468 | Deletes the replacement and contacts or revives the previous row; nothing changes when the replacement is gone or the index refuses the revival |
| `RegistrationStore.Database.Reclaim` | services/managed_dns/store.py:471-492 | Back to matured or pending, without a look at the status, unless the index on `replaces_name` refuses it |
| `RegistrationStore.Database.DeleteExpiredRegistrations` | services/managed_dns/store.py:553-574 | Deletes exactly the inactive rows released before the cutoff |
| `Registrations.ReplacementFor` | services/managed_dns/store.py:287-294 | Finds the newest claiming row, and none only when there is none |
| `Registrations.ReplacementForIsOnlyClaim` | services/managed_dns/store.py:287-294 | With distinct claims the newest is the only one, so the lookup misses nothing |
| `RateLimit.RefillTwice` | services/managed_dns/rate_limit.py:44-48 | Refilling in two steps equals refilling once |
| `RateLimit.LevelGrowth` | services/managed_dns/rate_limit.py:44-48 | Waiting raises the level by at most the rate |
| `RateLimit.AllowsExactly` | services/managed_dns/rate_limit.py:44-56 | A bucket grants exactly when it can hold a token and what it held, with what it has earned since, makes one; its level is what it held and earned, up to the capacity |
| `RateLimit.GlobalRateLimiter.constructor` | services/managed_dns/rate_limit.py:34-42 | Full, or what was saved, clamped to the capacity |
| `RateLimit.GlobalRateLimiter.RefillNow` | services/managed_dns/rate_limit.py:44-48 | The bucket becomes the refilled one |
| `RateLimit.GlobalRateLimiter.Allow` | services/managed_dns/rate_limit.py:50-56 | Grants and takes a token exactly when the refilled bucket has one |
| `DnsProvider.LoggingDnsProvider.UpsertRecord` | services/managed_dns/dns_provider.py:77-79 | The name has the address and no other; the call is logged |
| `DnsProvider.LoggingDnsProvider.DeleteRecord` | services/managed_dns/dns_provider.py:81-83 | The name has no address; the call is logged |
| `DnsProvider.ZoneFollows` | services/managed_dns/dns_provider.py:124-154 | For any sequence of calls, a zone driven by the dynamic updates publishes for every name one address of one family, the recorded one, or none, and keeps its records of other types |
| `BoardCompaction.CompactionIsSafe` | src/netbbs/activity.py:267-295 | Compaction leaves at most the cap of opened posts, moves the floor up to an opened post if at all, makes nothing unread, reads only posts at or below the new floor, and stops only before a post not opened |
| `BoardCompaction.CompactionPreserves` | src/netbbs/activity.py:277-287 | Without the cap the unread set is unchanged |
| `BoardCompaction.CapIsReported` | src/netbbs/activity.py:288-295 | Unread posts are given up exactly when the cap moves the floor past a visible post; when every opened post is visible, exactly when the cap is reported |
| `BoardCompaction.CapWithoutLoss` | src/netbbs/activity.py:288-295 | A concrete state in which the cap is reported and nothing is given up: the opened posts have been hidden since |
| `BoardCompaction.FoldedIsOpen` | src/netbbs/activity.py:281-285 | The walk passes opened posts only and stops before one that is not |
| `BoardCompaction.ReadRows.Compact` | src/netbbs/activity.py:267-295 | The loop ends and computes `Compacted`; exactly the rows above the new floor stay |
| `BoardCompaction.ReadRows.Sorted` | src/netbbs/activity.py:290 | Ascending, with the same elements |
| `BoardCompaction.ReadRows.Walk` | src/netbbs/activity.py:281-285 | The walk computes `Folded` |
| `BoardCompaction.ReadRows.RaiseFloor` | src/netbbs/activity.py:298-307 | The floor never goes down |
| `BoardCompaction.ReadRows.EnsureBaseline` | src/netbbs/activity.py:232-255 | Only the first baseline counts |
| `BoardCompaction.ReadRows.RecordOpened` | src/netbbs/activity.py:330-352 | Inserts the opened post while it exists, compacts from the floor that was read, raises the floor |
| `BoardCompaction.ReadRows.MarkRead` | src/netbbs/activity.py:355-369 | Compacts from the newest visible post and raises the floor |
| `BoardCompaction.ReadRows.UnreadPostIds` | src/netbbs/activity.py:372-383 | Exactly the posts above the floor that were not opened; none on a board never visited |
| `BoardSessions.ReadingIsKept` | src/netbbs/activity.py:298-369 | However many sessions write from stale floors, the floor never falls, a read post stays read while it exists, the cap holds, and unless the cap gave posts up the unread set is exactly what the openings and markings left |
| `BoardSessions.EveryRunKeeps` | src/netbbs/activity.py:298-369 | Every state that sessions reach from an empty board is one the theorems are about |
| `BoardSessions.StepIsGood` | src/netbbs/activity.py:330-369 | The same for one step of one session |
| `BoardSessions.FirstVisit` | src/netbbs/activity.py:232-255 | A first visit leaves nothing unread that it saw |
| `BoardSessions.OpeningReports` | src/netbbs/activity.py:330-352 | Opening a post reports a cap only when as many are opened as the cap allows, and a session that knows the floor as it is reports one exactly when other posts were given up |
| `BoardSessions.MarkingGivesNothingUp` | src/netbbs/activity.py:355-369 | Marking all read never gives posts up, whatever has been read before and however long ago |
| `ReadPositions.BoardReadCursor` | src/netbbs/activity.py:408-438 | The first post after the returned anchor is exactly the first unread one in feed order, none when nothing is unread; the anchor is the post before it, or the newest |
| `ReadPositions.FileAreaCursor.RecordSeen` | src/netbbs/activity.py:128-162 | Each of the two watermarks only moves forward |
| `ReadPositions.RecordedIsWatermarks` | src/netbbs/activity.py:128-162 | The cursor ends at the greatest arrival and the furthest feed position of all views |
| `ReadPositions.OrderDoesNotMatter` | src/netbbs/activity.py:147-162 | Views in any order leave the same cursor |
| `Terminal.FeedFrom` | scripts/website_ansi_to_html.py:241-271 | Whatever is fed, unless it raises, the buffer keeps height rows of width cells, the cursor stays in range with its column at most the width, and so does the saved one |
| `Terminal.Index` | scripts/website_ansi_to_html.py:162-168 | A line feed raises exactly when it must scroll a region that starts below the screen |
| `Screen.ScrollMovesRegion` | scripts/website_ansi_to_html.py:162-168 | A scroll at the bottom of a region shifts its rows up by one, blanks the last and touches no other; an upside-down region moves the rows between down |
| `Screen.EraseLineBlanks` | scripts/website_ansi_to_html.py:170-178 | Which cells of the cursor's row an erasure in line blanks |
| `Screen.EraseDisplayBlanks` | scripts/website_ansi_to_html.py:180-191 | Which cells an erasure in display blanks |
| `Screen.PutPaintsOneCell` | scripts/website_ansi_to_html.py:155-160 | A glyph paints one cell, after the deferred wrap |
| `Screen.SgrJoins` | scripts/website_ansi_to_html.py:195-237 | Two renditions may be joined into one, unless the first leaves a colour selector hanging |
| `Screen.SgrRaises` | scripts/website_ansi_to_html.py:226-236 | A rendition raises exactly when its parameters end in a colour cut short |
| `Screen.StepRaises` | scripts/website_ansi_to_html.py:241-277 | Exactly when a character or an escape sequence raises |
| `Sequences.PositionedGlyph` | scripts/website_ansi_to_html.py:273-285 | Feeding a position (CUP, section 8.3.21 of ECMA-48) and a glyph paints that glyph on that line and in that column, clamped to the screen, and no other cell |
| `Sequences.ParametersReadBack` | scripts/website_ansi_to_html.py:276 | The numbers written between semicolons are the parameters read |
| `Sequences.LeftOutIsZero` | scripts/website_ansi_to_html.py:276 | A parameter left out, before others or after them, is 0 |
| `Sequences.ControlFed` | scripts/website_ansi_to_html.py:241-250 | A control sequence is read whole wherever it stands, acts with its parameters, and feeding goes on behind it |
| `Sequences.CursorPosition` | scripts/website_ansi_to_html.py:283-285 | First the line, then the column, each counted from one and clamped; the cursor moves there and nothing else changes |
| `Sequences.CursorUp` | scripts/website_ansi_to_html.py:286-287 | As many lines up as given, at least one, at most to the first |
| `Sequences.CursorDown` | scripts/website_ansi_to_html.py:288-289 | As many lines down, at most to the last |
| `Sequences.CursorForward` | scripts/website_ansi_to_html.py:290-291 | As many columns on, at most to the last |
| `Sequences.CursorBack` | scripts/website_ansi_to_html.py:292-293 | As many columns back, at most to the first |
| `Sequences.CursorColumn` | scripts/website_ansi_to_html.py:294-295 | The column, counted from one and clamped |
| `Sequences.ScrollRegion` | scripts/website_ansi_to_html.py:300-303 | The region from one line to another, a missing end being the screen's, and the cursor home |
| `Sequences.SavedComesBack` | scripts/website_ansi_to_html.py:251-257 | What is saved, either way, comes back when it is restored, either way, whatever is fed in between that saves no other; what was painted stays |
| `Sequences.NothingToRestore` | scripts/website_ansi_to_html.py:254-307 | With nothing saved, restoring does nothing |
| `Sequences.EraseInDisplay` | scripts/website_ansi_to_html.py:296-297 | Which cells an erasure in display blanks, and that it does nothing else |
| `Sequences.EraseInLine` | scripts/website_ansi_to_html.py:298-299 | Which cells an erasure in line blanks, and that it does nothing else |
| `Sequences.PrivateMode` | scripts/website_ansi_to_html.py:274-275 | A private mode is skipped whole |
| `Sequences.Skipped` | scripts/website_ansi_to_html.py:281-307 | So is a sequence that ends in a letter without a meaning |
| `Sequences.OtherEscape` | scripts/website_ansi_to_html.py:251-257 | Any other escape takes the next character along |
| `Sequences.LineFeedFed` | scripts/website_ansi_to_html.py:258-260 | To the start of the next line, or a scroll of the region that ends there |
| `Sequences.PlainControls` | scripts/website_ansi_to_html.py:261-268 | Carriage return, backspace, bell, nothing, and the tabulator |
| `Sequences.GlyphFed` | scripts/website_ansi_to_html.py:269-270 | A glyph is painted under the cursor in the present style, and the cursor moves on |
| `Sequences.TextIsShown` | scripts/website_ansi_to_html.py:145-160 | A line of text fed to a new screen shows there, plain, and all else is blank |
| `Sequences.OneRendition` | scripts/website_ansi_to_html.py:195-228 | What one parameter of a rendition does to each of the five attributes, on the fed text |
| `Sequences.ColourRendition` | scripts/website_ansi_to_html.py:228-236 | A colour selected by number or by its parts becomes that of the text, or of the ground under it, and of nothing else |
| `Sequences.SelectorAlone` | scripts/website_ansi_to_html.py:228-237 | A selector that no known kind of colour follows counts for nothing, and what follows it for itself |
| `Sequences.PaletteCube` | scripts/website_ansi_to_html.py:48-58 | The cube of six levels a side and the ramp of greys |
| `Sequences.PaletteBits` | scripts/website_ansi_to_html.py:42-53 | The bits of a number below 16 say which of red, green and blue are in its colour, and whether it is bright |
| `Screen.Screen.ClearDisplay` | scripts/website_ansi_to_html.py:180-191 | `Terminal.EraseDisplay`, row by row |
| `Screen.Screen.Rendition` | scripts/website_ansi_to_html.py:195-237 | The loop computes `Terminal.Sgr` |
| `Screen.Screen.FeedAll` | scripts/website_ansi_to_html.py:241-271 | The loop computes `Terminal.Feed` |
| `SceneCodec.RoundTrip` | web/game-scenes.js:52-92 | For every cast and every k, the player's grid after k frames shows in each cell the glyph and style sheet of the emulator's cell after k frames |
| `SceneCodec.FrameDecodes` | web/game-scenes.js:74-92 | Drawing the runs of a frame takes the previous picture to the next |
| `SceneCodec.WritesExactlyTheChanges` | scripts/website_scene_to_html.py:38-55 | A frame writes a cell if and only if it changed, and by one run |
| `SceneCodec.Convert` | scripts/website_scene_to_html.py:33-58 | Every frame is encoded faithfully against the final style table, which has no duplicates; there is no result exactly when the emulator raises |
| `SceneCodec.EncodeFrame` | scripts/website_scene_to_html.py:40-54 | The runs fit, are in order, and cover every change |
| `SceneCodec.EncodeRow` | scripts/website_scene_to_html.py:41-54 | The same for a row |
| `SceneCodec.TakeRun` | scripts/website_scene_to_html.py:47-50 | A run goes on over changed cells of one style |
| `SceneCodec.Intern` | scripts/website_scene_to_html.py:51-52 | A style sheet has one index, which never changes |
| `SceneCodec.BlocksAgree` | web/game-scenes.js:19-30 | The player paints a block glyph as the still does, whatever the style |
| `SceneCodec.BlockGlyphsFill` | scripts/website_ansi_to_html.py:100-134 | What each of the fifteen block glyphs paints: the quarters its shape covers in the colour of the text, the others in that of the ground |
| `SceneCodec.ColoursReadBack` | scripts/website_ansi_to_html.py:78-98 | The colours of a style can be read back from its style sheet: the two of the style, or, in reverse video, exchanged, with the page's for what is unset; and so can bold and underlined |
| `SceneCodec.PaintedRunsAt` | web/game-scenes.js:74-92 | Cell by cell, what drawing a list of runs does |
| `SceneCodec.Player.constructor` | web/game-scenes.js:52-72 | A blank grid |
| `SceneCodec.Player.Apply` | web/game-scenes.js:74-92 | The loops draw the runs of one frame |
| `SceneCodec.Player.Finish` | web/game-scenes.js:105-109 | Draws all frames that are left |
| `BackupSchedule.LatestIsGreatest` | src/netbbs/backup_schedule.py:326-336 | The greatest slot not after now, for every zone whose local date is monotone and whose slots stay on their date |
| `BackupSchedule.NextIsLeast` | src/netbbs/backup_schedule.py:339-345 | The least slot after now |
| `BackupSchedule.DueExactly` | src/netbbs/backup_schedule.py:348-360 | A slot is due if and only if one lies after the handled moment and not after now; then it is the latest of them |
| `BackupSchedule.OnePassASlot` | src/netbbs/backup_schedule.py:447-463 | In any run each slot starts at most one pass, and slots missed between passes none, saves in the middle of a poll included |
| `BackupSchedule.EveryRunKeeps` | src/netbbs/backup_schedule.py:447-463 | Every state that a run reaches from a starting node is one the theorems are about |
| `BackupSchedule.OneCatchUp` | src/netbbs/backup_schedule.py:447-463 | However many slots were missed, one pass is started, for the latest, and nothing is due before the next slot |
| `BackupSchedule.NewTimingIsForward` | src/netbbs/backup_schedule.py:158-179 | A save that changes the timing never fires for a past slot, whatever follows; if a poll is under way, its own pass and the next are excepted; the timing is told by its fields |
| `BackupSchedule.KeepOnlyLeavesDue` | src/netbbs/backup_schedule.py:158-179 | A save that changes neither frequency, hour nor minute, nor the weekday of a weekly schedule, leaves due what was due |
| `BackupSchedule.SaveCounts` | src/netbbs/backup_schedule.py:158-179 | A save counts now as handled exactly when frequency, hour or minute changed, or the weekday of a weekly schedule, or nothing was handled |
| `BackupSchedule.KeepAloneLeavesDue` | src/netbbs/backup_schedule.py:158-179 | The loaded schedule saved with another number to keep leaves due exactly what was due |
| `BackupSchedule.FirstPollCounts` | src/netbbs/backup_schedule.py:348-360 | The first poll of a node that never handled a slot fires nothing and counts from now |
| `BackupSchedule.LoadedOneByOne` | src/netbbs/backup_schedule.py:128-150 | Each setting that is stored and in its range is loaded, whatever the others are; with none stored, the defaults |
| `BackupSchedule.SaveDuringPoll` | src/netbbs/backup_schedule.py:457-463 | When a save falls into a poll, the next poll, however late it and the mark come, fires for a slot that was past when the schedule was saved if and only if the new schedule has one since the first poll began and none since the save |
| `BackupSchedule.SaveFiresForThePast` | src/netbbs/backup_schedule.py:457-463 | A concrete run from a fresh node in which it does |
| `BackupSchedule.SaveThenLoad` | src/netbbs/backup_schedule.py:128-150 | A schedule is loaded as saved if and only if it is valid |
| `BackupSchedule.Load` | src/netbbs/backup_schedule.py:128-150 | What is loaded is always valid |
| `BackupSchedule.BackupScheduler.SaveSchedule` | src/netbbs/backup_schedule.py:158-179 | Refuses an invalid schedule; handles now when the timing changed or nothing was handled |
| `BackupSchedule.BackupScheduler.DueSlot` | src/netbbs/backup_schedule.py:348-360 | `Due`, counting from now when nothing was handled |
| `BackupSchedule.BackupScheduler.StartPass` | src/netbbs/backup_schedule.py:447-463 | The slot counts as handled before the work |
| `Prose.Read` | scripts/website_check_wording.py:75-91 | The chunks are, in order, the maximal runs outside the union of all spans; joined they are the text without the blocked positions |
| `Prose.Merge` | scripts/website_check_wording.py:79-83 | The merged intervals are apart and block the same positions |
| `Prose.Complement` | scripts/website_check_wording.py:84-91 | Exactly the maximal runs between the intervals |
| `Prose.ChunksAreTheRest` | scripts/website_check_wording.py:84-91 | Chunks joined are the text without its blocked positions |
| `Roster.ValidateRoster` | services/reliable_nodes/check_roster.py:328-393 | Keeps the first 32 of the usable entries with distinct URLs, in order; no problem is reported if and only if every entry was kept; each problem is justified and each entry skipped before the limit has its own; a document that is refused has the one reason |
| `Roster.FirstUsesAre` | services/reliable_nodes/check_roster.py:370-388 | The kept URLs are distinct, and nothing is lost if and only if every entry is usable and the first with its URL |
| `Roster.LastAdds` | services/reliable_nodes/check_roster.py:370-381 | An entry is added if and only if it is usable and the first with its URL |
| `Roster.Split` | services/reliable_nodes/check_roster.py:442-456 | The splitting loop ends, loses no character, cuts as late as it can, and keeps the pieces within any width of 2 or more |
| `Roster.CutOf` | services/reliable_nodes/check_roster.py:443-454 | The longest beginning that fits, but at least one character |
| `Roster.WidthOfSum` | services/reliable_nodes/check_roster.py:427-430 | Display width adds up |

## Left out

- ProtocolRuns.EveryRunObeysNodeCap: for runs whose carried-out waiting reclaims of the node find room in it; fails otherwise (`WaitingRuns.NodeCapBroken`), exactly when `TurnKeepsNodeCap` says.
- ProtocolRuns.EveryRunKeepsClaimsDistinct: for runs whose carried-out waiting reclaims fit the links of renames; fails otherwise (`ClaimedTwice.ClaimsCollide`). The condition for a single turn is exact (`TurnKeepsLinks`, `TurnKeepsClaims`).
- ProtocolRuns.EveryRunObeysCumulativeCap: for runs whose carried-out waiting reclaims find room in the table; fails otherwise (`WaitingRuns.CapExceeded`), exactly when `TurnKeepsCap` says.
- ProtocolRuns.EveryRunLeavesNothingBehind: says nothing of a pending row that never matured, which may leave a record, as the code allows.
- ProtocolRuns.EveryMaturationIsEarned: for rows on which no cancellation lands unsoundly; after one that does, the row may mature unearned (`UnsoundLandings.EveryUnsoundLandingSpoils`, `BorrowedContact.UnearnedMaturation`).
- Maturation.StepAudits: for a step that does not land unsoundly on the row, which `SoundExactly` shows to be needed.
- Cooldown.EveryRevocationIsFinal: for runs in which no carried-out waiting reclaim of the name finds it revoked; fails otherwise (`WaitingRuns.RevokedRowReturns`), exactly when `TurnRevives` says.
- RenameContinuity.RenameNeverGoesDark: unless the live name is swept or revoked, or its record's deletion takes effect though it is reported failed or its answer is lost in a crash.
- BackupSchedule.NewTimingIsForward: but for the pass of a poll under way and the one after it; `SaveDuringPoll` says exactly when that one fires for the past.
- Registrations.ReplacementFor: two claims of one instant, whose order the query leaves open, go by name.
- Request parsing, routes, response texts, the admin token, reserved and blocked names of the managed-DNS service: handlers begin with valid arguments, and a reply is its status code.
- Cancellation of a handler's task by the web framework, and the shutdown of the service while a handler runs.
- SQL, transactions and migrations: a statement is a function on a map. ISO time stamps are integers; the bucket's floats are reals, without rounding.
- The traffic, TSIG and errors of the RFC 2136 provider: only what its update messages do to a zone.
- Deletion of boards, expiry of posts, posts that become visible below the top of a board, cross-post copies, cursors from before arrivals were recorded (beyond their branch in `Recorded`), reuse of row ids.
- Channel cursors and the counts of unread items: the first compare one number, the second count what `UnreadPostIds` returns.
- Strings in feed positions: integers in the same order.
- Style sheets as text: a list of declarations; the JSON form of a scene, its embedding, the waits as rounded floats, and the timers and buttons of the player.
- Parsing a time of day, and settings as text: a setting that cannot be read is missing.
- A change of the node's time zone between polls, and dates beyond the calendar's range.
- Creating, deleting and pruning backups, destinations and devices.
- The regular expressions that find tags and protected elements: any spans that are not empty.
- Normalising a roster entry, probing nodes, wrapping on white space: any normalisation; the widths of glyphs are any function of one or two columns.
- Nothing here executes the original programs; the model follows their text.
