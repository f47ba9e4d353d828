# Pika token dashboard ledger, in Dafny

This project models the core of a token-rewards dashboard. A signed-in user
gets a welcome bonus, can stake tokens (an escrowed request an admin approves
or rejects), and can request withdrawals. Task rewards are claimed under a
one-time or cooldown policy. An hourly timer pays staking earnings. The model
covers:

- the user context provider (`src/contexts/user-context.tsx`): the `User`,
  `Transaction` and `Task` records, every operation the context exposes, and
  the body of the payout timer;
- the leaderboard computation (`src/components/leaderboard-tab.tsx`);
- the pure helpers of the home tab (`src/components/home-tab.tsx`): order-id
  extraction, the payout countdown, the staking dialog's guard, and the
  history-table rules;
- the task card's logic (`src/components/tasks-tab.tsx`): add-task
  validation, the cooldown timer, `formatTime`, the button decision chain,
  and the failure message.

Layout:

- `text.dfy`
  - `Wrappers`: `Option`.
  - `Text`: the JavaScript string behaviour the code relies on. This is
    `indexOf`, `replace` with a string pattern, the regular-expression `.`,
    `toString` of a whole number, `padStart` and `parseInt(…, 10)`.
- `ledger.dfy` (`Ledger`)
  - The records, as datatypes.
  - Every context operation, as a pure transition function.
  - The `Session`/`Op` state machine.
  - The `UserProvider` class. Its `user` and `tasks` fields are replaced by
    each method. Each method is proved equal to one `Step` of the state
    machine. Each keeps `Valid()` (non-negative balances), except that
    `UpdateTokenBalance` keeps it only for a non-negative delta and
    `ClaimTaskReward` only for a non-negative reward.
- `leaderboard.dfy` (`Leaderboard`)
  - The sort, ranking and masking.
  - The imperative top-50 patch (`LeaderboardData`), proved equal to the
    value `Board`.
- `home.dfy` (`Home`) and `tasks.dfy` (`TaskCard`): the UI helpers.

Modelling choices:

- Balances, amounts and rewards are exact `real`s. The hourly rate factor
  `(0.03 / 24) * 45` is exactly `0.05625`.
- Timestamps are integer milliseconds.
- Clock readings and the `Date.now()`-based transaction and task ids are
  parameters of each operation.
- A `false` return is modelled as `None`.
- What the code does, in places where one might expect otherwise:
  - `login` always creates a fresh record. It does not load an existing one.
  - Staking is limited by the `hasStaked` flag, not by a stake count.
  - The payout sets `lastPayoutTime` to the current time, dropping the
    fractional hour. It does not advance by whole intervals, and it has no
    stake-count factor.
  - Task policy is decided by hard-coded task ids (`ONE_TIME_TASKS`, and the
    `watch_ad` cooldown). There are no approval-required tasks, referrals or
    milestones.
  - `updateTokenBalance` has no guard, so balances can go negative through
    it. `Ledger.UpdateCanOverdraw` exhibits this.

## Model

| member | source | states |
|---|---|---|
| Text.IndexFrom | src/components/home-tab.tsx:88 | The result is the first index at or after `from` where the pattern occurs; `None` exactly when it occurs nowhere there. This is the search behind the regular-expression match and behind `replace`. |
| Text.ReplaceFirst | src/contexts/user-context.tsx:236 | `replace('request', w)` with a string pattern: only the first occurrence is replaced. The text before it and after it is kept, and with no occurrence the string is unchanged. |
| Text.TakeLine | src/components/home-tab.tsx:88 | The greedy `(.*)` capture is the longest prefix without a line terminator. It stops at a terminator or at the end. |
| Text.TakeLineWhole | src/components/home-tab.tsx:88 | A string with no line terminator is captured whole. |
| Text.NatToString | src/components/home-tab.tsx:46 | `n.toString()` is a non-empty string of decimal digits with no leading zero. |
| Text.NatToStringValue | src/components/tasks-tab.tsx:89 | The printed digits of `n` have decimal value `n`. |
| Text.DigitSpan | src/components/tasks-tab.tsx:160 | The length of the maximal leading run of digits that `parseInt` reads. |
| Text.LeadingNumberOfNatToString | src/components/tasks-tab.tsx:160 | A printed number followed by a non-digit is read back as the same number, with the rest left over. |
| Text.TrimStart | src/components/tasks-tab.tsx:160 | The leading white space `parseInt` skips is removed: every removed character is white space, what remains is a suffix of the input, and it does not start with white space. |
| Text.ParseIntOfNatToString | src/components/tasks-tab.tsx:160 | `parseInt(String(n), 10) == n` for every whole number `n`. |
| Text.ParseInt | src/components/tasks-tab.tsx:160 | `parseInt(text, 10)` is `NaN` (`None`) exactly when no digit follows the trimmed text and its optional sign; otherwise it is the value of the leading digits, negated after a `-`. |
| Text.PadStart2 | src/components/home-tab.tsx:46 | `padStart(2, '0')` left-pads a shorter string with `'0'` to length 2, keeping the string as its suffix, and leaves a longer one alone. |
| Text.MillisToSeconds | src/components/home-tab.tsx:43-44 | Whole minutes of a millisecond count equal the whole minutes of its whole seconds. |
| Text.MinutesAndSeconds | src/components/home-tab.tsx:43-44 | Minutes mod 60 times 60, plus seconds mod 60, is the seconds mod one hour. |
| Ledger.CooldownFor | src/contexts/user-context.tsx:275 | The cooldown is positive, so a recurring task is never claimable twice at the same instant (`CooldownClaim` states when it is claimable again). |
| Ledger.StakeDescription | src/contexts/user-context.tsx:181 | The stake description is a fixed 29-character lead-in followed by the order id, which runs to the end. |
| Ledger.NewUser | src/contexts/user-context.tsx:125-147 | `login` creates a fresh record. `isAdmin` holds exactly for the reserved uid. The record has 1000 tokens, nothing staked, no completions and a payout time of now, so holdings are 1000. Its only entry is the login bonus in full: the given id, 1000 tokens, dated now, `Welcome bonus for signing up`, completed. |
| Ledger.RequestStake | src/contexts/user-context.tsx:170-192 | Succeeds exactly when not `hasStaked` and the balance is at least 1000. On success it debits exactly 1000, prepends one pending 1000-token stake whose description carries the order id, and changes nothing else. |
| Ledger.RequestWithdrawal | src/contexts/user-context.tsx:194-213 | Succeeds exactly when the balance covers the amount and the amount is at least 100000. On success it debits exactly that amount, prepends one pending withdrawal, and changes nothing else. |
| Ledger.RequestsPreserveWellFormed | src/contexts/user-context.tsx:170-213 | Accepted stake and withdrawal requests keep both balances and every entry amount non-negative. |
| Ledger.RequestsConserveHoldings | src/contexts/user-context.tsx:185-210 | A request only moves tokens from the balance into escrow (pending entries). Liquid plus staked plus escrowed tokens is unchanged. |
| Ledger.SecondStakeWhilePending | src/contexts/user-context.tsx:171 | `hasStaked` is set only on approval. With 2000 tokens, two stake requests in a row both succeed, and both are held in escrow. |
| Ledger.FindIndex | src/contexts/user-context.tsx:218 | `find`: the first entry with the id, or `None` exactly when no entry has it. |
| Ledger.Mark | src/contexts/user-context.tsx:235-237 | The `map` keeps the length, rewrites every entry carrying the id, and leaves every other entry untouched. |
| Ledger.CanDecide | src/contexts/user-context.tsx:216-219 | The guard of approve and reject (also lines 244-247): the user is admin and the first entry carrying the id exists and is pending. |
| Ledger.Approve | src/contexts/user-context.tsx:215-241 | A no-op unless the user is admin and the first entry with the id is pending. Otherwise the token balance is unchanged. A stake adds its amount to the staked balance, sets `hasStaked` and resets the payout time; a withdrawal changes no balance. Every entry with the id becomes approved with its description rewritten by `replace('request', 'approved')`, all its other fields kept; all other entries are unchanged. |
| Ledger.Reject | src/contexts/user-context.tsx:243-261 | Same guard as approval. Refunds exactly the entry's amount to the token balance. Every entry with the id becomes rejected with its description rewritten by `replace('request', 'rejected')`, all its other fields kept; all other entries and fields are unchanged. |
| Ledger.DecidedIsFinal | src/contexts/user-context.tsx:219 | After an entry is approved or rejected, the pending guard fails for its id. |
| Ledger.DecisionsAreFinal | src/contexts/user-context.tsx:215-261 | A second approve or reject of the same id, in any order, changes nothing. |
| Ledger.DecisionsPreserveWellFormed | src/contexts/user-context.tsx:215-261 | Approving and rejecting keep balances and entry amounts non-negative. |
| Ledger.MarkPendingTotal | src/contexts/user-context.tsx:235-237 | Marking an id decided removes exactly the tokens pending under that id from escrow. |
| Ledger.PendingWithUniqueId | src/contexts/user-context.tsx:218 | With distinct ids, the tokens pending under an id are the amount of its one entry. |
| Ledger.NoPendingWithId | src/contexts/user-context.tsx:218 | An id no entry carries has nothing pending under it. |
| Ledger.DecisionsMoveEscrow | src/contexts/user-context.tsx:221-260 | With distinct ids: rejecting returns the escrow and approving a stake moves it to the staked balance, so holdings are kept in both cases. Approving a withdrawal pays its amount out. |
| Ledger.FindTask | src/contexts/user-context.tsx:281-282 | `tasks.find`: the first catalogue task with that id (no earlier task has it), or `None` exactly when there is none. |
| Ledger.ClaimEligible | src/contexts/user-context.tsx:270-279 | The claim policy: an eligible claim is of a task never completed, or of a recurring task whose cooldown has run out. A task never completed is eligible, except `first_stake`, which is eligible exactly when never completed and some stake is held. |
| Ledger.Claim | src/contexts/user-context.tsx:264-301 | Succeeds exactly when the claim policy allows it and the task is in the catalogue. On success it credits exactly the reward, stamps the completion time, and changes nothing else. The prepended entry is stated in full: the given id, the reward, dated now, `Reward for task: ` followed by the title of the first catalogue task with that id, completed. |
| Ledger.OneTimeClaimOnce | src/contexts/user-context.tsx:270-272 | A one-time task that was claimed can never be claimed again. |
| Ledger.CooldownClaim | src/contexts/user-context.tsx:273-279 | A recurring task claimed at T can be claimed again at L exactly when L is at least T plus the cooldown. |
| Ledger.ClaimPreservesWellFormed | src/contexts/user-context.tsx:293-298 | A claim with a non-negative reward keeps balances non-negative, and it raises holdings by exactly the reward. |
| Ledger.AppendTask | src/contexts/user-context.tsx:303-313 | `addTask` is admin only. It appends the new task after every existing one; anyone else leaves the catalogue unchanged. |
| Ledger.HoursDue | src/contexts/user-context.tsx:93-98 | The payout hours are the whole hours elapsed since the last payout. This is zero when less than an hour has passed or no payout time is recorded. |
| Ledger.Payout | src/contexts/user-context.tsx:91-119 | Without stake or a due hour, nothing changes. Otherwise the payout credits staked times rate times whole hours, sets the payout time to now, and changes nothing else. The prepended entry is stated in full: the given id, that amount, dated now, `Hourly staking reward for N hour(s)` with N the whole hours printed in decimal, completed. |
| Ledger.PayoutIdempotent | src/contexts/user-context.tsx:97-113 | Two timer firings at the same instant pay only once. |
| Ledger.PayoutBounded | src/contexts/user-context.tsx:95-99 | A payout never credits more than the elapsed time is worth at the hourly rate, and it never lowers the balance. |
| Ledger.WholeHoursBound | src/contexts/user-context.tsx:95-99 | Paying a non-negative rate for the whole hours of an interval pays at least nothing and at most the rate for the exact interval. |
| Ledger.PayoutPreservesWellFormed | src/contexts/user-context.tsx:91-119 | The payout keeps balances non-negative and never lowers holdings. |
| Ledger.Step | src/contexts/user-context.tsx:125-313 | `login` always yields a session for that uid, and `logout` always clears it. Every other call is a no-op without a signed-in user. Only `addTask` changes the catalogue. |
| Ledger.StepKeepsWellFormed | src/contexts/user-context.tsx:164-313 | Any call that is not a debit through `updateTokenBalance` or a negative reward keeps balances non-negative. |
| Ledger.RunKeepsWellFormed | src/contexts/user-context.tsx:164-313 | Balances stay non-negative over any sequence of such calls. |
| Ledger.UpdateCanOverdraw | src/contexts/user-context.tsx:164-168 | `updateTokenBalance` is unguarded: after login, a debit of 2000 leaves a negative balance. |
| Ledger.UserProvider.constructor | src/contexts/user-context.tsx:63-80 | The provider starts with no user and the built-in task catalogue. |
| Ledger.UserProvider.Login | src/contexts/user-context.tsx:125-147 | The session becomes the fresh record, and it is valid. |
| Ledger.UserProvider.Logout | src/contexts/user-context.tsx:149-152 | The session is cleared. |
| Ledger.UserProvider.UpdateTokenBalance | src/contexts/user-context.tsx:164-168 | Adds the delta to the signed-in user's balance. Validity is kept for non-negative deltas. |
| Ledger.UserProvider.StakeTokens | src/contexts/user-context.tsx:170-192 | Returns true exactly under the staking guard. The user becomes the accepted request, or is unchanged on false. Validity is kept. |
| Ledger.UserProvider.WithdrawTokens | src/contexts/user-context.tsx:194-213 | Returns true exactly under the withdrawal guard. The user becomes the accepted request, or is unchanged on false. Validity is kept. |
| Ledger.UserProvider.ApproveTransaction | src/contexts/user-context.tsx:215-241 | The user becomes `Approve` of the old user. Validity is kept. |
| Ledger.UserProvider.RejectTransaction | src/contexts/user-context.tsx:243-261 | The user becomes `Reject` of the old user. Validity is kept. |
| Ledger.UserProvider.ClaimTaskReward | src/contexts/user-context.tsx:264-301 | Returns true exactly when signed in, eligible and in the catalogue. The user becomes the claimed record, or is unchanged on false. Validity is kept for a non-negative reward. |
| Ledger.UserProvider.AddTask | src/contexts/user-context.tsx:303-313 | The catalogue becomes `AppendTask` of the old one, and the user is unchanged. |
| Ledger.UserProvider.PayoutTick | src/contexts/user-context.tsx:90-122 | One timer firing: the user becomes `Payout` of the old user. Validity is kept. |
| Leaderboard.Insert | src/components/leaderboard-tab.tsx:24-25 | Inserting one user adds exactly that user to the multiset of users. |
| Leaderboard.InsertSorted | src/components/leaderboard-tab.tsx:24-25 | Inserting into a list sorted by non-increasing balance keeps it sorted. |
| Leaderboard.SortByBalance | src/components/leaderboard-tab.tsx:24-25 | The sort with comparator `b - a` yields users in non-increasing balance order, and the result is a permutation of the input. |
| Leaderboard.InsertStable | src/components/leaderboard-tab.tsx:24-25 | Insertion passes over only users with a larger balance, so among users of any one balance the inserted user comes first and the others keep their order. |
| Leaderboard.SortIsStable | src/components/leaderboard-tab.tsx:24-25 | The sort is stable: users with equal balances keep their input order. |
| Leaderboard.LastFour | src/components/leaderboard-tab.tsx:29 | `slice(-4)` gives the last four characters, or all of a shorter uid. |
| Leaderboard.Mask | src/components/leaderboard-tab.tsx:29 | A uid starting with `admin` is shown as `Pika Admin`. Any other uid is shown as seven stars followed by its last four characters. |
| Leaderboard.MaskShowsAdminOrLastFour | src/components/leaderboard-tab.tsx:29 | `Pika Admin` is shown exactly for admin uids. Two non-admin uids look the same exactly when their last four characters agree. |
| Leaderboard.Ranked | src/components/leaderboard-tab.tsx:27-32 | Row i has rank i + 1, the masked uid and the balance of the i-th user, and it is marked current exactly for the signed-in uid. |
| Leaderboard.RankAll | src/components/leaderboard-tab.tsx:24-32 | The full ranking has one row per user; `RankAllOrdered` and `RankAllOneCurrent` state its order and its current row. |
| Leaderboard.FirstCurrent | src/components/leaderboard-tab.tsx:35-38 | `find`/`some`: the first row marked current, or `None` exactly when no row is marked. |
| Leaderboard.CurrentBeyond | src/components/leaderboard-tab.tsx:35-38 | When no current row is in the first n rows, the first current row is at index n or later. |
| Leaderboard.Top | src/components/leaderboard-tab.tsx:34 | `slice(0, 50)` takes the first min(50, n) ranked rows. |
| Leaderboard.Patch | src/components/leaderboard-tab.tsx:34-47 | The patched table never has more than 50 rows. |
| Leaderboard.Board | src/components/leaderboard-tab.tsx:21-50 | The table never has more than 50 rows, and it is empty when there is no user map. |
| Leaderboard.PatchTop | src/components/leaderboard-tab.tsx:34-47 | Slicing, looking for a current row, then overwriting row 50 or appending the user's row yields exactly `Patch` of the ranked rows. |
| Leaderboard.LeaderboardData | src/components/leaderboard-tab.tsx:21-50 | Sorting, ranking and then patching yields exactly the table `Board`. |
| Leaderboard.UnpatchedWhenShown | src/components/leaderboard-tab.tsx:34-49 | The table is the first 50 ranked rows unchanged in three cases: no one is signed in, a current row is already among them, or no row is current. |
| Leaderboard.AppendNeverNeeded | src/components/leaderboard-tab.tsx:41-45 | The `push` branch never runs. A current row missing from the first 50 rows means there are more than 50 rows, and the slice already holds 50. |
| Leaderboard.RankedOrdered | src/components/leaderboard-tab.tsx:27-32 | Ranking a list sorted by balance gives rows whose balances never increase and whose ranks run 1, 2, 3, and so on. |
| Leaderboard.RankAllOrdered | src/components/leaderboard-tab.tsx:24-32 | In the full ranking, balances never increase and ranks run 1, 2, 3, and so on. |
| Leaderboard.PatchOrdered | src/components/leaderboard-tab.tsx:37-45 | Patching ordered rows ranked from 1 keeps balances non-increasing and ranks strictly increasing. Every row but the last keeps rank index + 1. |
| Leaderboard.BoardOrdered | src/components/leaderboard-tab.tsx:24-45 | In the table, balances never increase and ranks strictly increase down the rows. Every row but the last has rank index + 1. |
| Leaderboard.SortKeepsCount | src/components/leaderboard-tab.tsx:24-25 | Sorting keeps the number of records carrying each uid. |
| Leaderboard.OneRecord | src/components/leaderboard-tab.tsx:31 | A uid carried by exactly one record is at exactly one index. |
| Leaderboard.RankedOneCurrent | src/components/leaderboard-tab.tsx:27-32 | When the signed-in uid has one record in the sorted list, exactly one ranked row is marked current. |
| Leaderboard.RankAllOneCurrent | src/components/leaderboard-tab.tsx:24-32 | A signed-in user with one record has exactly one current row in the full ranking. |
| Leaderboard.PatchShowsCurrentOnce | src/components/leaderboard-tab.tsx:35-47 | If exactly one ranked row is current, the patched table shows exactly one current row, and it is that ranked row unchanged, true rank included. Within the first 50 the table is the unpatched slice; below them the table has 50 rows, the first 49 ranked rows and then the user's row. |
| Leaderboard.PatchReplacesLastRow | src/components/leaderboard-tab.tsx:37-42 | A signed-in user ranked below the first 50 takes row 50: the table has 50 rows, rows 1-49 are the first 49 ranked rows, and row 50 is the user's ranked row. |
| Leaderboard.CurrentUserShownOnce | src/components/leaderboard-tab.tsx:35-47 | A signed-in user with one record appears in the table exactly once. That row is their row of the full ranking, with their true rank. |
| Home.GetOrderId | src/components/home-tab.tsx:87-90 | `None` exactly when `Order ID: ` does not occur. Otherwise the result is the text right after its first occurrence, up to the end of that line. |
| Home.AmountSign | src/components/home-tab.tsx:245 | The sign is `-` exactly for stakes and withdrawals and `+` for every other kind. |
| Home.OrderIdAfterLeadIn | src/components/home-tab.tsx:87-90 | A description made of a lead-in without `O`, then the marker, then a one-line id, yields that id. |
| Home.RewriteStakeDescription | src/contexts/user-context.tsx:236 | `replace('request', w)` on a stake description rewrites only its lead-in, giving `Stake w with Order ID: id`. |
| Home.ReplaceAfter | src/contexts/user-context.tsx:236 | When the first occurrence of the pattern comes right after a prefix, `replace` swaps just that occurrence and keeps the text on both sides. |
| Home.OrderIdRoundTrip | src/components/home-tab.tsx:87-90 | The order id written by `stakeTokens` (user-context line 181) is read back unchanged, when it has no line terminator. |
| Home.OrderIdSurvivesDecision | src/components/home-tab.tsx:87-90 | The order id is still read back after the approval or rejection rewrite of the description. |
| Home.HistoryRows | src/components/home-tab.tsx:222-246 | At most 20 rows, which are the newest entries in order. The sign is `-` exactly for stakes and withdrawals and `+` otherwise. Every stake row carries the order id extracted from its description, and no other row carries one. |
| Home.StakeHeadRow | src/components/home-tab.tsx:222-245 | A stake at the head of the list is shown with `-` and its extracted order id. |
| Home.DecidedHead | src/contexts/user-context.tsx:235-237 | Deciding the head entry's id rewrites the head entry, and a non-admin's decision changes nothing. |
| Home.DecidedStakeRow | src/components/home-tab.tsx:222-223 | A head stake entry whose description went through the approval or rejection rewrite still shows its order id. |
| Home.ApprovedStakeRow | src/components/home-tab.tsx:222-223 | Approving a pending stake request at the head keeps its order id in the first row. |
| Home.RejectedStakeRow | src/components/home-tab.tsx:222-223 | Rejecting a pending stake request at the head keeps its order id in the first row. |
| Home.StakeRowShowsOrderId | src/components/home-tab.tsx:222-223 | A fresh stake request shows as the first row with `-` and its order id. The id is still shown after approval or rejection. |
| Home.HandleStakeCalls | src/components/home-tab.tsx:53-63 | `handleStake` calls `stakeTokens` only with a non-empty order id and, when signed in, with at least 1000 tokens. |
| Home.HandleStakeAgreesWithLedger | src/components/home-tab.tsx:53-63 | For a non-empty order id, the ledger accepts the stake exactly when the dialog lets it through and the user has not staked. |
| Home.TwoDigits | src/components/home-tab.tsx:46 | A number below 60, padded, is two digits whose value is the number. |
| Home.NextPayoutText | src/components/home-tab.tsx:33-46 | The text is `Claiming now...` exactly when the hour is up. Otherwise it is `mm:ss`: two digits of the whole minutes left modulo 60, a colon, two digits of the whole seconds left modulo 60. |
| Home.PayoutDiff | src/components/home-tab.tsx:33-36 | Milliseconds to the next payout: a full hour without a payout time, and at most 0 exactly when an hour has passed since the last payout. |
| Home.ClockText | src/components/home-tab.tsx:46 | `mm:ss` is five characters with the colon in the middle; the digits before it spell the minutes and those after it the seconds. |
| Home.ClockTextReadsBack | src/components/home-tab.tsx:46 | An `mm:ss` text reads back as minutes times 60 plus seconds. |
| Home.SecondsClockReadsBack | src/components/home-tab.tsx:43-46 | The `mm:ss` text of a count of whole seconds reads back as that count modulo one hour. |
| Home.CountdownReadsBack | src/components/home-tab.tsx:33-46 | While the hour is running, `mm:ss` reads back as the remaining whole seconds modulo one hour. |
| Home.CountdownMatchesPayout | src/components/home-tab.tsx:33-40 | The countdown says `Claiming now...` exactly when the payout timer would pay (user-context lines 95-97), with or without a recorded payout time. |
| TaskCard.HandleAddTask | src/components/tasks-tab.tsx:159-169 | `addTask` is called only with a non-empty title and a parsed reward above 0. It is refused exactly for an empty title, `NaN`, or a reward of at most 0. |
| TaskCard.AddTaskAcceptsTypedReward | src/components/tasks-tab.tsx:159-169 | A non-empty title with a positive reward typed in decimal is accepted as typed. |
| TaskCard.AddedTaskHasPositiveReward | src/components/tasks-tab.tsx:159-169 | A task added through the form is the last in the catalogue and has a positive reward. |
| TaskCard.TimeLeft | src/components/tasks-tab.tsx:44-58 | The timer is 0 for one-time or never-completed tasks. Otherwise it is max(0, last completion + cooldown - now), so it is never negative. |
| TaskCard.TimeLeftMatchesClaim | src/components/tasks-tab.tsx:42-54 | For a recurring task, the timer reads 0 exactly when the ledger would accept the claim. |
| TaskCard.LastCompleted | src/components/tasks-tab.tsx:39 | The last completion time is present exactly when a user is signed in and has completed the task, and it is their recorded time. |
| TaskCard.FormatTime | src/components/tasks-tab.tsx:86-91 | The label always ends in `s`, and it shows minutes (contains `m`) exactly when the whole minutes modulo 60 are positive. |
| TaskCard.ReadSeconds | src/components/tasks-tab.tsx:90 | A `{s}s` label reads back as s. |
| TaskCard.ReadMinutesLabel | src/components/tasks-tab.tsx:89 | A label made of a number, `m `, a number and `s` reads back as minutes times 60 plus seconds. |
| TaskCard.ReadMinutesSeconds | src/components/tasks-tab.tsx:89 | A `{m}m {s}s` label reads back as m * 60 + s. |
| TaskCard.ClockLabel | src/components/tasks-tab.tsx:89-90 | The label built from minutes and seconds always ends in `s`. |
| TaskCard.ClockLabelForm | src/components/tasks-tab.tsx:89-90 | The label contains `m` exactly when the minutes are positive: the two-part form is chosen for positive minutes and only it shows minutes. |
| TaskCard.ClockLabelReadsBack | src/components/tasks-tab.tsx:89-90 | Either form of the label reads back as minutes times 60 plus seconds. |
| TaskCard.SecondsLabelReadsBack | src/components/tasks-tab.tsx:87-90 | The label of a count of whole seconds reads back as that count modulo one hour. |
| TaskCard.FormatTimeReadsBack | src/components/tasks-tab.tsx:86-91 | Round trip: the label reads back as the whole seconds left, modulo one hour. |
| TaskCard.ReadFieldOfNatToString | src/components/tasks-tab.tsx:89-90 | A number printed by the label reads back, without leading zeros, with the rest of the text left over. |
| TaskCard.ReadSecondsFields | src/components/tasks-tab.tsx:90 | A `{s}s` label reads back field by field as no minutes and s seconds. |
| TaskCard.ReadMinutesSecondsFields | src/components/tasks-tab.tsx:89 | A `{m}m {s}s` label with m positive reads back field by field as (m, s). |
| TaskCard.ClockLabelFields | src/components/tasks-tab.tsx:89-90 | Either form of the label reads back field by field as the minutes and seconds it was built from. |
| TaskCard.FormatTimeFields | src/components/tasks-tab.tsx:86-91 | The label's fields are exactly the whole minutes and the whole seconds of `ms`, each modulo 60, with no leading zeros and the minutes omitted when zero. |
| TaskCard.ClaimButton | src/components/tasks-tab.tsx:93-133 | `Go to Link` is enabled for an unvisited link task. A completed one-time task shows `Completed` and is disabled. A claim in flight disables the button. A running timer shows `Next in …` and disables it. An enabled claim button implies no claim in flight, a one-time task not yet completed, and a timer at zero, and conversely those three conditions enable it. A visited link shows `Claim Reward`, disabled exactly while claiming; a claim in flight otherwise blanks the label; an open one-time task shows `Claim Reward`; a recurring task with the timer at zero shows `Watch Ad`/`Watch Next Ad` for `watch_ad` and `Claim Reward`/`Claim Again` otherwise, before and after a first completion. |
| TaskCard.EligibleClaimIsOffered | src/components/tasks-tab.tsx:93-99 | Conversely, a claim the ledger accepts is offered: a one-time task has no recorded completion and the timer is at zero, the conditions under which `ClaimButton` is enabled. |
| TaskCard.OfferedClaimIsEligible | src/components/tasks-tab.tsx:93-116 | A claim the button offers, with the timer showing the true time left, is one the ledger accepts. The staking task is the exception until a stake is approved. |
| TaskCard.ClaimFailureMessage | src/components/tasks-tab.tsx:66-71 | As written: one of the three messages, and `can only be completed once` exactly for the one-time tasks. |
| TaskCard.StakeFirstNeverShown | src/components/tasks-tab.tsx:66-71 | As written, `You must stake first…` is never shown, and the staking task always gets `can only be completed once`. |
| TaskCard.ClaimFailureReason | src/components/tasks-tab.tsx:66-71 | Corrected order: one of the three messages; `stake first` only for `first_stake` with no stake held, and `wait for the timer` exactly for recurring tasks. |
| TaskCard.FailureReasonNamesRule | src/components/tasks-tab.tsx:66-71 | Corrected message: each refused claim names the rule that refused it. These are stake-first for the unstaked staking task, only-once for a completed one-time task, and wait for a running cooldown. |

## Left out

- Persistence in `localStorage` and its JSON parsing, including the load effect
  (user-context lines 68-88): the provider starts empty with the built-in
  catalogue, and every write to storage is dropped.
- The clock and ISO date strings: times are integer milliseconds passed in,
  and the `Date.now()`-based ids are parameters, so colliding ids are allowed
  (approve and reject then rewrite every entry with the id, as the `map` does).
- Floating point: balances are exact reals, so no rounding of
  `stakedBalance * rate * hours` and no `toLocaleString` formatting.
- React state timing: the stale closures of the timers, the one-second lag
  before `timeLeft` is first updated after a claim, `setState` batching,
  `async` and the `loading` flag are not modelled; `TimeLeft` is the value a
  timer tick writes.
- `getAllUsers` and `getAllTransactions` are not part of this model (they are
  called but not defined in the context shown); the leaderboard takes the
  list of users in `Object.values` order, and the history takes the list it
  is shown.
- The second `uid` argument `home-tab` passes to approve and reject is
  ignored by the context, so it is not modelled.
- `task.url` is not a field of the `Task` type; the button decision takes
  its truthiness as the boolean `hasUrl` (for tasks built by the context it is
  always false).
- `parseInt` is exact on arbitrarily long digit strings (JavaScript loses
  precision above 2^53); strings are sequences of characters, so `slice(-4)`
  counts characters, not UTF-16 code units.
- Markup, toasts, icons, dialogs, the friends tab, the static pages, routing
  and the build configuration.

## Findings

| source | as written | input that shows it | evidently intended | confidence | as-written member | corrected member |
|---|---|---|---|---|---|---|
| src/components/tasks-tab.tsx:66-71 | the one-time test comes first, and `first_stake` is itself a one-time task, so the stake-first branch is dead | a user with `stakedBalance == 0` claims `first_stake`: told "This task can only be completed once." | tell a user who has not staked to stake first | high, not executed | TaskCard.StakeFirstNeverShown | TaskCard.FailureReasonNamesRule |
