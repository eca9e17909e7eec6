# Lottery plugin: stake-and-settle model

A Dafny model of the stake-and-settle step of the chat lottery plugin
(`LotteryServer.play_lottery` in `main.py`). Each user has a row in the
`users` table holding a balance, the date of the last play and the number of
plays on that date. One play works as follows:

- it looks up the player's row and refuses an unknown user;
- it refuses a user who has already played `max_daily_attempts` (10) times
  today, and then a user whose balance is not positive;
- it stakes the whole balance by setting it to 0;
- it maps a draw in 1..100 to one of five branches: loss (1-50), refund
  (51-70), double (71-80), transfer (81-99) and ten-fold (100);
- it credits the payout to the player or, on the transfer branch, credits
  the stake to a random other user, refunding it when there is none. The
  query's answer is tested for truth, so a user whose id is the empty string
  is read as no user, and the stake is refunded;
- it records today's date and the new daily count, and replies with the
  stake, the amount won, the new balance and the attempts left.

Layout:

- `wrappers.dfy`: `Option`, which stands for a nullable column or query result.
- `ledger.dfy` (module `Ledger`): the table as a `map<UserId, Account>`.
  It defines the three row updates a play issues and the constraint on the
  random-other-user query (`IsOtherUser`). It also defines the money supply
  `Total`, with the lemmas that account for a one-row update.
- `rules.dfy` (module `Lottery`): the pure rules. These are the limit
  constant, the roll table `Resolve`, the payout `Settle`, the counter
  helpers and `Play`. `Play` states the whole effect of one play, giving the
  reply and the new table.
- `properties.dfy` (module `LotteryProperties`): what one play promises,
  proved about `Play`.
- `server.dfy` (module `Server`): class `LotteryServer`. Its `users` field is
  the table, and its methods reassign it row update by row update, in the
  order the server issues its `UPDATE` statements. `PlayLottery` is proved to
  leave exactly the table and reply that `Play` gives.

Nondeterminism and the environment are inputs to the model:

- The draw `random.randint(1, 100)` is the parameter `roll`. `Resolve` is
  the same if/elif chain as the source, defined for every integer.
- The date `datetime.now(tz=timezone.utc).date()` is the parameter `today`.
  A date is a day number, and plays only compare dates for equality.
- `ORDER BY RANDOM() LIMIT 1` is a free choice (`:|`) among the users other
  than the player. The spec function takes that answer as its `target`
  argument. `PlayLottery` returns the answer as a ghost out-parameter; when
  the query was not asked, any allowed answer stands in for it.

Where the plugin's texts and its code disagree, the model follows the code.
The command docstring (main.py:132) and the help text (main.py:156) say three
plays a day, but the code enforces 10 (main.py:14). A transaction that fails
after the stake has been taken is not all-or-nothing in the code: the
`OperationalError` branch does not roll back. That path is left out rather
than modelled as atomic.

## Model

| member | source | states |
|---|---|---|
| `Server.LotteryServer.RandomOtherUser` | main.py:29-38 | The answer is an existing user other than the excluded one. It is `None` only when the table holds no other user. |
| `Server.LotteryServer.SetBalance` | main.py:70 | The stake step: the player's balance becomes the given amount. Every other row is unchanged, and an unknown user changes nothing. |
| `Server.LotteryServer.AddBalance` | main.py:85-86 | The in-place increment `balance = balance + ?`. Only that user's balance changes; an unknown user changes nothing. |
| `Server.LotteryServer.RecordPlay` | main.py:99-103 | The user's last date and daily count are overwritten with today and the new count. The balance and the other rows are unchanged. |
| `Server.LotteryServer.SettleRoll` | main.py:72-94 | The branch taken and the amount owed to the player are those of the roll table for the draw. The query is answered by an allowed user, and an answer with the empty id counts as no user. Only the transfer branch with a non-empty target changes the table, by crediting the stake to that target. |
| `Server.LotteryServer.PlayLottery` | main.py:40-113 | The reply and the new table are exactly `Play` of the old table. The query's answer used is one that `_get_random_user` is allowed to give. As in `Play`, an answer with the empty id is refunded like no answer. |
| `Lottery.Settle` | main.py:82-91 | A transfer outcome happens only on the transfer branch. It names the user the query returned and pays the player nothing. On the transfer branch the stake is transferred if and only if the answer is a non-empty id; otherwise the outcome is a refund of the stake. |
| `Lottery.Resolve` | main.py:72-94 | The roll table. Its behaviour is stated by `LotteryProperties.ResolveRanges` (which draws select each branch) and `LotteryProperties.OutcomeWeights` (how many draws do). |
| `Lottery.UsedCount` | main.py:56 | A NULL count reads as 0. Its behaviour is stated by `LotteryProperties.NewCountRule` and `LotteryProperties.DailyLimitFails`. |
| `Lottery.NextCount` | main.py:59-64 | The count to record. Its behaviour is stated by `LotteryProperties.NewCountRule`: one more than the stored count on the same day, 1 on a new day. |
| `Lottery.Eligible` | main.py:51-67 | The three checks a play must pass. `LotteryProperties.SucceedsIffEligible` states that a play succeeds exactly when they hold. |
| `Lottery.Play` | main.py:40-113 | Every refused play leaves the table unchanged, and no play adds or removes a user. After a successful play, the player's row holds the reported balance, today's date and the new count. No row other than the player's and the transfer target's changes. A transfer target with the empty id is read as no target. |
| `LotteryProperties.UnknownUserFails` | main.py:46-52 | An unknown user gets "user does not exist" and no row changes. |
| `LotteryProperties.DailyLimitFails` | main.py:59-61 | A user whose stored date is today and whose count is at least 10 gets "daily limit". Nothing changes, whatever the balance, because the limit is checked before the balance. |
| `LotteryProperties.InsufficientBalanceFails` | main.py:66-67 | Within the limit, a balance of 0 or less gets "insufficient balance". The table is returned unchanged, so the date and count stay as they were. |
| `LotteryProperties.SucceedsIffEligible` | main.py:51-67 | A play succeeds if and only if the user exists, is within today's limit and has a positive balance. |
| `LotteryProperties.NewCountRule` | main.py:56-64 | A successful play records today's date. The recorded count is the stored count plus one when the stored date is today, with a NULL count read as 0. Otherwise it is 1, including when no date was stored. |
| `LotteryProperties.RemainingAttemptsRange` | main.py:99-112 | The reply's remaining attempts is 10 minus the recorded count. When the player's stored count is not negative, it lies in 0..9. |
| `LotteryProperties.LastAttemptOfTheDay` | main.py:59-62 | With 9 plays already made today and a positive balance, the play succeeds and reports 0 attempts left. |
| `LotteryProperties.DateRollover` | main.py:59-64 | A user who made all 10 plays yesterday succeeds today. The recorded count restarts at 1, with 9 attempts left. |
| `LotteryProperties.ResolveRanges` | main.py:72-94 | For a draw in 1..100 the roll table selects: loss if and only if the draw is in 1..50, refund in 51..70, double in 71..80, transfer in 81..99, and ten-fold only at 100. |
| `LotteryProperties.OutcomeWeights` | main.py:73-92 | Out of the 100 draws, the number selecting each branch equals its stated odds: 50, 20, 10, 19 and 1. |
| `LotteryProperties.StakeAndPayout` | main.py:69-111 | A successful play stakes the whole prior balance. The player ends with exactly the amount won, and the reply reports it as both `result` and `balance`. Loss pays 0, refund pays the stake, double twice the stake and ten-fold ten times. Outside the transfer branch the new balance is in {0, bet, 2·bet, 10·bet}. |
| `LotteryProperties.SettlementUpdates` | main.py:69-103 | Issuing the updates in order gives exactly the table that `Play` describes: zero the balance, credit the target, add the winnings, record date and count. The reply carries the prior balance as the stake. |
| `LotteryProperties.TransferToOtherUser` | main.py:82-88 | On the transfer branch with another user whose id is not empty, that user is not the player. Their balance rises by exactly the stake and their date and count are untouched. The player ends at 0, and the sum of all balances is unchanged. |
| `LotteryProperties.TransferFallback` | main.py:84-91 | The transfer branch refunds the stake if and only if the query named no user: it found none, or it found the empty id. A table holding no other user, or only the empty id besides the player, always refunds. A refund leaves the supply unchanged. |
| `LotteryProperties.SupplyChange` | main.py:69-97 | The sum of all balances changes by the amount paid minus the stake, plus the stake again when it was transferred. So a loss destroys the stake, a refund or transfer conserves supply, and double and ten-fold create money. |
| `LotteryProperties.PlayKeepsWellFormed` | main.py:66-103 | Starting from a table with no negative balance or count, every play leaves a table with none. |
| `LotteryProperties.DoubleOnAFreshDay` | main.py:79-112 | A player with balance 100 and no play recorded draws in the double range. The reply is a success with stake 100, result 200, balance 200 and 9 attempts left. |

## Left out

- Database plumbing is not modelled. This covers connections, `_init_db` and its `ALTER TABLE` migrations (main.py:18-27), and SQL text. The table is a map that is already in place.
- Concurrency is not modelled. This covers the `IMMEDIATE` isolation level (main.py:42), locking and interleaving with other plays. In Python's sqlite3 the transaction opens only at the first `UPDATE`, so the balance is read outside it. This model treats each play as running alone.
- The exception paths (main.py:115-121) are storage faults and are not modelled. The `OperationalError` branch does not roll back, so no all-or-nothing claim is made for it.
- Real randomness and the clock are parameters, as described above. So are date parsing and formatting (`strptime`, `isoformat`). A stored date that does not parse raises an exception in the source, which this model does not capture.
- A NULL or empty stored date is `None`. A NULL balance is not modelled: balances are integers.
- `Lottery.Play`: balances are unbounded integers. SQLite's 64-bit integer limit on a large stake times ten is not modelled.
- The reply's message strings, including the four-character target prefix, are display-only. They are modelled as the `Outcome` variant, which names the full target.
- The `LotteryPlugin` chat commands and help text (main.py:123-171) are user interface and are not modelled.
