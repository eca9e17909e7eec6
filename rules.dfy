/**
  The rules of one lottery play, as pure functions: who may play, how the roll
  maps to an outcome, and what the table and the reply look like afterwards.
  `Play` states the whole effect of `LotteryServer.PlayLottery` at once; the
  server class performs the same effect as a sequence of row updates.
 */
module Lottery {
  import opened Wrappers
  import opened Ledger

  /** Successful plays allowed per user per UTC day. */
  const MaxDailyAttempts: int := 10

  /** The five branches of the roll table. */
  datatype Kind = Loss | Refund | Double | Transfer | TenFold

  /** What the reply's message reports. */
  datatype Outcome =
    | Lost
    | Refunded
    | Doubled
    | Transferred(to: UserId)
    | TransferRefunded     // the transfer branch found no other user
    | Jackpot

  datatype Reason = UserNotFound | DailyLimitReached | InsufficientBalance

  /** The reply: a failure reason, or the stake, the amount won and the player's new balance. */
  datatype PlayResult =
    | Failure(reason: Reason)
    | Success(outcome: Outcome, bet: int, result: int, balance: int, remainingAttempts: int)

  datatype Payout = Payout(outcome: Outcome, amount: int)

  /** The reply together with the table after the play. */
  datatype Settlement = Settlement(result: PlayResult, users: Users)

  /** The roll table; `roll` is the draw from 1..100. */
  function Resolve(roll: int): Kind {
    if roll <= 50 then Loss
    else if roll <= 70 then Refund
    else if roll <= 80 then Double
    else if roll <= 99 then Transfer
    else TenFold
  }

  /**
    Whether the query's answer is taken as a user to transfer to. The answer
    is tested for truth, so an empty user id counts as no user at all.
   */
  predicate NamesUser(target: Option<UserId>) {
    target.Some? && target.value != ""
  }

  /** What the player is credited for a stake `bet`, given the answer of the random-other-user query. */
  function Settle(kind: Kind, bet: int, target: Option<UserId>): (p: Payout)
    ensures p.outcome.Transferred? ==> kind == Transfer && target == Some(p.outcome.to) && p.amount == 0
    ensures kind == Transfer ==> (p.outcome.Transferred? <==> NamesUser(target))
    ensures kind == Transfer && !NamesUser(target) ==> p == Payout(TransferRefunded, bet)
  {
    match kind
    case Loss => Payout(Lost, 0)
    case Refund => Payout(Refunded, bet)
    case Double => Payout(Doubled, bet * 2)
    case Transfer =>
      if NamesUser(target) then Payout(Transferred(target.value), 0) else Payout(TransferRefunded, bet)
    case TenFold => Payout(Jackpot, bet * 10)
  }

  /** A NULL count reads as 0. */
  function UsedCount(a: Account): int {
    match a.count
    case Some(c) => c
    case None => 0
  }

  predicate PlayedToday(a: Account, today: Day) {
    a.lastDate == Some(today)
  }

  /** The count to record: one more than today's, or 1 on a new day. */
  function NextCount(a: Account, today: Day): int {
    if PlayedToday(a, today) then UsedCount(a) + 1 else 1
  }

  /** The user exists, has plays left today and has something to stake. */
  predicate Eligible(users: Users, user: UserId, today: Day) {
    && user in users
    && !(PlayedToday(users[user], today) && UsedCount(users[user]) >= MaxDailyAttempts)
    && users[user].balance > 0
  }

  /** Every failure leaves the table as it was. */
  predicate FailedUnchanged(users: Users, s: Settlement) {
    s.result.Failure? ==> s.users == users
  }

  /**
    One play of `user` on day `today` with draw `roll`; `target` is the answer
    the random-other-user query gives if the transfer branch asks it.
   */
  function Play(users: Users, user: UserId, today: Day, roll: int, target: Option<UserId>): (s: Settlement)
    requires IsOtherUser(users, user, target)
    ensures FailedUnchanged(users, s)
    ensures s.users.Keys == users.Keys
    ensures s.result.Success? ==>
      && user in users
      && s.users[user] == Account(s.result.balance, Some(today), Some(NextCount(users[user], today)))
      && forall u :: u in users && u != user && !(s.result.outcome.Transferred? && u == s.result.outcome.to) ==>
           s.users[u] == users[u]
  {
    if user !in users then Settlement(Failure(UserNotFound), users)
    else
      var a := users[user];
      if PlayedToday(a, today) && UsedCount(a) >= MaxDailyAttempts then
        Settlement(Failure(DailyLimitReached), users)
      else if a.balance <= 0 then
        Settlement(Failure(InsufficientBalance), users)
      else
        var bet := a.balance;
        var newCount := NextCount(a, today);
        var p := Settle(Resolve(roll), bet, target);
        var credited :=
          if p.outcome.Transferred? then
            var t := p.outcome.to;
            users[t := users[t].(balance := users[t].balance + bet)]
          else users;
        Settlement(
          Success(p.outcome, bet, p.amount, p.amount, MaxDailyAttempts - newCount),
          credited[user := Account(p.amount, Some(today), Some(newCount))])
  }
}
