/**
  The lottery server: the users table, held as a map that the methods
  reassign, and the play performed as the sequence of row updates the server
  issues inside one database connection.
 */
module Server {
  import opened Wrappers
  import opened Ledger
  import opened Lottery
  import opened LotteryProperties

  class LotteryServer {
    /** The users table, keyed by user id. */
    var users: Users

    constructor (users: Users)
      ensures this.users == users
    {
      this.users := users;
    }

    /**
      One random user other than `exclude`, or nothing when there is none.
      The random ordering of the query is modelled as a free choice among the
      other users.
     */
    method RandomOtherUser(exclude: UserId) returns (target: Option<UserId>)
      ensures IsOtherUser(users, exclude, target)
    {
      var others := users.Keys - {exclude};
      if others == {} {
        target := None;
      } else {
        var t :| t in others;
        target := Some(t);
      }
    }

    /** `UPDATE users SET balance = ? WHERE user_id = ?` */
    method SetBalance(user: UserId, amount: int)
      modifies this
      ensures users == WithBalance(old(users), user, amount)
    {
      if user in users {
        users := users[user := users[user].(balance := amount)];
      }
    }

    /** `UPDATE users SET balance = balance + ? WHERE user_id = ?` */
    method AddBalance(user: UserId, delta: int)
      modifies this
      ensures users == WithCredit(old(users), user, delta)
    {
      if user in users {
        users := users[user := users[user].(balance := users[user].balance + delta)];
      }
    }

    /** `UPDATE users SET last_lottery_date = ?, daily_lottery_count = ? WHERE user_id = ?` */
    method RecordPlay(user: UserId, date: Day, count: int)
      modifies this
      ensures users == WithPlayRecorded(old(users), user, date, count)
    {
      if user in users {
        users := users[user := users[user].(lastDate := Some(date), count := Some(count))];
      }
    }

    /**
      The roll table applied to a stake `bet` of `user`, whose balance has
      already been zeroed: works out what `user` is to be credited and, on the
      transfer branch, asks the random-other-user query and credits the stake
      to the user it names. `target` is the query's answer, or any allowed
      answer when the query was not asked.
     */
    method SettleRoll(user: UserId, bet: int, roll: int) returns (outcome: Outcome, amount: int, ghost target: Option<UserId>)
      modifies this
      ensures IsOtherUser(old(users), user, target)
      ensures Payout(outcome, amount) == Settle(Resolve(roll), bet, target)
      ensures users == if outcome.Transferred? then WithCredit(old(users), outcome.to, bet) else old(users)
    {
      OtherUserExists(users, user);
      target :| IsOtherUser(users, user, target);
      if roll <= 50 {
        outcome, amount := Lost, 0;
      } else if roll <= 70 {
        outcome, amount := Refunded, bet;
      } else if roll <= 80 {
        outcome, amount := Doubled, bet * 2;
      } else if roll <= 99 {
        var picked := RandomOtherUser(user);
        target := picked;
        if picked.Some? && picked.value != "" {
          AddBalance(picked.value, bet);
          outcome, amount := Transferred(picked.value), 0;
        } else {
          outcome, amount := TransferRefunded, bet;
        }
      } else {
        outcome, amount := Jackpot, bet * 10;
      }
    }

    /**
      One play of `user` on day `today` with draw `roll` (the server draws it
      uniformly from 1..100). The reply and the new table are those `Play`
      gives for some answer the random-other-user query is allowed to give.
     */
    method PlayLottery(user: UserId, today: Day, roll: int) returns (r: PlayResult, ghost target: Option<UserId>)
      modifies this
      ensures IsOtherUser(old(users), user, target)
      ensures Play(old(users), user, today, roll, target) == Settlement(r, users)
    {
      // A refused play never asks the query; any allowed answer stands in for it.
      OtherUserExists(users, user);
      target :| IsOtherUser(users, user, target);

      if user !in users {
        r := Failure(UserNotFound);
        UnknownUserFails(users, user, today, roll, target);
        return;
      }
      var balance := users[user].balance;
      var lastDate := users[user].lastDate;
      var usedCount := if users[user].count.Some? then users[user].count.value else 0;

      var newCount: int;
      if lastDate == Some(today) {
        if usedCount >= MaxDailyAttempts {
          r := Failure(DailyLimitReached);
          DailyLimitFails(users, user, today, roll, target);
          return;
        }
        newCount := usedCount + 1;
      } else {
        newCount := 1;
      }

      if balance <= 0 {
        r := Failure(InsufficientBalance);
        InsufficientBalanceFails(users, user, today, roll, target);
        return;
      }

      var bet := balance;
      SetBalance(user, 0);
      var outcome, amount;
      outcome, amount, target := SettleRoll(user, bet, roll);

      AddBalance(user, amount);
      RecordPlay(user, today, newCount);
      r := Success(outcome, bet, amount, amount, MaxDailyAttempts - newCount);
      assert bet == old(users)[user].balance && newCount == NextCount(old(users)[user], today);
      SettlementUpdates(old(users), user, today, roll, target, outcome, amount);
    }
  }
}
