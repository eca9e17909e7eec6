/**
  What one play promises, stated over `Lottery.Play`: the order of the
  eligibility checks, the day-rollover counter, the roll table and its weights,
  the stake and payout fields of the reply, conservation of the stake on a
  transfer, and the invariant of the table.
 */
module LotteryProperties {
  import opened Wrappers
  import opened Ledger
  import opened Lottery

  // ---------------------------------------------------------------------------
  // Eligibility, in the order the checks are made

  /** An unknown user is refused and nothing changes. */
  lemma UnknownUserFails(users: Users, user: UserId, today: Day, roll: int, target: Option<UserId>)
    requires IsOtherUser(users, user, target)
    requires user !in users
    ensures Play(users, user, today, roll, target) == Settlement(Failure(UserNotFound), users)
  {
  }

  /**
    A user who has already played `MaxDailyAttempts` times today is refused and
    nothing changes, whatever the balance: the limit is checked before the balance.
   */
  lemma DailyLimitFails(users: Users, user: UserId, today: Day, roll: int, target: Option<UserId>)
    requires IsOtherUser(users, user, target)
    requires user in users && users[user].lastDate == Some(today)
    requires UsedCount(users[user]) >= MaxDailyAttempts
    ensures Play(users, user, today, roll, target) == Settlement(Failure(DailyLimitReached), users)
  {
  }

  /**
    Within the limit, a balance that is not positive is refused and nothing
    changes; since the player's row is unchanged, its date and count are not
    advanced and the refused play does not use up an attempt.
   */
  lemma InsufficientBalanceFails(users: Users, user: UserId, today: Day, roll: int, target: Option<UserId>)
    requires IsOtherUser(users, user, target)
    requires user in users && users[user].balance <= 0
    requires !(PlayedToday(users[user], today) && UsedCount(users[user]) >= MaxDailyAttempts)
    ensures Play(users, user, today, roll, target) == Settlement(Failure(InsufficientBalance), users)
  {
  }

  /** A play succeeds exactly when the user exists, is within today's limit and has a positive balance. */
  lemma SucceedsIffEligible(users: Users, user: UserId, today: Day, roll: int, target: Option<UserId>)
    requires IsOtherUser(users, user, target)
    ensures Play(users, user, today, roll, target).result.Success? <==> Eligible(users, user, today)
  {
  }

  // ---------------------------------------------------------------------------
  // The daily counter

  /**
    A successful play records today's date and the new count: one more than the
    stored count when the stored date is today (a NULL count counting as 0), and
    1 otherwise, also when no date was stored.
   */
  lemma NewCountRule(users: Users, user: UserId, today: Day, roll: int, target: Option<UserId>)
    requires IsOtherUser(users, user, target)
    requires Eligible(users, user, today)
    ensures Play(users, user, today, roll, target).result.Success?
    ensures var after := Play(users, user, today, roll, target).users[user];
      && after.lastDate == Some(today)
      && after.count == Some(
           if users[user].lastDate == Some(today) then
             (if users[user].count.Some? then users[user].count.value else 0) + 1
           else 1)
  {
  }

  /**
    The reply's remaining attempts is the limit minus the recorded count and,
    when the player's stored count is not negative, lies in 0..MaxDailyAttempts-1.
   */
  lemma RemainingAttemptsRange(users: Users, user: UserId, today: Day, roll: int, target: Option<UserId>)
    requires IsOtherUser(users, user, target)
    requires Eligible(users, user, today)
    requires users[user].count.Some? ==> users[user].count.value >= 0
    ensures var s := Play(users, user, today, roll, target);
      && s.result.Success?
      && s.users[user].count == Some(MaxDailyAttempts - s.result.remainingAttempts)
      && 0 <= s.result.remainingAttempts < MaxDailyAttempts
  {
  }

  /** One play short of the limit today: the play succeeds and leaves no attempts. */
  lemma LastAttemptOfTheDay(users: Users, user: UserId, today: Day, roll: int, target: Option<UserId>)
    requires IsOtherUser(users, user, target)
    requires user in users && users[user].balance > 0
    requires users[user].lastDate == Some(today) && users[user].count == Some(MaxDailyAttempts - 1)
    ensures Play(users, user, today, roll, target).result.Success?
    ensures Play(users, user, today, roll, target).result.remainingAttempts == 0
  {
  }

  /** A user who used every attempt yesterday may play again today, and the count restarts at 1. */
  lemma DateRollover(users: Users, user: UserId, today: Day, roll: int, target: Option<UserId>)
    requires IsOtherUser(users, user, target)
    requires user in users && users[user].balance > 0
    requires users[user].lastDate == Some(today - 1) && users[user].count == Some(MaxDailyAttempts)
    ensures Play(users, user, today, roll, target).result.Success?
    ensures Play(users, user, today, roll, target).users[user].count == Some(1)
    ensures Play(users, user, today, roll, target).result.remainingAttempts == MaxDailyAttempts - 1
  {
  }

  // ---------------------------------------------------------------------------
  // The roll table

  /** Each draw in 1..100 selects the branch of its range. */
  lemma ResolveRanges(roll: int)
    requires 1 <= roll <= 100
    ensures Resolve(roll) == Loss <==> roll <= 50
    ensures Resolve(roll) == Refund <==> 51 <= roll <= 70
    ensures Resolve(roll) == Double <==> 71 <= roll <= 80
    ensures Resolve(roll) == Transfer <==> 81 <= roll <= 99
    ensures Resolve(roll) == TenFold <==> roll == 100
  {
  }

  /** The draws in 1..100 that the table maps to `k`. */
  ghost function DrawsTo(k: Kind): set<int> {
    set roll | 1 <= roll <= 100 && Resolve(roll) == k
  }

  /** A set that holds exactly the integers `lo..hi-1` has `hi - lo` elements. */
  lemma {:induction false} RangeSize(s: set<int>, lo: int, hi: int)
    requires lo <= hi
    requires forall r :: r in s <==> lo <= r < hi
    ensures |s| == hi - lo
    decreases hi - lo
  {
    if lo < hi {
      assert hi - 1 in s;
      RangeSize(s - {hi - 1}, lo, hi - 1);
    } else {
      assert forall r :: r !in s;
    }
  }

  /** The advertised odds, in percent, of each branch. */
  function Weight(k: Kind): nat {
    match k
    case Loss => 50
    case Refund => 20
    case Double => 10
    case Transfer => 19
    case TenFold => 1
  }

  /**
    Out of the 100 equally likely draws, each branch is selected by exactly as
    many as its advertised odds: 50 lose the stake, 20 refund it, 10 double it,
    19 transfer it and 1 pays ten-fold.
   */
  lemma OutcomeWeights(k: Kind)
    ensures |DrawsTo(k)| == Weight(k)
  {
    match k
    case Loss =>
      RangeSize(DrawsTo(k), 1, 51);
    case Refund =>
      RangeSize(DrawsTo(k), 51, 71);
    case Double =>
      RangeSize(DrawsTo(k), 71, 81);
    case Transfer =>
      RangeSize(DrawsTo(k), 81, 100);
    case TenFold =>
      RangeSize(DrawsTo(k), 100, 101);
  }

  // ---------------------------------------------------------------------------
  // Stake and payout

  /**
    A successful play stakes the whole balance, and the player ends with exactly
    the amount won, which the reply reports both as the result and as the
    balance; outside the transfer branch that amount is 0, the stake, twice or
    ten times the stake, according to the roll.
   */
  lemma StakeAndPayout(users: Users, user: UserId, today: Day, roll: int, target: Option<UserId>)
    requires IsOtherUser(users, user, target)
    requires Eligible(users, user, today)
    ensures var s := Play(users, user, today, roll, target);
      && s.result.Success?
      && s.result.bet == users[user].balance > 0
      && s.result.result == s.result.balance == s.users[user].balance
      && (Resolve(roll) == Loss ==> s.result.outcome == Lost && s.result.result == 0)
      && (Resolve(roll) == Refund ==> s.result.outcome == Refunded && s.result.result == s.result.bet)
      && (Resolve(roll) == Double ==> s.result.outcome == Doubled && s.result.result == 2 * s.result.bet)
      && (Resolve(roll) == TenFold ==> s.result.outcome == Jackpot && s.result.result == 10 * s.result.bet)
      && (Resolve(roll) != Transfer ==>
            s.result.result in {0, s.result.bet, 2 * s.result.bet, 10 * s.result.bet})
  {
  }

  /**
    The row updates of a successful play, issued in order (stake the whole
    balance by zeroing it, credit the transfer target, credit the player's
    winnings, record the date and count), leave exactly the table `Play`
    describes, and the player's balance is the amount won.
   */
  lemma SettlementUpdates(users: Users, user: UserId, today: Day, roll: int, target: Option<UserId>, outcome: Outcome, amount: int)
    requires IsOtherUser(users, user, target)
    requires Eligible(users, user, today)
    requires Payout(outcome, amount) == Settle(Resolve(roll), users[user].balance, target)
    ensures Play(users, user, today, roll, target) ==
      Settlement(
        Success(outcome, users[user].balance, amount, amount, MaxDailyAttempts - NextCount(users[user], today)),
        WithPlayRecorded(
          WithCredit(
            if outcome.Transferred? then WithCredit(WithBalance(users, user, 0), outcome.to, users[user].balance)
            else WithBalance(users, user, 0),
            user, amount),
          user, today, NextCount(users[user], today)))
  {
  }

  /**
    The transfer branch with another user available: the stake goes to that
    user, who is not the player, and the player is left with nothing. The
    user's id must be non-empty, since an empty id is read as no user.
   */
  lemma TransferToOtherUser(users: Users, user: UserId, today: Day, roll: int, t: UserId)
    requires IsOtherUser(users, user, Some(t))
    requires t != ""
    requires Resolve(roll) == Transfer
    requires Eligible(users, user, today)
    ensures var s := Play(users, user, today, roll, Some(t));
      && s.result.Success?
      && t != user
      && s.result.outcome == Transferred(t)
      && s.users[t].balance == users[t].balance + s.result.bet
      && s.users[t].lastDate == users[t].lastDate && s.users[t].count == users[t].count
      && s.users[user].balance == 0
      && Total(s.users) == Total(users)
  {
    SupplyChange(users, user, today, roll, Some(t));
  }

  /**
    The transfer branch refunds the stake when, and only when, the query names
    no user: it found no other user, or the user it found has the empty id.
    In particular a table holding no other user, or only the empty id besides
    the player, always refunds.
   */
  lemma TransferFallback(users: Users, user: UserId, today: Day, roll: int, target: Option<UserId>)
    requires IsOtherUser(users, user, target)
    requires Resolve(roll) == Transfer
    requires Eligible(users, user, today)
    ensures var s := Play(users, user, today, roll, target);
      && (s.result.outcome == TransferRefunded <==> target.None? || target == Some(""))
      && (users.Keys <= {user, ""} ==> s.result.outcome == TransferRefunded)
      && (s.result.outcome == TransferRefunded ==>
            s.result.result == s.result.bet && Total(s.users) == Total(users))
  {
    SupplyChange(users, user, today, roll, target);
  }

  /**
    The supply changes by what the play creates or destroys: it loses the
    stake, gains what the player is paid, and regains the stake when it was
    transferred. Loss destroys the stake; double and ten-fold create money.
   */
  lemma SupplyChange(users: Users, user: UserId, today: Day, roll: int, target: Option<UserId>)
    requires IsOtherUser(users, user, target)
    ensures var s := Play(users, user, today, roll, target);
      s.result.Success? ==>
        Total(s.users) == Total(users) - s.result.bet + s.result.result
                          + (if s.result.outcome.Transferred? then s.result.bet else 0)
  {
    var s := Play(users, user, today, roll, target);
    if s.result.Success? {
      var a := users[user];
      var p := Settle(Resolve(roll), a.balance, target);
      var credited := users;
      if p.outcome.Transferred? {
        var t := p.outcome.to;
        credited := users[t := users[t].(balance := users[t].balance + a.balance)];
        TotalUpdate(users, t, credited[t]);
      }
      assert credited[user] == a;
      TotalUpdate(credited, user, Account(p.amount, Some(today), Some(NextCount(a, today))));
    }
  }

  /** Plays keep balances and counts non-negative. */
  lemma PlayKeepsWellFormed(users: Users, user: UserId, today: Day, roll: int, target: Option<UserId>)
    requires IsOtherUser(users, user, target)
    requires WellFormed(users)
    ensures WellFormed(Play(users, user, today, roll, target).users)
  {
  }

  /** A fresh day, balance 100 and a draw in the double range: stake 100, win 200, nine attempts left. */
  lemma DoubleOnAFreshDay(users: Users, user: UserId, today: Day, target: Option<UserId>)
    requires IsOtherUser(users, user, target)
    requires user in users && users[user] == Account(100, None, None)
    ensures Play(users, user, today, 75, target).result == Success(Doubled, 100, 200, 200, 9)
  {
  }
}
