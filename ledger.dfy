/**
  The users table the lottery reads and writes: one row per user, keyed by
  user id, holding the balance and the two lottery columns. The table is a map;
  rows are never created or deleted by a play.
 */
module Ledger {
  import opened Wrappers

  type UserId = string

  /** A UTC calendar date, as a day number. Plays only compare dates for equality. */
  type Day = int

  /**
    One row: `balance`, `last_lottery_date` and `daily_lottery_count`.
    A NULL or empty date is `None`; a NULL count is `None`.
   */
  datatype Account = Account(balance: int, lastDate: Option<Day>, count: Option<int>)

  type Users = map<UserId, Account>

  // The three row updates a play issues. Each matches no row, and changes
  // nothing, when the user is unknown.

  /** The table after setting `u`'s balance to `amount`. */
  function WithBalance(users: Users, u: UserId, amount: int): Users {
    if u in users then users[u := users[u].(balance := amount)] else users
  }

  /** The table after adding `delta` to `u`'s balance in place. */
  function WithCredit(users: Users, u: UserId, delta: int): Users {
    if u in users then users[u := users[u].(balance := users[u].balance + delta)] else users
  }

  /** The table after recording a play of `u` on `date` as the `count`-th of that day. */
  function WithPlayRecorded(users: Users, u: UserId, date: Day, count: int): Users {
    if u in users then users[u := users[u].(lastDate := Some(date), count := Some(count))] else users
  }

  /** The invariant every write of the lottery keeps: no negative balance or count. */
  predicate WellFormed(users: Users) {
    forall u :: u in users ==> users[u].balance >= 0 && (users[u].count.Some? ==> users[u].count.value >= 0)
  }

  /**
    What the "random other user" query may answer: an existing user other than
    `exclude`, or nothing, and nothing only when no such user exists.
   */
  predicate IsOtherUser(users: Users, exclude: UserId, target: Option<UserId>) {
    match target
    case Some(t) => t in users && t != exclude
    case None => users.Keys <= {exclude}
  }

  /** Whatever the table holds, some answer of the query is allowed. */
  lemma OtherUserExists(users: Users, exclude: UserId)
    ensures exists target :: IsOtherUser(users, exclude, target)
  {
    if others: UserId :| others in users && others != exclude {
      assert IsOtherUser(users, exclude, Some(others));
    } else {
      assert IsOtherUser(users, exclude, None);
    }
  }

  ghost function Pick(keys: set<UserId>): (u: UserId)
    requires keys != {}
    ensures u in keys
  {
    var u :| u in keys; u
  }

  /** The money supply: the sum of all balances. */
  ghost function Total(users: Users): int
    decreases users.Keys
  {
    if users.Keys == {} then 0
    else
      var u := Pick(users.Keys);
      users[u].balance + Total(users - {u})
  }

  /** The supply splits into any one row plus the rest, whichever row `Total` happened to pick first. */
  lemma {:induction false} TotalRemove(users: Users, u: UserId)
    requires u in users
    ensures Total(users) == users[u].balance + Total(users - {u})
    decreases users.Keys
  {
    var v := Pick(users.Keys);
    if v != u {
      TotalRemove(users - {v}, u);
      TotalRemove(users - {u}, v);
      assert users - {v} - {u} == users - {u} - {v};
    }
  }

  /** Overwriting one row changes the supply by exactly that row's change of balance. */
  lemma TotalUpdate(users: Users, u: UserId, a: Account)
    requires u in users
    ensures Total(users[u := a]) == Total(users) - users[u].balance + a.balance
  {
    TotalRemove(users, u);
    TotalRemove(users[u := a], u);
    assert users[u := a] - {u} == users - {u};
  }
}
