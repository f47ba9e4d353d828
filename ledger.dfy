/**
 * The single-user token ledger of the user context: one `User` record (token
 * balance, staked balance, the one-stake flag, last completion time per task,
 * newest-first transaction list, last payout time) and the task catalogue.
 *
 * Every transition is a pure function from the old record to the new one (the
 * source builds each new record by spread, `find` and `map`); `UserProvider`
 * at the end holds the mutable `user` / `tasks` state and applies them.
 * Timestamps are integer milliseconds; transaction and task ids, which the
 * source derives from the clock, are parameters.
 */
module Ledger {
  import opened Wrappers
  import opened Text

  datatype TxType = Stake | Withdraw | TaskReward | LoginBonus | Earning
  datatype TxStatus = Pending | Approved | Completed | Rejected

  datatype Transaction = Transaction(
    id: string,
    kind: TxType,
    amount: real,
    date: int,
    description: string,
    status: TxStatus)

  datatype Task = Task(id: string, title: string, reward: real, icon: Option<string>)

  datatype User = User(
    uid: string,
    isAdmin: bool,
    tokenBalance: real,
    stakedBalance: real,
    hasStaked: bool,
    tasksCompleted: map<string, int>,
    transactions: seq<Transaction>,
    lastPayoutTime: Option<int>)

  const AdminUid: string := "admin_user_123"
  /** Tokens per staked token per hour: 3% a day spread over 24 hours, times 45. */
  const HourlyEarningRateFactor: real := (0.03 / 24.0) * 45.0
  const MinimumWithdrawalAmount: real := 100000.0
  const StakeAmount: real := 1000.0
  const WelcomeBonus: real := 1000.0
  const OneTimeTasks: seq<string> := ["follow_twitter", "join_telegram", "first_stake"]
  const HourMs: int := 60 * 60 * 1000

  const InitialTasks: seq<Task> := [
    Task("follow_twitter", "Follow us on X (Twitter)", 500.0, Some("Twitter")),
    Task("join_telegram", "Join our Telegram Channel", 500.0, Some("Send")),
    Task("first_stake", "Make your first stake", 1000.0, Some("Gift")),
    Task("watch_ad", "Watch an Ad", 100.0, Some("Tv"))
  ]

  /** The wait between two claims of a recurring task: 5 s for the ad, one minute otherwise. */
  function CooldownFor(taskId: string): (ms: int)
    ensures ms > 0
  {
    if taskId == "watch_ad" then 5 * 1000 else 60 * 1000
  }

  /** The description of a stake request: a fixed lead-in, then the order id to the end. */
  function StakeDescription(orderId: string): (d: string)
    ensures |d| == 29 + |orderId| && d[29..] == orderId
  {
    "Stake request with Order ID: " + orderId
  }

  // ---------------------------------------------------------------------------
  // Invariants over a record

  /** Balances are never negative and every ledger entry carries a non-negative magnitude. */
  predicate WellFormed(u: User) {
    && u.tokenBalance >= 0.0
    && u.stakedBalance >= 0.0
    && forall i :: 0 <= i < |u.transactions| ==> u.transactions[i].amount >= 0.0
  }

  predicate UniqueIds(txs: seq<Transaction>) {
    forall i, j :: 0 <= i < j < |txs| ==> txs[i].id != txs[j].id
  }

  predicate IdIn(txs: seq<Transaction>, id: string) {
    exists i :: 0 <= i < |txs| && txs[i].id == id
  }

  /** The tokens held in escrow by pending requests. */
  function PendingTotal(txs: seq<Transaction>): real {
    if txs == [] then 0.0
    else (if txs[0].status == Pending then txs[0].amount else 0.0) + PendingTotal(txs[1..])
  }

  /** The tokens pending under one id (more than one entry when ids collide). */
  function PendingWithId(txs: seq<Transaction>, id: string): real {
    if txs == [] then 0.0
    else (if txs[0].status == Pending && txs[0].id == id then txs[0].amount else 0.0) + PendingWithId(txs[1..], id)
  }

  /** Everything the user owns: liquid, staked and escrowed tokens. */
  function Holdings(u: User): real {
    u.tokenBalance + u.stakedBalance + PendingTotal(u.transactions)
  }

  // ---------------------------------------------------------------------------
  // Session

  /** `login`: always a fresh record with the welcome bonus. */
  function NewUser(uid: string, now: int, txId: string): (u: User)
    ensures WellFormed(u) && UniqueIds(u.transactions)
    ensures u.isAdmin <==> uid == AdminUid
    ensures u.tokenBalance == WelcomeBonus && u.stakedBalance == 0.0 && !u.hasStaked
    ensures u.tasksCompleted == map[] && u.lastPayoutTime == Some(now)
    ensures u.transactions == [Transaction(txId, LoginBonus, WelcomeBonus, now, "Welcome bonus for signing up", Completed)]
    ensures Holdings(u) == WelcomeBonus
  {
    var bonus := Transaction(txId, LoginBonus, 1000.0, now, "Welcome bonus for signing up", Completed);
    assert PendingTotal([bonus]) == 0.0 by { assert [bonus][1..] == []; }
    User(uid, uid == AdminUid, 1000.0, 0.0, false, map[], [bonus], Some(now))
  }

  // ---------------------------------------------------------------------------
  // Requests that escrow tokens

  /** `stakeTokens(orderId)`, with `None` for a `false` return. */
  function RequestStake(u: User, orderId: string, txId: string, now: int): (r: Option<User>)
    ensures r.Some? <==> !u.hasStaked && u.tokenBalance >= StakeAmount
    ensures r.Some? ==> var v := r.value;
      && v.tokenBalance == u.tokenBalance - StakeAmount
      && v.transactions == [Transaction(txId, Stake, StakeAmount, now, StakeDescription(orderId), Pending)] + u.transactions
      && v.(tokenBalance := u.tokenBalance, transactions := u.transactions) == u
  {
    if u.hasStaked then None
    else if u.tokenBalance < StakeAmount then None
    else
      var tx := Transaction(txId, Stake, StakeAmount, now, StakeDescription(orderId), Pending);
      Some(u.(tokenBalance := u.tokenBalance - StakeAmount, transactions := [tx] + u.transactions))
  }

  /** `withdrawTokens(amount)`, with `None` for a `false` return. */
  function RequestWithdrawal(u: User, amount: real, txId: string, now: int): (r: Option<User>)
    ensures r.Some? <==> u.tokenBalance >= amount && amount >= MinimumWithdrawalAmount
    ensures r.Some? ==> var v := r.value;
      && v.tokenBalance == u.tokenBalance - amount
      && v.transactions == [Transaction(txId, Withdraw, amount, now, "Withdrawal request", Pending)] + u.transactions
      && v.(tokenBalance := u.tokenBalance, transactions := u.transactions) == u
  {
    if u.tokenBalance < amount || amount < MinimumWithdrawalAmount then None
    else
      var tx := Transaction(txId, Withdraw, amount, now, "Withdrawal request", Pending);
      Some(u.(tokenBalance := u.tokenBalance - amount, transactions := [tx] + u.transactions))
  }

  lemma RequestsPreserveWellFormed(u: User, orderId: string, amount: real, txId: string, now: int)
    requires WellFormed(u)
    ensures RequestStake(u, orderId, txId, now).Some? ==> WellFormed(RequestStake(u, orderId, txId, now).value)
    ensures RequestWithdrawal(u, amount, txId, now).Some? ==> WellFormed(RequestWithdrawal(u, amount, txId, now).value)
  {
    if RequestStake(u, orderId, txId, now).Some? {
      var v := RequestStake(u, orderId, txId, now).value;
      forall i | 0 <= i < |v.transactions| ensures v.transactions[i].amount >= 0.0 {
        if i > 0 { assert v.transactions[i] == u.transactions[i - 1]; }
      }
    }
    if RequestWithdrawal(u, amount, txId, now).Some? {
      var v := RequestWithdrawal(u, amount, txId, now).value;
      forall i | 0 <= i < |v.transactions| ensures v.transactions[i].amount >= 0.0 {
        if i > 0 { assert v.transactions[i] == u.transactions[i - 1]; }
      }
    }
  }

  /** A request moves tokens from the balance into escrow: nothing is created or lost. */
  lemma RequestsConserveHoldings(u: User, orderId: string, amount: real, txId: string, now: int)
    ensures RequestStake(u, orderId, txId, now).Some? ==> Holdings(RequestStake(u, orderId, txId, now).value) == Holdings(u)
    ensures RequestWithdrawal(u, amount, txId, now).Some? ==> Holdings(RequestWithdrawal(u, amount, txId, now).value) == Holdings(u)
  {
    if RequestStake(u, orderId, txId, now).Some? {
      var v := RequestStake(u, orderId, txId, now).value;
      assert PendingTotal(v.transactions) == StakeAmount + PendingTotal(u.transactions);
    }
    if RequestWithdrawal(u, amount, txId, now).Some? {
      var v := RequestWithdrawal(u, amount, txId, now).value;
      assert PendingTotal(v.transactions) == amount + PendingTotal(u.transactions);
    }
  }

  /**
   * `hasStaked` is only set when a stake is approved, so a second stake request is
   * accepted while the first one is still pending.
   */
  lemma SecondStakeWhilePending(u: User, o1: string, o2: string, id1: string, id2: string, t1: int, t2: int)
    requires !u.hasStaked && u.tokenBalance >= 2.0 * StakeAmount
    ensures RequestStake(u, o1, id1, t1).Some?
    ensures RequestStake(RequestStake(u, o1, id1, t1).value, o2, id2, t2).Some?
    ensures PendingTotal(RequestStake(RequestStake(u, o1, id1, t1).value, o2, id2, t2).value.transactions)
            == PendingTotal(u.transactions) + 2.0 * StakeAmount
  {
    var v := RequestStake(u, o1, id1, t1).value;
    var w := RequestStake(v, o2, id2, t2).value;
    assert PendingTotal(v.transactions) == StakeAmount + PendingTotal(u.transactions);
    assert PendingTotal(w.transactions) == StakeAmount + PendingTotal(v.transactions);
  }

  // ---------------------------------------------------------------------------
  // Admin decisions

  /** Index of the first transaction with the id (`Array.prototype.find`). */
  function FindIndex(txs: seq<Transaction>, id: string): (r: Option<nat>)
    ensures r.Some? ==> r.value < |txs| && txs[r.value].id == id
    ensures r.Some? ==> forall k :: 0 <= k < r.value ==> txs[k].id != id
    ensures r.None? <==> !IdIn(txs, id)
  {
    if txs == [] then None
    else if txs[0].id == id then Some(0)
    else match FindIndex(txs[1..], id)
      case None => None
      case Some(k) => Some(k + 1)
  }

  /** The rewrite the decision map applies to one entry. */
  function Decide(t: Transaction, id: string, status: TxStatus, word: string): Transaction {
    if t.id == id then t.(status := status, description := ReplaceFirst(t.description, "request", word)) else t
  }

  /** The `map` over the transaction list: every entry carrying the id is rewritten. */
  function Mark(txs: seq<Transaction>, id: string, status: TxStatus, word: string): (r: seq<Transaction>)
    ensures |r| == |txs|
    ensures forall i :: 0 <= i < |txs| ==> r[i] == Decide(txs[i], id, status, word)
  {
    if txs == [] then [] else [Decide(txs[0], id, status, word)] + Mark(txs[1..], id, status, word)
  }

  /** The shared guard of approve and reject: an admin session and a pending first entry with the id. */
  predicate CanDecide(u: User, id: string): (ok: bool)
    ensures ok <==> u.isAdmin && exists i :: (0 <= i < |u.transactions| && u.transactions[i].id == id
      && u.transactions[i].status == Pending && forall j :: 0 <= j < i ==> u.transactions[j].id != id)
  {
    && u.isAdmin
    && FindIndex(u.transactions, id).Some?
    && u.transactions[FindIndex(u.transactions, id).value].status == Pending
  }

  function Target(u: User, id: string): Transaction
    requires CanDecide(u, id)
  {
    u.transactions[FindIndex(u.transactions, id).value]
  }

  /** `approveTransaction(id)`; a call that fails the guard returns the record unchanged. */
  function Approve(u: User, id: string, now: int): (r: User)
    ensures !CanDecide(u, id) ==> r == u
    ensures CanDecide(u, id) ==> var tx := Target(u, id);
      && r.tokenBalance == u.tokenBalance
      && r.stakedBalance == u.stakedBalance + (if tx.kind == Stake then tx.amount else 0.0)
      && (tx.kind == Stake ==> r.hasStaked && r.lastPayoutTime == Some(now))
      && (tx.kind != Stake ==> r.hasStaked == u.hasStaked && r.lastPayoutTime == u.lastPayoutTime)
      && r.uid == u.uid && r.isAdmin == u.isAdmin && r.tasksCompleted == u.tasksCompleted
      && |r.transactions| == |u.transactions|
      && (forall i :: 0 <= i < |u.transactions| && u.transactions[i].id != id ==>
            r.transactions[i] == u.transactions[i])
      && (forall i :: 0 <= i < |u.transactions| && u.transactions[i].id == id ==>
            r.transactions[i] == u.transactions[i].(status := Approved,
              description := ReplaceFirst(u.transactions[i].description, "request", "approved")))
  {
    if !u.isAdmin then u
    else match FindIndex(u.transactions, id)
      case None => u
      case Some(i) =>
        var tx := u.transactions[i];
        if tx.status != Pending then u
        else
          var staked :=
            if tx.kind == Stake then u.(stakedBalance := u.stakedBalance + tx.amount, hasStaked := true, lastPayoutTime := Some(now))
            else u;
          staked.(transactions := Mark(u.transactions, id, Approved, "approved"))
  }

  /** `rejectTransaction(id)`: the escrowed amount of the first entry goes back to the balance. */
  function Reject(u: User, id: string): (r: User)
    ensures !CanDecide(u, id) ==> r == u
    ensures CanDecide(u, id) ==> var tx := Target(u, id);
      && r.tokenBalance == u.tokenBalance + tx.amount
      && r.(tokenBalance := u.tokenBalance, transactions := u.transactions) == u
      && |r.transactions| == |u.transactions|
      && (forall i :: 0 <= i < |u.transactions| && u.transactions[i].id != id ==>
            r.transactions[i] == u.transactions[i])
      && (forall i :: 0 <= i < |u.transactions| && u.transactions[i].id == id ==>
            r.transactions[i] == u.transactions[i].(status := Rejected,
              description := ReplaceFirst(u.transactions[i].description, "request", "rejected")))
  {
    if !u.isAdmin then u
    else match FindIndex(u.transactions, id)
      case None => u
      case Some(i) =>
        var tx := u.transactions[i];
        if tx.status != Pending then u
        else u.(tokenBalance := u.tokenBalance + tx.amount, transactions := Mark(u.transactions, id, Rejected, "rejected"))
  }

  /** After a decision the entry is no longer pending, so the guard fails. */
  lemma DecidedIsFinal(u: User, id: string, status: TxStatus, word: string)
    requires status != Pending
    ensures !CanDecide(u.(transactions := Mark(u.transactions, id, status, word)), id)
  {
    var txs := Mark(u.transactions, id, status, word);
    if FindIndex(txs, id).Some? {
      var k := FindIndex(txs, id).value;
      assert txs[k] == Decide(u.transactions[k], id, status, word);
    }
  }

  /** A second approve or reject of the same id changes nothing: the transitions leave pending only once. */
  lemma DecisionsAreFinal(u: User, id: string, t1: int, t2: int)
    ensures Approve(Approve(u, id, t1), id, t2) == Approve(u, id, t1)
    ensures Reject(Approve(u, id, t1), id) == Approve(u, id, t1)
    ensures Reject(Reject(u, id), id) == Reject(u, id)
    ensures Approve(Reject(u, id), id, t2) == Reject(u, id)
  {
    if CanDecide(u, id) {
      var a := Approve(u, id, t1);
      assert a == a.(transactions := u.transactions).(transactions := Mark(u.transactions, id, Approved, "approved"));
      DecidedIsFinal(a.(transactions := u.transactions), id, Approved, "approved");
      var r := Reject(u, id);
      assert r == r.(transactions := u.transactions).(transactions := Mark(u.transactions, id, Rejected, "rejected"));
      DecidedIsFinal(r.(transactions := u.transactions), id, Rejected, "rejected");
    }
  }

  lemma DecisionsPreserveWellFormed(u: User, id: string, now: int)
    requires WellFormed(u)
    ensures WellFormed(Approve(u, id, now)) && WellFormed(Reject(u, id))
  {
  }

  /** Marking an id takes exactly the tokens pending under that id out of escrow. */
  lemma {:induction false} MarkPendingTotal(txs: seq<Transaction>, id: string, status: TxStatus, word: string)
    requires status != Pending
    ensures PendingTotal(Mark(txs, id, status, word)) == PendingTotal(txs) - PendingWithId(txs, id)
  {
    if txs != [] {
      var m := Mark(txs, id, status, word);
      assert m[1..] == Mark(txs[1..], id, status, word);
      MarkPendingTotal(txs[1..], id, status, word);
    }
  }

  /** With distinct ids, the tokens pending under an id are exactly the amount of its entry. */
  lemma {:induction false} PendingWithUniqueId(txs: seq<Transaction>, id: string, k: nat)
    requires UniqueIds(txs) && k < |txs| && txs[k].id == id && txs[k].status == Pending
    ensures PendingWithId(txs, id) == txs[k].amount
  {
    if k == 0 {
      NoPendingWithId(txs[1..], id);
    } else {
      PendingWithUniqueId(txs[1..], id, k - 1);
    }
  }

  lemma {:induction false} NoPendingWithId(txs: seq<Transaction>, id: string)
    requires !IdIn(txs, id)
    ensures PendingWithId(txs, id) == 0.0
  {
    if txs != [] {
      assert txs[0].id != id;
      assert !IdIn(txs[1..], id) by {
        forall i | 0 <= i < |txs[1..]| ensures txs[1..][i].id != id { assert txs[1..][i] == txs[i + 1]; }
      }
      NoPendingWithId(txs[1..], id);
    }
  }

  /**
   * With distinct transaction ids: rejecting returns the escrow to the balance and
   * approving a stake moves it to the staked balance, so holdings are unchanged;
   * approving a withdrawal pays it out.
   */
  lemma DecisionsMoveEscrow(u: User, id: string, now: int)
    requires UniqueIds(u.transactions) && CanDecide(u, id)
    ensures Holdings(Reject(u, id)) == Holdings(u)
    ensures Target(u, id).kind == Stake ==> Holdings(Approve(u, id, now)) == Holdings(u)
    ensures Target(u, id).kind != Stake ==> Holdings(Approve(u, id, now)) == Holdings(u) - Target(u, id).amount
  {
    var k := FindIndex(u.transactions, id).value;
    PendingWithUniqueId(u.transactions, id, k);
    MarkPendingTotal(u.transactions, id, Approved, "approved");
    MarkPendingTotal(u.transactions, id, Rejected, "rejected");
  }

  // ---------------------------------------------------------------------------
  // Task rewards

  predicate InCatalogue(tasks: seq<Task>, taskId: string) {
    exists i :: 0 <= i < |tasks| && tasks[i].id == taskId
  }

  function FindTask(tasks: seq<Task>, taskId: string): (r: Option<Task>)
    ensures r.Some? ==> r.value.id == taskId
    ensures r.Some? ==> exists i :: (0 <= i < |tasks| && tasks[i] == r.value && forall k :: 0 <= k < i ==> tasks[k].id != taskId)
    ensures r.None? <==> !InCatalogue(tasks, taskId)
  {
    if tasks == [] then None
    else if tasks[0].id == taskId then Some(tasks[0])
    else FindTask(tasks[1..], taskId)
  }

  /**
   * The claim policy: a one-time task only if never completed (the staking task
   * also needs a positive staked balance); any other task once its cooldown has
   * passed since the last completion.
   */
  predicate ClaimEligible(u: User, taskId: string, now: int): (ok: bool)
    ensures ok ==> taskId !in u.tasksCompleted || (taskId !in OneTimeTasks && u.tasksCompleted[taskId] + CooldownFor(taskId) <= now)
    ensures taskId !in u.tasksCompleted && taskId != "first_stake" ==> ok
    ensures taskId == "first_stake" ==> (ok <==> taskId !in u.tasksCompleted && u.stakedBalance > 0.0)
  {
    if taskId in OneTimeTasks then
      taskId !in u.tasksCompleted && (taskId == "first_stake" ==> u.stakedBalance > 0.0)
    else
      taskId !in u.tasksCompleted || now - u.tasksCompleted[taskId] >= CooldownFor(taskId)
  }

  /** `claimTaskReward(taskId, reward)`, with `None` for a `false` return. */
  function Claim(u: User, tasks: seq<Task>, taskId: string, reward: real, now: int, txId: string): (r: Option<User>)
    ensures r.Some? <==> ClaimEligible(u, taskId, now) && InCatalogue(tasks, taskId)
    ensures r.Some? ==> var v := r.value;
      && v.tokenBalance == u.tokenBalance + reward
      && v.tasksCompleted == u.tasksCompleted[taskId := now]
      && v.transactions == [Transaction(txId, TaskReward, reward, now, "Reward for task: " + FindTask(tasks, taskId).value.title, Completed)] + u.transactions
      && v.(tokenBalance := u.tokenBalance, tasksCompleted := u.tasksCompleted, transactions := u.transactions) == u
  {
    var completed := taskId in u.tasksCompleted;
    if taskId in OneTimeTasks && completed then None
    else if taskId in OneTimeTasks && taskId == "first_stake" && u.stakedBalance <= 0.0 then None
    else if taskId !in OneTimeTasks && completed && now - u.tasksCompleted[taskId] < CooldownFor(taskId) then None
    else match FindTask(tasks, taskId)
      case None => None
      case Some(task) =>
        var tx := Transaction(txId, TaskReward, reward, now, "Reward for task: " + task.title, Completed);
        Some(u.(tokenBalance := u.tokenBalance + reward,
                tasksCompleted := u.tasksCompleted[taskId := now],
                transactions := [tx] + u.transactions))
  }

  /** A one-time task that was claimed can never be claimed again, at any time. */
  lemma OneTimeClaimOnce(u: User, tasks: seq<Task>, taskId: string, reward: real, now: int, txId: string,
                         reward2: real, later: int, txId2: string)
    requires taskId in OneTimeTasks
    requires Claim(u, tasks, taskId, reward, now, txId).Some?
    ensures Claim(Claim(u, tasks, taskId, reward, now, txId).value, tasks, taskId, reward2, later, txId2).None?
  {
  }

  /**
   * A recurring task claimed at `now` can be claimed again at `later` exactly when
   * its cooldown has passed.
   */
  lemma CooldownClaim(u: User, tasks: seq<Task>, taskId: string, reward: real, now: int, txId: string,
                      reward2: real, later: int, txId2: string)
    requires taskId !in OneTimeTasks
    requires Claim(u, tasks, taskId, reward, now, txId).Some?
    ensures Claim(Claim(u, tasks, taskId, reward, now, txId).value, tasks, taskId, reward2, later, txId2).Some?
            <==> later >= now + CooldownFor(taskId)
  {
  }

  lemma ClaimPreservesWellFormed(u: User, tasks: seq<Task>, taskId: string, reward: real, now: int, txId: string)
    requires WellFormed(u) && reward >= 0.0
    requires Claim(u, tasks, taskId, reward, now, txId).Some?
    ensures WellFormed(Claim(u, tasks, taskId, reward, now, txId).value)
    ensures Holdings(Claim(u, tasks, taskId, reward, now, txId).value) == Holdings(u) + reward
  {
    var v := Claim(u, tasks, taskId, reward, now, txId).value;
    forall i | 0 <= i < |v.transactions| ensures v.transactions[i].amount >= 0.0 {
      if i > 0 { assert v.transactions[i] == u.transactions[i - 1]; }
    }
    assert PendingTotal(v.transactions) == PendingTotal(u.transactions);
  }

  /** `addTask`: admin only; the new task goes after every existing one. */
  function AppendTask(tasks: seq<Task>, user: Option<User>, id: string, title: string, reward: real, icon: Option<string>): (r: seq<Task>)
    ensures !(user.Some? && user.value.isAdmin) ==> r == tasks
    ensures user.Some? && user.value.isAdmin ==>
      |r| == |tasks| + 1 && r[..|tasks|] == tasks && r[|tasks|] == Task(id, title, reward, icon)
  {
    if user.None? || !user.value.isAdmin then tasks
    else tasks + [Task(id, title, reward, icon)]
  }

  // ---------------------------------------------------------------------------
  // Hourly staking payout

  /** Whole hours elapsed since the last payout; no payout time recorded counts as none elapsed. */
  function HoursDue(u: User, now: int): (h: nat)
    ensures u.lastPayoutTime.Some? && h > 0 ==>
      h * HourMs <= now - u.lastPayoutTime.value < (h + 1) * HourMs
    ensures u.lastPayoutTime.Some? && h == 0 ==> now - u.lastPayoutTime.value < HourMs
    ensures u.lastPayoutTime.None? ==> h == 0
  {
    match u.lastPayoutTime
    case None => 0
    case Some(last) => if now - last >= HourMs then (now - last) / HourMs else 0
  }

  /** The body of the payout timer, as one step at time `now`. */
  function Payout(u: User, now: int, txId: string): (r: User)
    ensures u.stakedBalance <= 0.0 || HoursDue(u, now) == 0 ==> r == u
    ensures u.stakedBalance > 0.0 && HoursDue(u, now) > 0 ==>
      var earned := u.stakedBalance * HourlyEarningRateFactor * (HoursDue(u, now) as real);
      && r.tokenBalance == u.tokenBalance + earned
      && r.lastPayoutTime == Some(now)
      && r.transactions == [Transaction(txId, Earning, earned, now,
            "Hourly staking reward for " + NatToString(HoursDue(u, now)) + " hour(s)", Completed)] + u.transactions
      && r.(tokenBalance := u.tokenBalance, lastPayoutTime := u.lastPayoutTime, transactions := u.transactions) == u
  {
    if u.stakedBalance > 0.0 && HoursDue(u, now) >= 1 then
      var hours := HoursDue(u, now);
      var earnings := u.stakedBalance * HourlyEarningRateFactor * (hours as real);
      var tx := Transaction(txId, Earning, earnings, now,
                            "Hourly staking reward for " + NatToString(hours) + " hour(s)", Completed);
      u.(tokenBalance := u.tokenBalance + earnings, lastPayoutTime := Some(now), transactions := [tx] + u.transactions)
    else u
  }

  /** Running the payout twice at the same instant pays once. */
  lemma PayoutIdempotent(u: User, now: int, id1: string, id2: string)
    ensures Payout(Payout(u, now, id1), now, id2) == Payout(u, now, id1)
  {
  }

  /**
   * A payout never credits more than the elapsed time is worth at the hourly rate:
   * the fractional hour is dropped, and so is the time before `now` that it covered.
   */
  lemma PayoutBounded(u: User, now: int, txId: string)
    requires WellFormed(u) && u.lastPayoutTime.Some? && now >= u.lastPayoutTime.value
    ensures Payout(u, now, txId).tokenBalance - u.tokenBalance
            <= u.stakedBalance * HourlyEarningRateFactor * ((now - u.lastPayoutTime.value) as real / HourMs as real)
    ensures Payout(u, now, txId).tokenBalance >= u.tokenBalance
  {
    var h := HoursDue(u, now);
    var elapsed := now - u.lastPayoutTime.value;
    var rate := u.stakedBalance * HourlyEarningRateFactor;
    assert rate >= 0.0 by {
      assert HourlyEarningRateFactor > 0.0;
    }
    WholeHoursBound(rate, h, elapsed);
  }

  /** Paying a non-negative rate for the whole hours of an interval pays at most the rate for the exact interval. */
  lemma WholeHoursBound(rate: real, h: nat, elapsedMs: int)
    requires rate >= 0.0 && 0 <= h * HourMs <= elapsedMs
    ensures 0.0 <= rate * (h as real) <= rate * (elapsedMs as real / HourMs as real)
  {
    var elapsed := elapsedMs as real / HourMs as real;
    assert (h as real) * (HourMs as real) <= elapsedMs as real;
    assert h as real <= elapsed;
  }

  lemma PayoutPreservesWellFormed(u: User, now: int, txId: string)
    requires WellFormed(u)
    ensures WellFormed(Payout(u, now, txId))
    ensures Holdings(Payout(u, now, txId)) >= Holdings(u)
  {
    var r := Payout(u, now, txId);
    if r != u {
      forall i | 0 <= i < |r.transactions| ensures r.transactions[i].amount >= 0.0 {
        if i > 0 { assert r.transactions[i] == u.transactions[i - 1]; }
      }
      assert PendingTotal(r.transactions) == PendingTotal(u.transactions);
    }
  }

  // ---------------------------------------------------------------------------
  // The context as a state machine

  /** What the provider holds: the signed-in record, if any, and the task catalogue. */
  datatype Session = Session(user: Option<User>, tasks: seq<Task>)

  /** One call into the context, with the clock reading and the fresh id it uses. */
  datatype Op =
    | Login(uid: string, now: int, txId: string)
    | Logout
    | UpdateTokenBalance(delta: real)
    | StakeTokens(orderId: string, now: int, txId: string)
    | WithdrawTokens(amount: real, now: int, txId: string)
    | ApproveTransaction(id: string, now: int)
    | RejectTransaction(id: string)
    | ClaimTaskReward(taskId: string, reward: real, now: int, txId: string)
    | AddTask(newId: string, title: string, reward: real, icon: Option<string>)
    | PayoutTick(now: int, txId: string)

  /** Every call except `login`, `logout` and `addTask` does nothing without a signed-in user. */
  function Step(s: Session, op: Op): (t: Session)
    ensures op.Login? ==> t.user.Some? && t.user.value.uid == op.uid && t.tasks == s.tasks
    ensures op.Logout? ==> t.user.None? && t.tasks == s.tasks
    ensures !op.Login? && !op.Logout? && s.user.None? ==> t.user.None?
    ensures !op.AddTask? ==> t.tasks == s.tasks
  {
    match op
    case Login(uid, now, txId) => s.(user := Some(NewUser(uid, now, txId)))
    case Logout => s.(user := None)
    case AddTask(newId, title, reward, icon) => s.(tasks := AppendTask(s.tasks, s.user, newId, title, reward, icon))
    case _ =>
      if s.user.None? then s
      else
        var u := s.user.value;
        match op
        case UpdateTokenBalance(delta) => s.(user := Some(u.(tokenBalance := u.tokenBalance + delta)))
        case StakeTokens(orderId, now, txId) => s.(user := Some(RequestStake(u, orderId, txId, now).GetOr(u)))
        case WithdrawTokens(amount, now, txId) => s.(user := Some(RequestWithdrawal(u, amount, txId, now).GetOr(u)))
        case ApproveTransaction(id, now) => s.(user := Some(Approve(u, id, now)))
        case RejectTransaction(id) => s.(user := Some(Reject(u, id)))
        case ClaimTaskReward(taskId, reward, now, txId) => s.(user := Some(Claim(u, s.tasks, taskId, reward, now, txId).GetOr(u)))
        case PayoutTick(now, txId) => s.(user := Some(Payout(u, now, txId)))
  }

  function Run(s: Session, ops: seq<Op>): Session
    decreases |ops|
  {
    if ops == [] then s else Run(Step(s, ops[0]), ops[1..])
  }

  predicate SessionOk(s: Session) {
    s.user.Some? ==> WellFormed(s.user.value)
  }

  /** The calls that can never drive a balance negative: no debit through `updateTokenBalance`, no negative reward. */
  predicate Admissible(op: Op) {
    match op
    case UpdateTokenBalance(delta) => delta >= 0.0
    case ClaimTaskReward(_, reward, _, _) => reward >= 0.0
    case _ => true
  }

  lemma StepKeepsWellFormed(s: Session, op: Op)
    requires SessionOk(s) && Admissible(op)
    ensures SessionOk(Step(s, op))
  {
    if s.user.Some? {
      var u := s.user.value;
      match op
      case StakeTokens(orderId, now, txId) => RequestsPreserveWellFormed(u, orderId, 0.0, txId, now);
      case WithdrawTokens(amount, now, txId) => RequestsPreserveWellFormed(u, "", amount, txId, now);
      case ApproveTransaction(id, now) => DecisionsPreserveWellFormed(u, id, now);
      case RejectTransaction(id) => DecisionsPreserveWellFormed(u, id, 0);
      case ClaimTaskReward(taskId, reward, now, txId) =>
        if Claim(u, s.tasks, taskId, reward, now, txId).Some? {
          ClaimPreservesWellFormed(u, s.tasks, taskId, reward, now, txId);
        }
      case PayoutTick(now, txId) => PayoutPreservesWellFormed(u, now, txId);
      case _ =>
    }
  }

  /** Balances stay non-negative after any sequence of admissible calls. */
  lemma {:induction false} RunKeepsWellFormed(s: Session, ops: seq<Op>)
    requires SessionOk(s)
    requires forall i :: 0 <= i < |ops| ==> Admissible(ops[i])
    ensures SessionOk(Run(s, ops))
    decreases |ops|
  {
    if ops != [] {
      StepKeepsWellFormed(s, ops[0]);
      RunKeepsWellFormed(Step(s, ops[0]), ops[1..]);
    }
  }

  /** `updateTokenBalance` has no guard: a large enough debit leaves the balance negative. */
  lemma UpdateCanOverdraw(uid: string, now: int, txId: string)
    ensures !SessionOk(Run(Session(None, []), [Op.Login(uid, now, txId), Op.UpdateTokenBalance(-2000.0)]))
  {
    var ops := [Op.Login(uid, now, txId), Op.UpdateTokenBalance(-2000.0)];
    var s1 := Step(Session(None, []), ops[0]);
    var s2 := Step(s1, ops[1]);
    assert ops[1..][1..] == [];
    assert Run(Session(None, []), ops) == Run(s1, ops[1..]) == Run(s2, []);
    assert s2.user.value.tokenBalance == -1000.0;
  }

  // ---------------------------------------------------------------------------
  // The provider

  /** The context provider: mutable `user` and `tasks` state, replaced by each call. */
  class UserProvider {
    var user: Option<User>
    var tasks: seq<Task>

    function State(): Session
      reads this
    {
      Session(user, tasks)
    }

    ghost predicate Valid()
      reads this
    {
      SessionOk(State())
    }

    /** Nothing stored yet: no session and the built-in catalogue. */
    constructor ()
      ensures user == None && tasks == InitialTasks && Valid()
    {
      user := None;
      tasks := InitialTasks;
    }

    method Login(uid: string, now: int, txId: string)
      modifies this
      ensures State() == Step(old(State()), Op.Login(uid, now, txId))
      ensures user == Some(NewUser(uid, now, txId)) && Valid()
    {
      user := Some(NewUser(uid, now, txId));
    }

    method Logout()
      modifies this
      ensures State() == Step(old(State()), Op.Logout)
      ensures user == None && Valid()
    {
      user := None;
    }

    method UpdateTokenBalance(delta: real)
      modifies this
      ensures State() == Step(old(State()), Op.UpdateTokenBalance(delta))
      ensures old(Valid()) && delta >= 0.0 ==> Valid()
    {
      if user.Some? {
        var u := user.value;
        user := Some(u.(tokenBalance := u.tokenBalance + delta));
      }
    }

    method StakeTokens(orderId: string, now: int, txId: string) returns (ok: bool)
      modifies this
      ensures ok <==> old(user).Some? && !old(user).value.hasStaked && old(user).value.tokenBalance >= StakeAmount
      ensures State() == Step(old(State()), Op.StakeTokens(orderId, now, txId))
      ensures ok ==> user == Some(RequestStake(old(user).value, orderId, txId, now).value)
      ensures !ok ==> user == old(user)
      ensures old(Valid()) ==> Valid()
    {
      if user.None? {
        return false;
      }
      var u := user.value;
      var r := RequestStake(u, orderId, txId, now);
      if r.None? {
        return false;
      }
      if WellFormed(u) {
        RequestsPreserveWellFormed(u, orderId, 0.0, txId, now);
      }
      user := r;
      return true;
    }

    method WithdrawTokens(amount: real, now: int, txId: string) returns (ok: bool)
      modifies this
      ensures ok <==> old(user).Some? && old(user).value.tokenBalance >= amount && amount >= MinimumWithdrawalAmount
      ensures State() == Step(old(State()), Op.WithdrawTokens(amount, now, txId))
      ensures ok ==> user == Some(RequestWithdrawal(old(user).value, amount, txId, now).value)
      ensures !ok ==> user == old(user)
      ensures old(Valid()) ==> Valid()
    {
      if user.None? {
        return false;
      }
      var u := user.value;
      var r := RequestWithdrawal(u, amount, txId, now);
      if r.None? {
        return false;
      }
      if WellFormed(u) {
        RequestsPreserveWellFormed(u, "", amount, txId, now);
      }
      user := r;
      return true;
    }

    method ApproveTransaction(id: string, now: int)
      modifies this
      ensures State() == Step(old(State()), Op.ApproveTransaction(id, now))
      ensures old(user).Some? ==> user == Some(Approve(old(user).value, id, now))
      ensures old(Valid()) ==> Valid()
    {
      if user.Some? {
        if WellFormed(user.value) {
          DecisionsPreserveWellFormed(user.value, id, now);
        }
        user := Some(Approve(user.value, id, now));
      }
    }

    method RejectTransaction(id: string)
      modifies this
      ensures State() == Step(old(State()), Op.RejectTransaction(id))
      ensures old(user).Some? ==> user == Some(Reject(old(user).value, id))
      ensures old(Valid()) ==> Valid()
    {
      if user.Some? {
        if WellFormed(user.value) {
          DecisionsPreserveWellFormed(user.value, id, 0);
        }
        user := Some(Reject(user.value, id));
      }
    }

    method ClaimTaskReward(taskId: string, reward: real, now: int, txId: string) returns (ok: bool)
      modifies this
      ensures ok <==> old(user).Some? && ClaimEligible(old(user).value, taskId, now) && InCatalogue(tasks, taskId)
      ensures State() == Step(old(State()), Op.ClaimTaskReward(taskId, reward, now, txId))
      ensures ok ==> user == Some(Claim(old(user).value, tasks, taskId, reward, now, txId).value)
      ensures !ok ==> user == old(user)
      ensures old(Valid()) && reward >= 0.0 ==> Valid()
    {
      if user.None? {
        return false;
      }
      var u := user.value;
      var r := Claim(u, tasks, taskId, reward, now, txId);
      if r.None? {
        return false;
      }
      if reward >= 0.0 && WellFormed(u) {
        ClaimPreservesWellFormed(u, tasks, taskId, reward, now, txId);
      }
      user := r;
      return true;
    }

    method AddTask(newId: string, title: string, reward: real, icon: Option<string>)
      modifies this
      ensures State() == Step(old(State()), Op.AddTask(newId, title, reward, icon))
      ensures user == old(user)
      ensures old(Valid()) ==> Valid()
    {
      tasks := AppendTask(tasks, user, newId, title, reward, icon);
    }

    /** One firing of the payout timer, at time `now`. */
    method PayoutTick(now: int, txId: string)
      modifies this
      ensures State() == Step(old(State()), Op.PayoutTick(now, txId))
      ensures old(user).Some? ==> user == Some(Payout(old(user).value, now, txId))
      ensures old(Valid()) ==> Valid()
    {
      if user.Some? {
        if WellFormed(user.value) {
          PayoutPreservesWellFormed(user.value, now, txId);
        }
        user := Some(Payout(user.value, now, txId));
      }
    }
  }
}
