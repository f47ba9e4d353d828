/**
 * The logic of the tasks tab: validation of the admin's new-task form, the
 * cooldown timer of a task card, `formatTime`, the claim button's label and
 * enabled state, and the message shown when a claim fails.
 */
module TaskCard {
  import opened Wrappers
  import opened Text
  import opened Ledger

  // ---------------------------------------------------------------------------
  // New-task form

  /**
   * `handleAddTask`: the title and `parseInt(reward, 10)` handed to `addTask`, or
   * `None` when the form is refused (empty title, `NaN`, or a reward of at most 0).
   */
  function HandleAddTask(title: string, rewardText: string): (r: Option<(string, int)>)
    ensures r.Some? ==> r.value.0 == title && title != "" && r.value.1 > 0
    ensures r.Some? ==> ParseInt(rewardText) == Some(r.value.1)
    ensures r.None? <==> title == "" || ParseInt(rewardText).None? || ParseInt(rewardText).value <= 0
  {
    var reward := ParseInt(rewardText);
    if title == "" || reward.None? || reward.value <= 0 then None
    else Some((title, reward.value))
  }

  /** Any non-empty title with a positive whole reward typed in decimal is accepted as typed. */
  lemma AddTaskAcceptsTypedReward(title: string, n: nat)
    requires title != "" && n > 0
    ensures HandleAddTask(title, NatToString(n)) == Some((title, n))
  {
    ParseIntOfNatToString(n);
  }

  /** A task added through the form always carries a positive reward, so claiming it keeps balances non-negative. */
  lemma AddedTaskHasPositiveReward(tasks: seq<Task>, user: Option<User>, newId: string, title: string, rewardText: string)
    requires HandleAddTask(title, rewardText).Some?
    requires user.Some? && user.value.isAdmin
    ensures var (t, reward) := HandleAddTask(title, rewardText).value;
      var added := AppendTask(tasks, user, newId, t, reward as real, None);
      added[|added| - 1].reward > 0.0 && added[|added| - 1].title == title
  {
  }

  // ---------------------------------------------------------------------------
  // Cooldown timer

  /** The last completion time of a task for the signed-in user, if any. */
  function LastCompleted(user: Option<User>, taskId: string): (t: Option<int>)
    ensures t.Some? <==> user.Some? && taskId in user.value.tasksCompleted
    ensures t.Some? ==> t.value == user.value.tasksCompleted[taskId]
  {
    if user.Some? && taskId in user.value.tasksCompleted then Some(user.value.tasksCompleted[taskId]) else None
  }

  /** The `timeLeft` the card's timer writes: milliseconds until the task can be claimed again. */
  function TimeLeft(taskId: string, lastCompleted: Option<int>, now: int): (t: nat)
    ensures taskId in OneTimeTasks || lastCompleted.None? ==> t == 0
    ensures lastCompleted.Some? && taskId !in OneTimeTasks ==>
      t >= lastCompleted.value + CooldownFor(taskId) - now
      && (t == 0 || t == lastCompleted.value + CooldownFor(taskId) - now)
  {
    if taskId in OneTimeTasks || lastCompleted.None? then 0
    else
      var next := lastCompleted.value + CooldownFor(taskId);
      if next - now > 0 then next - now else 0
  }

  /** For a recurring task the timer reaches zero exactly when the ledger accepts a new claim. */
  lemma TimeLeftMatchesClaim(u: User, taskId: string, now: int)
    requires taskId !in OneTimeTasks
    ensures TimeLeft(taskId, LastCompleted(Some(u), taskId), now) == 0 <==> ClaimEligible(u, taskId, now)
  {
  }

  // ---------------------------------------------------------------------------
  // Time labels

  /** `formatTime(ms)`: `"{m}m {s}s"` while the minutes (modulo 60) are positive, else `"{s}s"`. */
  function FormatTime(ms: nat): (text: string)
    ensures |text| >= 2 && text[|text| - 1] == 's'
    ensures (ms / 60000) % 60 > 0 <==> 'm' in text
  {
    var minutes, seconds := (ms / 60000) % 60, (ms / 1000) % 60;
    ClockLabelForm(minutes, seconds);
    ClockLabel(minutes, seconds)
  }

  /** The label built from whole minutes and seconds. */
  function ClockLabel(minutes: nat, seconds: nat): (text: string)
    ensures |text| >= 2 && text[|text| - 1] == 's'
  {
    if minutes > 0 then NatToString(minutes) + "m " + NatToString(seconds) + "s"
    else NatToString(seconds) + "s"
  }

  /** The label shows minutes exactly when there are some: only the two-part form contains `m`. */
  lemma ClockLabelForm(minutes: nat, seconds: nat)
    ensures minutes > 0 <==> 'm' in ClockLabel(minutes, seconds)
  {
    var text := ClockLabel(minutes, seconds);
    if minutes > 0 {
      assert text[|NatToString(minutes)|] == 'm';
    } else {
      var digits := NatToString(seconds);
      assert text == digits + "s";
      assert forall i :: 0 <= i < |text| ==> text[i] == 's' || IsDigit(text[i]);
    }
  }

  /** Reads a `"{m}m {s}s"` or `"{s}s"` label back as a number of seconds. */
  function ReadDuration(text: string): Option<nat> {
    match LeadingNumber(text)
    case None => None
    case Some((a, rest)) =>
      if rest == "s" then Some(a)
      else if |rest| >= 2 && rest[..2] == "m " then
        match LeadingNumber(rest[2..])
        case None => None
        case Some((b, rest2)) => if rest2 == "s" then Some(a * 60 + b) else None
      else None
  }

  lemma ReadSeconds(sec: nat)
    ensures ReadDuration(NatToString(sec) + "s") == Some(sec)
  {
    LeadingNumberOfNatToString(sec, "s");
  }

  lemma ReadMinutesLabel(text: string, m: nat, sec: nat, rest: string)
    requires LeadingNumber(text) == Some((m, rest))
    requires rest != "s" && |rest| >= 2 && rest[..2] == "m "
    requires LeadingNumber(rest[2..]) == Some((sec, "s"))
    ensures ReadDuration(text) == Some(m * 60 + sec)
  {
  }

  lemma ReadMinutesSeconds(m: nat, sec: nat)
    ensures ReadDuration(NatToString(m) + "m " + NatToString(sec) + "s") == Some(m * 60 + sec)
  {
    var secText := NatToString(sec) + "s";
    var tail := "m " + secText;
    assert NatToString(m) + "m " + NatToString(sec) + "s" == NatToString(m) + tail;
    LeadingNumberOfNatToString(m, tail);
    assert |tail| >= 3 && tail != "s";
    assert tail[..2] == "m " && tail[2..] == secText;
    LeadingNumberOfNatToString(sec, "s");
    ReadMinutesLabel(NatToString(m) + tail, m, sec, tail);
  }

  /** Either form of the label reads back as the seconds it stands for. */
  lemma ClockLabelReadsBack(minutes: nat, seconds: nat, total: nat)
    requires total == minutes * 60 + seconds
    ensures ReadDuration(ClockLabel(minutes, seconds)) == Some(total)
  {
    var text := ClockLabel(minutes, seconds);
    if minutes > 0 {
      assert text == NatToString(minutes) + "m " + NatToString(seconds) + "s";
      ReadMinutesSeconds(minutes, seconds);
      assert ReadDuration(text) == Some(minutes * 60 + seconds);
    } else {
      assert text == NatToString(seconds) + "s" && total == seconds;
      ReadSeconds(seconds);
      assert ReadDuration(text) == Some(seconds);
    }
  }

  /** The label of a count of whole seconds reads back as that count modulo one hour. */
  lemma SecondsLabelReadsBack(q: nat)
    ensures ReadDuration(ClockLabel((q / 60) % 60, q % 60)) == Some(q % 3600)
  {
    MinutesAndSeconds(q);
    ClockLabelReadsBack((q / 60) % 60, q % 60, q % 3600);
  }

  /** Round trip: the label reads back as the whole seconds left, modulo one hour. */
  lemma FormatTimeReadsBack(ms: nat)
    ensures ReadDuration(FormatTime(ms)) == Some((ms / 1000) % 3600)
  {
    var q := ms / 1000;
    MillisToSeconds(ms);
    assert FormatTime(ms) == ClockLabel((q / 60) % 60, q % 60);
    SecondsLabelReadsBack(q);
  }

  /** A leading number written without leading zeros, and the text after it. */
  function ReadField(text: string): (r: Option<(nat, string)>)
    ensures r.Some? ==> text == NatToString(r.value.0) + r.value.1
  {
    match LeadingNumber(text)
    case None => None
    case Some((a, rest)) => if text == NatToString(a) + rest then Some((a, rest)) else None
  }

  lemma ReadFieldOfNatToString(n: nat, tail: string)
    requires tail == [] || !IsDigit(tail[0])
    ensures ReadField(NatToString(n) + tail) == Some((n, tail))
  {
    LeadingNumberOfNatToString(n, tail);
  }

  /**
   * Reads a label back field by field, as `(minutes, seconds)`: `"{m}m {s}s"` with
   * positive minutes, or `"{s}s"` with none; every number without leading zeros.
   */
  function ReadLabelFields(text: string): Option<(nat, nat)> {
    match ReadField(text)
    case None => None
    case Some((a, rest)) =>
      if rest == "s" then Some((0, a))
      else if a > 0 && |rest| >= 2 && rest[..2] == "m " then
        match ReadField(rest[2..])
        case None => None
        case Some((b, rest2)) => if rest2 == "s" then Some((a, b)) else None
      else None
  }

  lemma ReadSecondsFields(sec: nat)
    ensures ReadLabelFields(NatToString(sec) + "s") == Some((0, sec))
  {
    ReadFieldOfNatToString(sec, "s");
  }

  lemma ReadMinutesFieldsLabel(text: string, m: nat, sec: nat, rest: string)
    requires ReadField(text) == Some((m, rest))
    requires m > 0 && rest != "s" && |rest| >= 2 && rest[..2] == "m "
    requires ReadField(rest[2..]) == Some((sec, "s"))
    ensures ReadLabelFields(text) == Some((m, sec))
  {
  }

  lemma ReadMinutesSecondsFields(m: nat, sec: nat)
    requires m > 0
    ensures ReadLabelFields(NatToString(m) + "m " + NatToString(sec) + "s") == Some((m, sec))
  {
    var secText := NatToString(sec) + "s";
    var tail := "m " + secText;
    assert NatToString(m) + "m " + NatToString(sec) + "s" == NatToString(m) + tail;
    ReadFieldOfNatToString(m, tail);
    assert |tail| >= 3 && tail != "s";
    assert tail[..2] == "m " && tail[2..] == secText;
    ReadFieldOfNatToString(sec, "s");
    ReadMinutesFieldsLabel(NatToString(m) + tail, m, sec, tail);
  }

  /** Each field of the label reads back as the number it was built from. */
  lemma ClockLabelFields(minutes: nat, seconds: nat)
    ensures ReadLabelFields(ClockLabel(minutes, seconds)) == Some((minutes, seconds))
  {
    if minutes > 0 {
      ReadMinutesSecondsFields(minutes, seconds);
    } else {
      ReadSecondsFields(seconds);
    }
  }

  /**
   * The label's fields are the whole minutes and the whole seconds of `ms`, each
   * modulo 60, printed without leading zeros; minutes are omitted when zero.
   */
  lemma FormatTimeFields(ms: nat)
    ensures ReadLabelFields(FormatTime(ms)) == Some(((ms / 60000) % 60, (ms / 1000) % 60))
  {
    ClockLabelFields((ms / 60000) % 60, (ms / 1000) % 60);
  }

  // ---------------------------------------------------------------------------
  // Claim button

  /**
   * The label and enabled state of a task card's main button, computed as the card
   * does: defaults first, then an if/else chain that reassigns them.
   */
  method ClaimButton(taskId: string, hasUrl: bool, hasVisitedLink: bool, isClaiming: bool,
                     lastCompleted: Option<int>, timeLeft: nat) returns (text: string, disabled: bool)
    ensures hasUrl && !hasVisitedLink && lastCompleted.None? ==> text == "Go to Link" && !disabled
    ensures taskId in OneTimeTasks && lastCompleted.Some? && !isClaiming ==> text == "Completed" && disabled
    ensures isClaiming && !(hasUrl && !hasVisitedLink && lastCompleted.None?) ==> disabled
    ensures !disabled && text != "Go to Link" ==>
      && !isClaiming
      && (taskId in OneTimeTasks ==> lastCompleted.None?)
      && (timeLeft == 0 || (hasUrl && lastCompleted.None?))
    ensures timeLeft > 0 && !isClaiming && taskId !in OneTimeTasks && !(hasUrl && lastCompleted.None?) ==>
      text == "Next in " + FormatTime(timeLeft) && disabled
    ensures !isClaiming && (taskId in OneTimeTasks ==> lastCompleted.None?) && timeLeft == 0 ==> !disabled
    ensures hasUrl && hasVisitedLink && lastCompleted.None? ==> text == "Claim Reward" && (disabled <==> isClaiming)
    ensures isClaiming && !(hasUrl && lastCompleted.None?) ==> text == ""
    ensures !isClaiming && !hasUrl && taskId in OneTimeTasks && lastCompleted.None? ==>
      text == "Claim Reward" && (disabled <==> timeLeft > 0)
    ensures !isClaiming && timeLeft == 0 && taskId !in OneTimeTasks && !(hasUrl && lastCompleted.None?) ==>
      && text == (if taskId == "watch_ad" then (if lastCompleted.Some? then "Watch Next Ad" else "Watch Ad")
                  else (if lastCompleted.Some? then "Claim Again" else "Claim Reward"))
      && !disabled
  {
    var isOneTimeTask := taskId in OneTimeTasks;
    var isCompletedOnce := lastCompleted.Some?;
    var isButtonDisabled := isClaiming || (isOneTimeTask && isCompletedOnce) || timeLeft > 0;
    var buttonText := "Claim Reward";
    if hasUrl && !hasVisitedLink && !isCompletedOnce {
      buttonText := "Go to Link";
      isButtonDisabled := false;
    } else if hasUrl && hasVisitedLink && !isCompletedOnce {
      buttonText := "Claim Reward";
      isButtonDisabled := isClaiming;
    } else if isClaiming {
      buttonText := "";
    } else if isOneTimeTask {
      if isCompletedOnce {
        buttonText := "Completed";
      }
    } else if timeLeft > 0 {
      buttonText := "Next in " + FormatTime(timeLeft);
    } else if taskId == "watch_ad" {
      buttonText := if isCompletedOnce then "Watch Next Ad" else "Watch Ad";
    } else {
      buttonText := if isCompletedOnce then "Claim Again" else "Claim Reward";
    }
    text := buttonText;
    disabled := isButtonDisabled && !(hasUrl && !hasVisitedLink && !isCompletedOnce);
  }

  /**
   * With the timer showing the true time left, a claim the button offers is one the
   * ledger accepts, except for the staking task before any stake is approved.
   */
  lemma OfferedClaimIsEligible(u: User, taskId: string, now: int)
    requires taskId in OneTimeTasks ==> taskId !in u.tasksCompleted
    requires TimeLeft(taskId, LastCompleted(Some(u), taskId), now) == 0
    requires taskId == "first_stake" ==> u.stakedBalance > 0.0
    ensures ClaimEligible(u, taskId, now)
  {
    if taskId !in OneTimeTasks {
      TimeLeftMatchesClaim(u, taskId, now);
    }
  }

  /**
   * Conversely, a claim the ledger accepts is offered: no earlier completion of a
   * one-time task, and the timer at zero, so the button is enabled.
   */
  lemma EligibleClaimIsOffered(u: User, taskId: string, now: int)
    requires ClaimEligible(u, taskId, now)
    ensures taskId in OneTimeTasks ==> LastCompleted(Some(u), taskId).None?
    ensures TimeLeft(taskId, LastCompleted(Some(u), taskId), now) == 0
  {
    if taskId !in OneTimeTasks {
      TimeLeftMatchesClaim(u, taskId, now);
    }
  }

  // ---------------------------------------------------------------------------
  // Failure message

  const OnlyOnce: string := "This task can only be completed once."
  const StakeFirst: string := "You must stake first to claim this reward."
  const WaitForTimer: string := "Please wait for the timer to finish."

  /** The message of a failed claim, as the card chooses it. */
  function ClaimFailureMessage(taskId: string, user: Option<User>): (msg: string)
    ensures msg == OnlyOnce || msg == StakeFirst || msg == WaitForTimer
    ensures msg == OnlyOnce <==> taskId in OneTimeTasks
  {
    var notStaked := user.Some? && user.value.stakedBalance == 0.0;
    if taskId in OneTimeTasks then OnlyOnce
    else if taskId == "first_stake" && notStaked then StakeFirst
    else WaitForTimer
  }

  /**
   * The staking task is itself a one-time task, so its "stake first" branch is never
   * reached: a user who has not staked is told the task can only be done once.
   */
  lemma StakeFirstNeverShown(taskId: string, user: Option<User>)
    ensures ClaimFailureMessage(taskId, user) != StakeFirst
    ensures ClaimFailureMessage("first_stake", user) == OnlyOnce
  {
  }

  /** The message with the staking condition tested before the one-time rule. */
  function ClaimFailureReason(taskId: string, user: Option<User>): (msg: string)
    ensures msg == OnlyOnce || msg == StakeFirst || msg == WaitForTimer
    ensures msg == StakeFirst ==> taskId == "first_stake" && user.Some? && user.value.stakedBalance <= 0.0
    ensures msg == WaitForTimer <==> taskId !in OneTimeTasks
  {
    if taskId == "first_stake" && user.Some? && taskId !in user.value.tasksCompleted && user.value.stakedBalance <= 0.0 then StakeFirst
    else if taskId in OneTimeTasks then OnlyOnce
    else WaitForTimer
  }

  /** Each refused claim is explained by the rule of the ledger that refused it. */
  lemma FailureReasonNamesRule(u: User, taskId: string, now: int)
    requires !ClaimEligible(u, taskId, now)
    ensures ClaimFailureReason(taskId, Some(u)) == StakeFirst <==>
      taskId == "first_stake" && taskId !in u.tasksCompleted && u.stakedBalance <= 0.0
    ensures ClaimFailureReason(taskId, Some(u)) == OnlyOnce <==> taskId in OneTimeTasks && taskId in u.tasksCompleted
    ensures ClaimFailureReason(taskId, Some(u)) == WaitForTimer <==>
      taskId !in OneTimeTasks && now - u.tasksCompleted[taskId] < CooldownFor(taskId)
  {
  }
}
