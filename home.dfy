/**
 * The logic of the home tab: reading the order id back out of a stake
 * description, the countdown to the next hourly payout, the guard in front of
 * `stakeTokens`, and the rules of the transaction history table.
 */
module Home {
  import opened Wrappers
  import opened Text
  import opened Ledger

  const OrderMarker: string := "Order ID: "

  // ---------------------------------------------------------------------------
  // Order ids

  /**
   * `getOrderId`: the regular expression `/Order ID: (.*)/` matches at the first
   * occurrence of the marker and captures the rest of that line; `None` for `null`.
   */
  function GetOrderId(description: string): (r: Option<string>)
    ensures r.None? <==> IndexOf(description, OrderMarker).None?
    ensures r.Some? ==>
      var start := IndexOf(description, OrderMarker).value + |OrderMarker|;
      && start + |r.value| <= |description|
      && description[start..start + |r.value|] == r.value
      && NoLineTerminator(r.value)
      && (start + |r.value| == |description| || IsLineTerminator(description[start + |r.value|]))
  {
    match IndexOf(description, OrderMarker)
    case None => None
    case Some(i) => Some(TakeLine(description[i + |OrderMarker|..]))
  }

  /** A description made of a marker-free lead-in, the marker and a one-line id yields that id. */
  lemma OrderIdAfterLeadIn(leadIn: string, orderId: string)
    requires NoCapitalO(leadIn)
    requires NoLineTerminator(orderId)
    ensures GetOrderId(leadIn + OrderMarker + orderId) == Some(orderId)
  {
    var d := leadIn + OrderMarker + orderId;
    assert d[|leadIn|..|leadIn| + |OrderMarker|] == OrderMarker;
    forall k | 0 <= k < |leadIn| ensures d[k] != OrderMarker[0] {
      assert d[k] == leadIn[k];
    }
    IndexOfByFirstChar(d, OrderMarker, |leadIn|);
    assert d[|leadIn| + |OrderMarker|..] == orderId;
    TakeLineWhole(orderId);
  }

  /** Replacing the first occurrence of `p`, found right after `pre`, swaps just that occurrence. */
  lemma ReplaceAfter(pre: string, p: string, post: string, r: string)
    requires IndexOf(pre + p + post, p) == Some(|pre|)
    ensures ReplaceFirst(pre + p + post, p, r) == pre + r + post
  {
    var s := pre + p + post;
    assert s[..|pre|] == pre;
    assert s[|pre| + |p|..] == post;
  }

  /** When the first character of `p` does not occur in `pre`, the first `p` in `pre + p + post` is right after `pre`. */
  lemma FoundAfter(pre: string, p: string, post: string)
    requires |p| > 0 && forall k :: 0 <= k < |pre| ==> pre[k] != p[0]
    ensures IndexOf(pre + p + post, p) == Some(|pre|)
  {
    var s := pre + p + post;
    assert s[|pre|..|pre| + |p|] == p;
    forall k | 0 <= k < |pre| ensures s[k] != p[0] {
      assert s[k] == pre[k];
    }
    IndexOfByFirstChar(s, p, |pre|);
  }

  /** `replace('request', word)` on a stake description rewrites only its lead-in. */
  lemma RewriteStakeDescription(orderId: string, word: string)
    ensures ReplaceFirst(StakeDescription(orderId), "request", word)
            == "Stake " + word + " with " + OrderMarker + orderId
  {
    var post := " with " + OrderMarker + orderId;
    assert StakeDescription(orderId) == "Stake " + "request" + post;
    assert forall k :: 0 <= k < |"Stake "| ==> "Stake "[k] != "request"[0];
    FoundAfter("Stake ", "request", post);
    ReplaceAfter("Stake ", "request", post, word);
    var lead := "Stake " + word;
    ConcatAssoc(lead, " with " + OrderMarker, orderId);
    ConcatAssoc(lead, " with ", OrderMarker);
  }

  lemma ConcatAssoc(x: string, y: string, z: string)
    ensures x + (y + z) == x + y + z
  {
  }

  predicate NoCapitalO(s: string) {
    forall k :: 0 <= k < |s| ==> s[k] != 'O'
  }

  lemma NoCapitalOConcat(a: string, b: string, c: string)
    requires NoCapitalO(a) && NoCapitalO(b) && NoCapitalO(c)
    ensures NoCapitalO(a + b + c)
  {
    var s := a + b + c;
    forall k | 0 <= k < |s| ensures s[k] != 'O' {
      if k < |a| { assert s[k] == a[k]; }
      else if k < |a| + |b| { assert s[k] == b[k - |a|]; }
      else { assert s[k] == c[k - |a| - |b|]; }
    }
  }

  /** Round trip: the order id written into a stake request is read back by `getOrderId`. */
  lemma OrderIdRoundTrip(orderId: string)
    requires NoLineTerminator(orderId)
    ensures GetOrderId(StakeDescription(orderId)) == Some(orderId)
  {
    var leadIn := "Stake request with ";
    assert NoCapitalO(leadIn);
    assert StakeDescription(orderId) == leadIn + OrderMarker + orderId;
    OrderIdAfterLeadIn(leadIn, orderId);
  }

  /**
   * The round trip survives the approval and rejection rewrites `replace('request', …)`
   * of the description, which only touch the text before the marker.
   */
  lemma OrderIdSurvivesDecision(orderId: string, word: string)
    requires NoLineTerminator(orderId)
    requires NoCapitalO(word)
    ensures GetOrderId(ReplaceFirst(StakeDescription(orderId), "request", word)) == Some(orderId)
  {
    RewriteStakeDescription(orderId, word);
    var leadIn := "Stake " + word + " with ";
    assert NoCapitalO("Stake ") && NoCapitalO(" with ");
    NoCapitalOConcat("Stake ", word, " with ");
    assert "Stake " + word + " with " + OrderMarker + orderId == leadIn + OrderMarker + orderId;
    OrderIdAfterLeadIn(leadIn, orderId);
  }

  // ---------------------------------------------------------------------------
  // Transaction history

  datatype Row = Row(tx: Transaction, sign: string, orderId: Option<string>)

  const MaxRows: nat := 20

  /** Stakes and withdrawals take tokens away from the balance; everything else adds. */
  function AmountSign(kind: TxType): (sign: string)
    ensures sign == "-" || sign == "+"
    ensures sign == "-" <==> kind == Stake || kind == Withdraw
  {
    if kind == Stake || kind == Withdraw then "-" else "+"
  }

  /** The rows of the history table: the newest 20 entries, each with its sign and, for a stake, its order id. */
  function HistoryRows(txs: seq<Transaction>): (rows: seq<Row>)
    ensures |rows| <= MaxRows && |rows| <= |txs|
    ensures |txs| >= MaxRows ==> |rows| == MaxRows
    ensures |txs| < MaxRows ==> |rows| == |txs|
    ensures forall i :: 0 <= i < |rows| ==> rows[i].tx == txs[i]
    ensures forall i :: 0 <= i < |rows| ==> (rows[i].sign == "-" <==> txs[i].kind == Stake || txs[i].kind == Withdraw)
    ensures forall i :: 0 <= i < |rows| ==> (rows[i].sign == "-" || rows[i].sign == "+")
    ensures forall i :: 0 <= i < |rows| && txs[i].kind != Stake ==> rows[i].orderId.None?
    ensures forall i :: 0 <= i < |rows| && txs[i].kind == Stake ==> rows[i].orderId == GetOrderId(txs[i].description)
  {
    var shown := if |txs| < MaxRows then txs else txs[..MaxRows];
    seq(|shown|, i requires 0 <= i < |shown| =>
      Row(shown[i], AmountSign(shown[i].kind),
          if shown[i].kind == Stake then GetOrderId(shown[i].description) else None))
  }

  lemma StakeHeadRow(txs: seq<Transaction>)
    requires |txs| > 0 && txs[0].kind == Stake
    ensures HistoryRows(txs)[0].sign == "-"
    ensures HistoryRows(txs)[0].orderId == GetOrderId(txs[0].description)
  {
  }

  /** The head entry after approving or rejecting the id of the head entry. */
  lemma DecidedHead(v: User, txId: string, later: int)
    requires |v.transactions| > 0 && v.transactions[0].id == txId && v.transactions[0].status == Pending
    ensures v.isAdmin ==> Approve(v, txId, later).transactions[0] == Decide(v.transactions[0], txId, Approved, "approved")
    ensures v.isAdmin ==> Reject(v, txId).transactions[0] == Decide(v.transactions[0], txId, Rejected, "rejected")
    ensures !v.isAdmin ==> Approve(v, txId, later) == v && Reject(v, txId) == v
  {
    assert FindIndex(v.transactions, txId) == Some(0);
  }

  /** A stake entry whose description went through `replace('request', word)` still shows its order id. */
  lemma DecidedStakeRow(txs: seq<Transaction>, orderId: string, word: string)
    requires NoLineTerminator(orderId) && NoCapitalO(word)
    requires |txs| > 0 && txs[0].kind == Stake
    requires txs[0].description == ReplaceFirst(StakeDescription(orderId), "request", word)
    ensures HistoryRows(txs)[0].orderId == Some(orderId)
  {
    OrderIdSurvivesDecision(orderId, word);
    StakeHeadRow(txs);
  }

  /** A pending stake request at the head of the history. */
  predicate PendingStakeHead(v: User, txId: string, orderId: string) {
    && |v.transactions| > 0
    && v.transactions[0].id == txId
    && v.transactions[0].kind == Stake
    && v.transactions[0].status == Pending
    && v.transactions[0].description == StakeDescription(orderId)
  }

  /** Approving the head stake request keeps its order id in the first row. */
  lemma ApprovedStakeRow(v: User, txId: string, orderId: string, later: int)
    requires NoLineTerminator(orderId) && PendingStakeHead(v, txId, orderId)
    ensures HistoryRows(Approve(v, txId, later).transactions)[0].orderId == Some(orderId)
  {
    DecidedHead(v, txId, later);
    if v.isAdmin {
      assert NoCapitalO("approved");
      DecidedStakeRow(Approve(v, txId, later).transactions, orderId, "approved");
    } else {
      OrderIdRoundTrip(orderId);
      StakeHeadRow(v.transactions);
    }
  }

  /** Rejecting the head stake request keeps its order id in the first row. */
  lemma RejectedStakeRow(v: User, txId: string, orderId: string)
    requires NoLineTerminator(orderId) && PendingStakeHead(v, txId, orderId)
    ensures HistoryRows(Reject(v, txId).transactions)[0].orderId == Some(orderId)
  {
    DecidedHead(v, txId, 0);
    if v.isAdmin {
      assert NoCapitalO("rejected");
      DecidedStakeRow(Reject(v, txId).transactions, orderId, "rejected");
    } else {
      OrderIdRoundTrip(orderId);
      StakeHeadRow(v.transactions);
    }
  }

  /**
   * A stake request shows up as the first history row with a minus sign and its
   * order id, and keeps showing that order id after it is approved or rejected.
   */
  lemma StakeRowShowsOrderId(u: User, orderId: string, txId: string, now: int, later: int)
    requires NoLineTerminator(orderId)
    requires RequestStake(u, orderId, txId, now).Some?
    ensures var v := RequestStake(u, orderId, txId, now).value;
      && HistoryRows(v.transactions)[0].sign == "-"
      && HistoryRows(v.transactions)[0].orderId == Some(orderId)
      && HistoryRows(Approve(v, txId, later).transactions)[0].orderId == Some(orderId)
      && HistoryRows(Reject(v, txId).transactions)[0].orderId == Some(orderId)
  {
    var v := RequestStake(u, orderId, txId, now).value;
    assert PendingStakeHead(v, txId, orderId);
    OrderIdRoundTrip(orderId);
    StakeHeadRow(v.transactions);
    ApprovedStakeRow(v, txId, orderId, later);
    RejectedStakeRow(v, txId, orderId);
  }

  // ---------------------------------------------------------------------------
  // Staking dialog

  /** `handleStake` calls `stakeTokens` only with an order id and, when signed in, at least 1000 tokens. */
  function HandleStakeCalls(orderId: string, user: Option<User>): (calls: bool)
    ensures calls ==> orderId != ""
    ensures calls && user.Some? ==> user.value.tokenBalance >= StakeAmount
  {
    if orderId == "" then false
    else if user.Some? && user.value.tokenBalance < 1000.0 then false
    else true
  }

  /**
   * The dialog's guard turns away exactly the requests the ledger would refuse for
   * lack of tokens, plus an empty order id; it does not check `hasStaked`.
   */
  lemma HandleStakeAgreesWithLedger(orderId: string, u: User, txId: string, now: int)
    requires orderId != ""
    ensures RequestStake(u, orderId, txId, now).Some? <==> HandleStakeCalls(orderId, Some(u)) && !u.hasStaked
  {
  }

  // ---------------------------------------------------------------------------
  // Next-payout countdown

  const ClaimingNow: string := "Claiming now..."

  /** Milliseconds until the next payout; a missing payout time counts as now. */
  function PayoutDiff(lastPayoutTime: Option<int>, now: int): (diff: int)
    ensures lastPayoutTime.None? ==> diff == HourMs
    ensures diff <= 0 <==> lastPayoutTime.Some? && now - lastPayoutTime.value >= HourMs
  {
    lastPayoutTime.GetOr(now) + HourMs - now
  }

  /** `padStart(2, '0')` of a number below 60. */
  function TwoDigits(n: nat): (s: string)
    requires n < 60
    ensures |s| == 2 && AllDigits(s) && DecimalValue(s) == n
  {
    var s := PadStart2(NatToString(n));
    if n < 10 then
      assert s == ['0', DigitChar(n)];
      assert s[..1] == ['0'] && ['0'][..0] == [];
      assert DecimalValue(['0']) == 0;
      s
    else
      assert NatToString(n) == NatToString(n / 10) + [DigitChar(n % 10)];
      NatToStringValue(n);
      s
  }

  /**
   * The countdown text: `Claiming now...` once the hour is up, otherwise the
   * remaining minutes and seconds, each reduced modulo 60 and padded to two digits.
   */
  function NextPayoutText(lastPayoutTime: Option<int>, now: int): (text: string)
    ensures PayoutDiff(lastPayoutTime, now) <= 0 <==> text == ClaimingNow
    ensures PayoutDiff(lastPayoutTime, now) > 0 ==> var diff := PayoutDiff(lastPayoutTime, now);
      && |text| == 5 && text[2] == ':' && AllDigits(text[..2]) && AllDigits(text[3..])
      && DecimalValue(text[..2]) == (diff / 60000) % 60 && DecimalValue(text[3..]) == (diff / 1000) % 60
  {
    var diff := PayoutDiff(lastPayoutTime, now);
    if diff <= 0 then ClaimingNow
    else
      ClockText((diff / 60000) % 60, (diff / 1000) % 60)
  }

  /** `mm:ss` from minutes and seconds below 60. */
  function ClockText(minutes: nat, seconds: nat): (text: string)
    requires minutes < 60 && seconds < 60
    ensures |text| == 5 && text[2] == ':'
    ensures AllDigits(text[..2]) && DecimalValue(text[..2]) == minutes
    ensures AllDigits(text[3..]) && DecimalValue(text[3..]) == seconds
  {
    var mm, ss := TwoDigits(minutes), TwoDigits(seconds);
    var text := mm + ":" + ss;
    assert text[..2] == mm && text[3..] == ss;
    text
  }

  /** Reads an `mm:ss` text back as a number of seconds. */
  function ParseClock(text: string): Option<nat> {
    if |text| == 5 && text[2] == ':' && AllDigits(text[..2]) && AllDigits(text[3..]) then
      Some(DecimalValue(text[..2]) * 60 + DecimalValue(text[3..]))
    else None
  }

  /** An `mm:ss` text reads back as the seconds it stands for. */
  lemma ClockTextReadsBack(minutes: nat, seconds: nat, total: nat)
    requires minutes < 60 && seconds < 60
    requires total == minutes * 60 + seconds
    ensures ParseClock(ClockText(minutes, seconds)) == Some(total)
  {
    var mm, ss := TwoDigits(minutes), TwoDigits(seconds);
    assert ClockText(minutes, seconds) == mm + ":" + ss;
    ParseClockOf(mm, ss);
  }

  /** Two two-digit fields around a colon read back as minutes times 60 plus seconds. */
  lemma ParseClockOf(mm: string, ss: string)
    requires |mm| == 2 && |ss| == 2 && AllDigits(mm) && AllDigits(ss)
    ensures ParseClock(mm + ":" + ss) == Some(DecimalValue(mm) * 60 + DecimalValue(ss))
  {
    var text := mm + ":" + ss;
    assert text[..2] == mm && text[3..] == ss;
    assert |text| == 5 && text[2] == ':';
    var a, b := DecimalValue(mm), DecimalValue(ss);
    assert ParseClock(text) == Some(DecimalValue(text[..2]) * 60 + DecimalValue(text[3..]));
    assert DecimalValue(text[..2]) == a && DecimalValue(text[3..]) == b;
  }

  /** The `mm:ss` text of a count of whole seconds reads back as that count modulo one hour. */
  lemma SecondsClockReadsBack(q: nat)
    ensures ParseClock(ClockText((q / 60) % 60, q % 60)) == Some(q % 3600)
  {
    MinutesAndSeconds(q);
    ClockTextReadsBack((q / 60) % 60, q % 60, q % 3600);
  }

  /**
   * Round trip: while the hour is running, the countdown reads back as the
   * remaining whole seconds modulo one hour (so a full hour shows as `00:00`).
   */
  lemma CountdownReadsBack(lastPayoutTime: Option<int>, now: int)
    requires PayoutDiff(lastPayoutTime, now) > 0
    ensures ParseClock(NextPayoutText(lastPayoutTime, now)) == Some((PayoutDiff(lastPayoutTime, now) / 1000) % 3600)
  {
    var diff: nat := PayoutDiff(lastPayoutTime, now);
    var q := diff / 1000;
    MillisToSeconds(diff);
    assert NextPayoutText(lastPayoutTime, now) == ClockText((q / 60) % 60, q % 60);
    SecondsClockReadsBack(q);
  }

  /** The countdown says `Claiming now...` exactly when the payout step would pay out. */
  lemma CountdownMatchesPayout(u: User, now: int)
    ensures NextPayoutText(u.lastPayoutTime, now) == ClaimingNow <==> HoursDue(u, now) >= 1
  {
  }
}
