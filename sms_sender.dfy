/**
 * The blocking multipart SMS sender: a message is split into parts, one send
 * per part is handed to the telephony layer, and the caller waits (bounded by
 * a timeout) until the "sent" status of every part has come back. The
 * outcome is the number of parts still pending and the highest failure level
 * any part reported, on the scale NONE < TEMPORARY < PERMANENT.
 *
 * Threads are modelled sequentially: the status callbacks that the telephony
 * layer delivers while the sender waits are explicit calls, and the clock is a
 * sequence of readings supplied by the caller.
 */
module SmsSender {
  import opened JavaLang

  // Result codes of android.app.Activity and android.telephony.SmsManager
  const RESULT_OK := -1
  const RESULT_ERROR_GENERIC_FAILURE := 1
  const RESULT_ERROR_RADIO_OFF := 2
  const RESULT_ERROR_NO_SERVICE := 4
  const RESULT_ERROR_FDN_CHECK_FAILURE := 6
  // SendStatusReceiver.NO_ERROR_CODE
  const NO_ERROR_CODE := -1

  const FAILURE_LEVEL_NONE := 0
  const FAILURE_LEVEL_TEMPORARY := 1
  const FAILURE_LEVEL_PERMANENT := 2

  // SmsMessage.MAX_USER_DATA_BYTES and MAX_USER_DATA_BYTES_WITH_HEADER: the
  // TP-User-Data capacity of one SMS (3GPP TS 23.040, section 9.2.3.24) and
  // what is left of it beside a concatenation header (section 9.2.3.24.1)
  const MAX_USER_DATA_BYTES := 140
  const MAX_USER_DATA_BYTES_WITH_HEADER := 134

  /** The request id: the message Uri, as text. */
  type RequestId = string

  // ---------------------------------------------------------------------------
  // Failure classification and the per-request tally

  /** The failure level of one part's result code. */
  function FailureLevel(resultCode: int): (level: int)
    ensures level == FAILURE_LEVEL_NONE <==> resultCode == RESULT_OK
    ensures level == FAILURE_LEVEL_TEMPORARY <==> resultCode == RESULT_ERROR_NO_SERVICE
    ensures level == FAILURE_LEVEL_PERMANENT <==> resultCode != RESULT_OK && resultCode != RESULT_ERROR_NO_SERVICE
  {
    if resultCode == RESULT_OK then FAILURE_LEVEL_NONE
    else if resultCode == RESULT_ERROR_NO_SERVICE then FAILURE_LEVEL_TEMPORARY
    else if resultCode == RESULT_ERROR_RADIO_OFF then FAILURE_LEVEL_PERMANENT
    else if resultCode == RESULT_ERROR_GENERIC_FAILURE then FAILURE_LEVEL_PERMANENT
    else FAILURE_LEVEL_PERMANENT  // an unexpected code, logged
  }

  function Max(a: int, b: int): int { if b > a then b else a }

  /** The two counters of a SendResult, as a value. */
  datatype PartTally = PartTally(pending: int, highest: int)

  function InitialTally(numOfParts: int): PartTally {
    PartTally(numOfParts, FAILURE_LEVEL_NONE)
  }

  /** What recording one part's result does to the tally. */
  function Step(t: PartTally, resultCode: int): PartTally {
    PartTally(t.pending - 1, Max(t.highest, FailureLevel(resultCode)))
  }

  /** The tally after the results `codes` are recorded in order. */
  function Replay(t: PartTally, codes: seq<int>): PartTally
  {
    if codes == [] then t else Step(Replay(t, codes[..|codes| - 1]), codes[|codes| - 1])
  }

  /** The worst level among `codes`, defined without reference to their order. */
  function WorstLevel(codes: seq<int>): int
  {
    if exists c :: c in codes && FailureLevel(c) == FAILURE_LEVEL_PERMANENT then FAILURE_LEVEL_PERMANENT
    else if exists c :: c in codes && FailureLevel(c) == FAILURE_LEVEL_TEMPORARY then FAILURE_LEVEL_TEMPORARY
    else FAILURE_LEVEL_NONE
  }

  lemma WorstLevelSnoc(codes: seq<int>, c: int)
    ensures WorstLevel(codes + [c]) == Max(WorstLevel(codes), FailureLevel(c))
  {
    var s := codes + [c];
    assert c in s;
    assert forall x :: x in s <==> x in codes || x == c;
  }

  /**
   * Recording k results lowers the pending count by exactly k (with no floor)
   * and raises the highest level to the worst level among them.
   */
  lemma {:induction false} ReplayTally(t: PartTally, codes: seq<int>)
    requires t.highest >= FAILURE_LEVEL_NONE
    ensures Replay(t, codes) == PartTally(t.pending - |codes|, Max(t.highest, WorstLevel(codes)))
  {
    if codes != [] {
      var init := codes[..|codes| - 1];
      var last := codes[|codes| - 1];
      assert init + [last] == codes;
      ReplayTally(t, init);
      WorstLevelSnoc(init, last);
      assert Replay(t, codes) == Step(Replay(t, init), last);
    }
  }

  /** The outcome of a request does not depend on the order in which its parts report. */
  lemma ReplayOrderIndependent(t: PartTally, a: seq<int>, b: seq<int>)
    requires t.highest >= FAILURE_LEVEL_NONE
    requires multiset(a) == multiset(b)
    ensures Replay(t, a) == Replay(t, b)
  {
    ReplayTally(t, a);
    ReplayTally(t, b);
    assert |a| == |multiset(a)| == |multiset(b)| == |b|;
    assert forall c :: c in a <==> c in b by {
      forall c ensures c in a <==> c in b {
        assert c in a <==> c in multiset(a);
        assert c in b <==> c in multiset(b);
      }
    }
  }

  /** A request of n > 0 parts stops being pending exactly when n results have been recorded. */
  lemma CompletesAfterAllParts(n: int, codes: seq<int>)
    requires n > 0
    ensures Replay(InitialTally(n), codes).pending > 0 <==> |codes| < n
    ensures Replay(InitialTally(n), codes).highest in {FAILURE_LEVEL_NONE, FAILURE_LEVEL_TEMPORARY, FAILURE_LEVEL_PERMANENT}
  {
    ReplayTally(InitialTally(n), codes);
  }

  lemma {:induction false} ReplayAppend(t: PartTally, a: seq<int>, b: seq<int>)
    ensures Replay(t, a + b) == Replay(Replay(t, a), b)
  {
    if b == [] {
      assert a + b == a;
    } else {
      ReplayAppend(t, a, b[..|b| - 1]);
      assert (a + b)[..|a + b| - 1] == a + b[..|b| - 1];
    }
  }

  /** SendResult: the sent status of all parts of one multipart message. */
  class SendResult {
    var pendingParts: int
    var highestFailureLevel: int

    function Tally(): PartTally
      reads this
    {
      PartTally(pendingParts, highestFailureLevel)
    }

    constructor (numOfParts: int)
      requires numOfParts > 0
      ensures Tally() == InitialTally(numOfParts)
    {
      pendingParts := numOfParts;
      highestFailureLevel := FAILURE_LEVEL_NONE;
    }

    /** Records the sent status of one part. */
    method SetPartResult(resultCode: int)
      modifies this
      ensures Tally() == Step(old(Tally()), resultCode)
    {
      pendingParts := pendingParts - 1;
      SetHighestFailureLevel(resultCode);
    }

    predicate HasPending()
      reads this
    {
      pendingParts > 0
    }

    function GetHighestFailureLevel(): int
      reads this
    {
      highestFailureLevel
    }

    method SetHighestFailureLevel(resultCode: int)
      modifies this`highestFailureLevel
      ensures highestFailureLevel >= old(highestFailureLevel)
      ensures highestFailureLevel == Max(old(highestFailureLevel), FailureLevel(resultCode))
    {
      var level := FailureLevel(resultCode);
      if level > highestFailureLevel {
        highestFailureLevel := level;
      }
    }
  }

  // ---------------------------------------------------------------------------
  // Status callbacks

  /** One "sent" status delivered by the telephony layer for one part. */
  datatype Completion = Completion(requestId: Option<RequestId>, resultCode: int, errorCode: int, partId: int, subId: int)

  /** What the completion handler shows the user. */
  datatype Notice = NoNotice | SendErrorToast(subId: int, errorCode: int) | SentSuccessfullyToast

  /** The result codes that `cs` reports for request `id`, in order. */
  function CodesFor(id: RequestId, cs: seq<Completion>): seq<int>
  {
    if cs == [] then []
    else
      var last := cs[|cs| - 1];
      CodesFor(id, cs[..|cs| - 1]) + (if last.requestId == Some(id) then [last.resultCode] else [])
  }

  lemma {:induction false} CodesForAppend(id: RequestId, a: seq<Completion>, b: seq<Completion>)
    ensures CodesFor(id, a + b) == CodesFor(id, a) + CodesFor(id, b)
  {
    if b == [] {
      assert a + b == a;
    } else {
      CodesForAppend(id, a, b[..|b| - 1]);
      assert (a + b)[..|a + b| - 1] == a + b[..|b| - 1];
    }
  }

  /** One wake-up of the waiting sender: the callbacks that ran meanwhile and the clock reading after it. */
  datatype Wakeup = Wakeup(arrived: seq<Completion>, now: int)

  /** All callbacks that ran during the given wake-ups, in order. */
  function Arrived(ws: seq<Wakeup>): seq<Completion>
  {
    if ws == [] then [] else Arrived(ws[..|ws| - 1]) + ws[|ws| - 1].arrived
  }

  /** The tally of request `id`, from `t`, once the first w wake-ups have passed. */
  function TallyAfter(t: PartTally, id: RequestId, ws: seq<Wakeup>, w: int): PartTally
    requires 0 <= w <= |ws|
  {
    Replay(t, CodesFor(id, Arrived(ws[..w])))
  }

  /** The time was not up at any of the first n wake-ups but the last. */
  predicate WokeEarly(ws: seq<Wakeup>, beginTime: int, timeout: int, n: int)
    requires n <= |ws|
  {
    forall w :: 0 <= w < n - 1 ==> ws[w].now - beginTime < timeout
  }

  /**
   * The time left to wait after n wake-ups: all of `timeout` before the first,
   * and none once the wake-ups run out.
   */
  predicate TimeLeft(ws: seq<Wakeup>, beginTime: int, timeout: int, n: int, waitTime: int)
    requires 0 <= n <= |ws|
  {
    && waitTime == (if n == 0 then timeout else timeout - (ws[n - 1].now - beginTime))
    && (n > 0 ==> timeout > 0)
    && (n == |ws| ==> waitTime <= 0)
  }

  /** Request `id` still had a part pending before each of the first n wake-ups. */
  predicate PendingBefore(t: PartTally, id: RequestId, ws: seq<Wakeup>, n: int)
    requires n <= |ws|
  {
    forall w :: 0 <= w < n ==> TallyAfter(t, id, ws, w).pending > 0
  }

  /** One more wake-up that came before the deadline while a part was pending keeps both facts. */
  lemma WakeupStep(t: PartTally, id: RequestId, ws: seq<Wakeup>, beginTime: int, timeout: int, n: nat)
    requires n < |ws|
    requires WokeEarly(ws, beginTime, timeout, n) && PendingBefore(t, id, ws, n)
    requires n > 0 ==> ws[n - 1].now - beginTime < timeout
    requires TallyAfter(t, id, ws, n).pending > 0
    ensures WokeEarly(ws, beginTime, timeout, n + 1) && PendingBefore(t, id, ws, n + 1)
  {
    forall w | 0 <= w < n
      ensures ws[w].now - beginTime < timeout
    {
      if w < n - 1 {
        assert WokeEarly(ws, beginTime, timeout, n);
      }
    }
  }

  /** Every request's tally once the statuses `cs` have been delivered: each records its own only. */
  function ReplayAll(tallies: map<RequestId, PartTally>, cs: seq<Completion>): (r: map<RequestId, PartTally>)
    ensures r.Keys == tallies.Keys
    ensures forall k :: k in r ==> r[k] == Replay(tallies[k], CodesFor(k, cs))
  {
    map k | k in tallies :: Replay(tallies[k], CodesFor(k, cs))
  }

  /** What one status callback does to the tallies: a step on its own request, if that is still waiting. */
  function Record(tallies: map<RequestId, PartTally>, c: Completion): map<RequestId, PartTally>
  {
    if c.requestId.Some? && c.requestId.value in tallies
    then tallies[c.requestId.value := Step(tallies[c.requestId.value], c.resultCode)]
    else tallies
  }

  /** Delivering one more status is recording it on top of the earlier ones. */
  lemma ReplayAllSnoc(tallies: map<RequestId, PartTally>, cs: seq<Completion>, c: Completion)
    ensures ReplayAll(tallies, cs + [c]) == Record(ReplayAll(tallies, cs), c)
  {
    var cs' := cs + [c];
    assert cs'[..|cs'| - 1] == cs;
    forall k | k in tallies
      ensures ReplayAll(tallies, cs')[k] == Record(ReplayAll(tallies, cs), c)[k]
    {
      var prev := CodesFor(k, cs);
      if c.requestId == Some(k) {
        assert CodesFor(k, cs') == prev + [c.resultCode];
        assert (prev + [c.resultCode])[..|prev|] == prev;
      } else {
        assert CodesFor(k, cs') == prev + [];
        assert prev + [] == prev;
      }
    }
  }

  /** Delivering two batches one after the other is delivering them together. */
  lemma ReplayAllAppend(tallies: map<RequestId, PartTally>, a: seq<Completion>, b: seq<Completion>)
    ensures ReplayAll(ReplayAll(tallies, a), b) == ReplayAll(tallies, a + b)
  {
    forall k | k in tallies
      ensures ReplayAll(ReplayAll(tallies, a), b)[k] == ReplayAll(tallies, a + b)[k]
    {
      CodesForAppend(k, a, b);
      ReplayAppend(tallies[k], CodesFor(k, a), CodesFor(k, b));
    }
  }

  /** Removing a key just added or overwritten leaves what removing it from the original leaves. */
  lemma RemoveUpdated<K, V>(m: map<K, V>, k: K, v: V)
    ensures m[k := v] - {k} == m - {k}
  {
  }

  /** Dropping a request after the delivery is the same as never having had it. */
  lemma ReplayAllWithout(tallies: map<RequestId, PartTally>, id: RequestId, t: PartTally, cs: seq<Completion>)
    ensures ReplayAll(tallies[id := t], cs) - {id} == ReplayAll(tallies - {id}, cs)
  {
  }

  // ---------------------------------------------------------------------------
  // Configuration and the telephony services the sender calls

  /** The MmsConfig values the sender reads for the subscription. */
  datatype MmsConfig = MmsConfig(
    finalSendEmptyMessageFlag: int,
    emailGateway: Option<string>,
    sendMultipartSmsAsSeparateMessages: bool)

  /**
   * Services outside the sender: PhoneNumberUtils.stripSeparators,
   * MmsSmsUtils.isEmailAddress and isAlias, SmsManager.divideMessage, and
   * MmsUtils.isEnabelSmsSendReport.
   */
  datatype Telephony = Telephony(
    stripSeparators: string -> string,
    isEmailAddress: string -> bool,
    isAlias: (string, int) -> bool,
    divideMessage: string -> seq<string>,
    isSmsSendReportEnabled: int -> bool)

  datatype SmsError =
    | EmptyTextMessage       // "empty text message"
    | EmptyDestination       // "empty destination address"
    | DivideFailed           // "fails to divide message"
    | SendingFailed          // "caught exception in sending"
    | InvalidFdnDestination  // the IllegalArgumentException rethrown for FDN

  /** An exception thrown by SmsManager's send calls. */
  datatype SendException = IllegalArgument(message: Option<string>) | OtherException

  // ---------------------------------------------------------------------------
  // Destination and body resolution

  /**
   * The address actually sent to and the body actually sent: with an email
   * gateway configured and an email or alias destination, the destination
   * moves in front of the body and the gateway number becomes the address;
   * otherwise the separators are stripped from the number.
   */
  function Route(cfg: MmsConfig, tel: Telephony, subId: int, dest: string, message: string): (r: (string, string))
    ensures (!IsEmpty(cfg.emailGateway) && (tel.isEmailAddress(dest) || tel.isAlias(dest, subId))) ==>
              r == (cfg.emailGateway.value, dest + " " + message)
    ensures (IsEmpty(cfg.emailGateway) || !(tel.isEmailAddress(dest) || tel.isAlias(dest, subId))) ==>
              r == (tel.stripSeparators(dest), message)
  {
    if !IsEmpty(cfg.emailGateway) && (tel.isEmailAddress(dest) || tel.isAlias(dest, subId)) then
      (cfg.emailGateway.value, dest + " " + message)
    else
      (tel.stripSeparators(dest), message)
  }

  predicate AllowsEmptyMessage(cfg: MmsConfig) {
    cfg.finalSendEmptyMessageFlag == 1 || cfg.finalSendEmptyMessageFlag == 2
  }

  /** The final destination and the parts to send. */
  datatype Outgoing = Outgoing(dest: string, parts: seq<string>)

  /** The checks and rewriting that sendMessage does before anything is sent. */
  function Resolve(cfg: MmsConfig, tel: Telephony, subId: int, dest: string, message: string): (r: Result<Outgoing, SmsError>)
    // the three errors, each raised exactly under its condition
    ensures r == Err(EmptyTextMessage) <==> cfg.finalSendEmptyMessageFlag < 0 && message == ""
    ensures r == Err(EmptyDestination) <==>
              !(cfg.finalSendEmptyMessageFlag < 0 && message == "") && Route(cfg, tel, subId, dest, message).0 == ""
    ensures r == Err(DivideFailed) <==>
              !(cfg.finalSendEmptyMessageFlag < 0 && message == "") && Route(cfg, tel, subId, dest, message).0 != ""
              && !AllowsEmptyMessage(cfg) && tel.divideMessage(Route(cfg, tel, subId, dest, message).1) == []
    ensures r.Err? ==> r.error in {EmptyTextMessage, EmptyDestination, DivideFailed}
    // on success: a non-empty routed address and at least one part
    ensures r.Ok? ==> r.value.dest == Route(cfg, tel, subId, dest, message).0 && r.value.dest != ""
    ensures r.Ok? ==> |r.value.parts| > 0
    ensures r.Ok? ==>
              var divided := tel.divideMessage(Route(cfg, tel, subId, dest, message).1);
              r.value.parts == if divided == [] then [""] else divided
  {
    if cfg.finalSendEmptyMessageFlag < 0 && message == "" then Err(EmptyTextMessage)
    else
      var (finalDest, finalMessage) := Route(cfg, tel, subId, dest, message);
      if finalDest == "" then Err(EmptyDestination)
      else
        var messages := tel.divideMessage(finalMessage);
        if AllowsEmptyMessage(cfg) then
          Ok(Outgoing(finalDest, if |messages| < 1 then [""] else messages))
        else if |messages| < 1 then Err(DivideFailed)
        else Ok(Outgoing(finalDest, messages))
  }

  // ---------------------------------------------------------------------------
  // Dispatch

  datatype StatusAction = MessageSent | MessageDelivered

  /** The broadcast a part's PendingIntent carries back: request, part and subscription. */
  datatype StatusIntent = StatusIntent(action: StatusAction, requestId: RequestId, partId: int, subId: int)

  /** One call into SmsManager. */
  datatype Transmission =
    | TextMessage(dest: string, serviceCenter: Option<string>, text: string,
                  sent: StatusIntent, delivery: Option<StatusIntent>)
    | MultipartTextMessage(dest: string, serviceCenter: Option<string>, parts: seq<string>,
                           sentList: seq<StatusIntent>, deliveryList: seq<Option<StatusIntent>>)

  /** The part id of part i of a message of messageCount parts. */
  function PartId(i: int, messageCount: int): int {
    if messageCount <= 1 then 0 else i + 1
  }

  /** The "sent" intent of part i. */
  function SentIntent(i: int, messageCount: int, messageUri: RequestId, subId: int): StatusIntent {
    StatusIntent(MessageSent, messageUri, PartId(i, messageCount), subId)
  }

  /** The "delivered" intent of part i: only the last part asks for one, and only when a report is required. */
  function DeliveryIntent(i: int, messageCount: int, requireDeliveryReport: bool, messageUri: RequestId, subId: int)
    : Option<StatusIntent>
  {
    if requireDeliveryReport && i == messageCount - 1
    then Some(StatusIntent(MessageDelivered, messageUri, PartId(i, messageCount), subId))
    else None
  }

  predicate SentIntentsFor(sent: seq<StatusIntent>, messageCount: nat, messageUri: RequestId, subId: int) {
    |sent| == messageCount &&
    forall i :: 0 <= i < messageCount ==> sent[i] == SentIntent(i, messageCount, messageUri, subId)
  }

  predicate DeliveryIntentsFor(delivery: seq<Option<StatusIntent>>, messageCount: nat, requireDeliveryReport: bool,
                               messageUri: RequestId, subId: int)
  {
    |delivery| == messageCount &&
    forall i :: 0 <= i < messageCount ==>
      delivery[i] == DeliveryIntent(i, messageCount, requireDeliveryReport, messageUri, subId)
  }

  /**
   * What the intent lists tell the status receiver: every intent names the
   * request and subscription, part ids tell the parts apart, 0 is used exactly
   * for a single-part message, and at most the last part asks for delivery.
   */
  lemma StatusIntentsIdentifyParts(sent: seq<StatusIntent>, delivery: seq<Option<StatusIntent>>, messageCount: nat,
                                   requireDeliveryReport: bool, messageUri: RequestId, subId: int)
    requires SentIntentsFor(sent, messageCount, messageUri, subId)
    requires DeliveryIntentsFor(delivery, messageCount, requireDeliveryReport, messageUri, subId)
    ensures forall i :: 0 <= i < messageCount ==>
              sent[i].action == MessageSent && sent[i].requestId == messageUri && sent[i].subId == subId
    ensures forall i, j :: 0 <= i < j < messageCount ==> sent[i].partId != sent[j].partId
    ensures forall i :: 0 <= i < messageCount ==> (sent[i].partId == 0 <==> messageCount == 1)
    ensures forall i :: 0 <= i < messageCount ==>
              (delivery[i].Some? <==> requireDeliveryReport && i == messageCount - 1)
    ensures forall i :: 0 <= i < messageCount && delivery[i].Some? ==>
              delivery[i].value.action == MessageDelivered && delivery[i].value.partId == sent[i].partId
  {
  }

  /** The sent and delivery intents that sendInternal builds, one of each per part. */
  method BuildStatusIntents(messageCount: nat, requireDeliveryReport: bool, messageUri: RequestId, subId: int)
    returns (sentIntents: seq<StatusIntent>, deliveryIntents: seq<Option<StatusIntent>>)
    ensures SentIntentsFor(sentIntents, messageCount, messageUri, subId)
    ensures DeliveryIntentsFor(deliveryIntents, messageCount, requireDeliveryReport, messageUri, subId)
  {
    sentIntents, deliveryIntents := [], [];
    var i := 0;
    while i < messageCount
      invariant 0 <= i <= messageCount
      invariant |sentIntents| == i && |deliveryIntents| == i
      invariant forall k :: 0 <= k < i ==> sentIntents[k] == SentIntent(k, messageCount, messageUri, subId)
      invariant forall k :: 0 <= k < i ==>
                  deliveryIntents[k] == DeliveryIntent(k, messageCount, requireDeliveryReport, messageUri, subId)
    {
      var partId := if messageCount <= 1 then 0 else i + 1;
      if requireDeliveryReport && i == messageCount - 1 {
        deliveryIntents := deliveryIntents + [Some(StatusIntent(MessageDelivered, messageUri, partId, subId))];
      } else {
        deliveryIntents := deliveryIntents + [None];
      }
      sentIntents := sentIntents + [StatusIntent(MessageSent, messageUri, partId, subId)];
      i := i + 1;
    }
  }

  /** The first n parts as one text message each, each with its own status intents. */
  predicate SeparateMessages(calls: seq<Transmission>, n: nat, dest: string, serviceCenter: Option<string>,
                             messages: seq<string>, requireDeliveryReport: bool, messageUri: RequestId, subId: int)
  {
    n <= |messages| && |calls| == n &&
    forall i :: 0 <= i < n ==>
      calls[i] == TextMessage(dest, serviceCenter, messages[i],
                              SentIntent(i, |messages|, messageUri, subId),
                              DeliveryIntent(i, |messages|, requireDeliveryReport, messageUri, subId))
  }

  /** A single multipart call carrying all parts and their intent lists. */
  predicate OneMultipartMessage(calls: seq<Transmission>, dest: string, serviceCenter: Option<string>,
                                messages: seq<string>, requireDeliveryReport: bool, messageUri: RequestId, subId: int)
  {
    |calls| == 1 && calls[0].MultipartTextMessage? &&
    calls[0].dest == dest && calls[0].serviceCenter == serviceCenter && calls[0].parts == messages &&
    SentIntentsFor(calls[0].sentList, |messages|, messageUri, subId) &&
    DeliveryIntentsFor(calls[0].deliveryList, |messages|, requireDeliveryReport, messageUri, subId)
  }

  /** The message text of the IllegalArgumentException that signals a fixed-dialing rejection. */
  const INVALID_FDN_MESSAGE := "Invalid FDN destinationAddress"

  /** INVALID_FDN_MESSAGE in lower case. */
  const INVALID_FDN_MESSAGE_LOWER := "invalid fdn destinationaddress"

  /** Whether an exception message is the FDN rejection, ignoring case. */
  predicate IsFdnRejection(message: Option<string>) {
    message.Some? && ToLower(message.value) == INVALID_FDN_MESSAGE_LOWER
  }

  lemma IsFdnRejectionIgnoresCase(message: Option<string>)
    ensures IsFdnRejection(message) <==> EqualsIgnoreCase(INVALID_FDN_MESSAGE, message)
    ensures IsFdnRejection(Some(INVALID_FDN_MESSAGE)) && IsFdnRejection(Some(INVALID_FDN_MESSAGE_LOWER))
  {
    assert ToLower(INVALID_FDN_MESSAGE) == INVALID_FDN_MESSAGE_LOWER;
  }

  /** Whether an exception from SmsManager makes sendInternal fail (the rest are swallowed). */
  predicate IsFatal(e: SendException) {
    e.OtherException? || IsFdnRejection(e.message)
  }

  /** An exception thrown by the SmsManager send call with index `call`, counting from 0. */
  datatype Rejection = Rejection(call: nat, exception: SendException)

  /** The number of SmsManager send calls: one per part, or a single multipart call. */
  function CallCount(separate: bool, messages: seq<string>): nat {
    if separate then |messages| else 1
  }

  /** The separate-messages flag in force: the cached value, or else the configuration's. */
  function SeparateFlag(cached: Option<bool>, cfg: MmsConfig): bool {
    if cached.Some? then cached.value else cfg.sendMultipartSmsAsSeparateMessages
  }

  /** Whether the throwing call is among the `count` calls made. */
  predicate Reached(rejection: Option<Rejection>, count: nat) {
    rejection.Some? && rejection.value.call < count
  }

  /** The number of send calls that return normally: those before the throwing one, or all. */
  function CallsCompleted(rejection: Option<Rejection>, count: nat): nat {
    if Reached(rejection, count) then rejection.value.call else count
  }

  /** Whether sendInternal fails: a send call throws an exception that is not swallowed. */
  predicate SendFails(rejection: Option<Rejection>, count: nat) {
    Reached(rejection, count) && IsFatal(rejection.value.exception)
  }

  /** ASCII approximation of String.equalsIgnoreCase against a non-null string. */
  predicate EqualsIgnoreCase(a: string, b: Option<string>) {
    b.Some? && ToLower(a) == ToLower(b.value)
  }

  /**
   * The try block of sendInternal: hands the parts to SmsManager, one text
   * message per part or one multipart call, until a call throws. Returns the
   * calls that returned normally and the exception that escaped, if any.
   */
  method HandToSmsManager(separate: bool, subId: int, dest: string, messages: seq<string>,
                          serviceCenter: Option<string>, requireDeliveryReport: bool, messageUri: RequestId,
                          rejection: Option<Rejection>)
    returns (calls: seq<Transmission>, thrown: Option<SendException>)
    ensures thrown.Some? <==> Reached(rejection, CallCount(separate, messages))
    ensures thrown.Some? ==> thrown.value == rejection.value.exception
    // separate sends stop at the throwing part: the later parts are never handed over
    ensures separate ==>
              SeparateMessages(calls, CallsCompleted(rejection, |messages|), dest, serviceCenter, messages,
                               requireDeliveryReport, messageUri, subId)
    ensures !separate ==>
              if thrown.Some? then calls == []
              else OneMultipartMessage(calls, dest, serviceCenter, messages, requireDeliveryReport, messageUri, subId)
  {
    var messageCount := |messages|;
    var sentIntents, deliveryIntents := BuildStatusIntents(messageCount, requireDeliveryReport, messageUri, subId);
    calls, thrown := [], None;
    if separate {
      var i := 0;
      while i < messageCount && thrown.None?
        invariant 0 <= i <= messageCount && |calls| == i
        invariant forall k :: 0 <= k < i ==>
                    calls[k] == TextMessage(dest, serviceCenter, messages[k], sentIntents[k], deliveryIntents[k])
        invariant thrown.None? ==> !Reached(rejection, i)
        invariant thrown.Some? ==>
                    i < messageCount && rejection.Some? && rejection.value.call == i
                    && thrown.value == rejection.value.exception
        decreases messageCount - i, thrown.None?
      {
        if rejection.Some? && rejection.value.call == i {
          thrown := Some(rejection.value.exception);
        } else {
          calls := calls + [TextMessage(dest, serviceCenter, messages[i], sentIntents[i], deliveryIntents[i])];
          i := i + 1;
        }
      }
    } else if rejection.Some? && rejection.value.call == 0 {
      thrown := Some(rejection.value.exception);
    } else {
      calls := [MultipartTextMessage(dest, serviceCenter, messages, sentIntents, deliveryIntents)];
    }
  }

  /**
   * The sender's static state: the table of requests waiting for their parts'
   * status, and the lazily cached "send multipart SMS as separate messages" flag.
   */
  class SmsSender {
    var pendingMessages: map<RequestId, SendResult>
    var sendMultipartSmsAsSeparateMessages: Option<bool>

    /** No SendResult is shared by two requests. */
    ghost predicate Valid()
      reads this`pendingMessages
    {
      forall a, b :: a in pendingMessages && b in pendingMessages && a != b ==>
        pendingMessages[a] != pendingMessages[b]
    }

    /** The tallies of the waiting requests. */
    ghost function Tallies(): (m: map<RequestId, PartTally>)
      reads this`pendingMessages, pendingMessages.Values
      ensures m.Keys == pendingMessages.Keys
    {
      map k | k in pendingMessages :: pendingMessages[k].Tally()
    }

    constructor ()
      ensures Valid()
      ensures pendingMessages == map[] && sendMultipartSmsAsSeparateMessages == None
    {
      pendingMessages := map[];
      sendMultipartSmsAsSeparateMessages := None;
    }

    /**
     * The completion handler: records one part's status on the request it
     * belongs to, if that request is still waiting, and says what to show.
     */
    method SetResult(c: Completion, tel: Telephony) returns (notice: Notice)
      requires Valid()
      modifies pendingMessages.Values
      // an absent or unknown request id changes nothing; a known one records
      // exactly one result, on that request only
      ensures Tallies() == Record(old(Tallies()), c)
      ensures c.resultCode != RESULT_OK ==>
                notice == if c.errorCode != NO_ERROR_CODE then SendErrorToast(c.subId, c.errorCode) else NoNotice
      ensures c.resultCode == RESULT_OK ==>
                (notice == SentSuccessfullyToast <==>
                   tel.isSmsSendReportEnabled(c.subId) && c.requestId.Some? && c.requestId.value in pendingMessages
                   && !pendingMessages[c.requestId.value].HasPending())
      ensures notice == NoNotice || notice == SentSuccessfullyToast || notice == SendErrorToast(c.subId, c.errorCode)
    {
      var result: SendResult? := null;
      if c.requestId.Some? {
        if c.requestId.value in pendingMessages {
          result := pendingMessages[c.requestId.value];
          result.SetPartResult(c.resultCode);
          // result.notifyAll() when nothing is pending: wakes the waiting sender
        }
        // otherwise the result is ignored (logged)
      }
      if c.resultCode != RESULT_OK {
        if c.errorCode != NO_ERROR_CODE {
          notice := SendErrorToast(c.subId, c.errorCode);
        } else {
          // RESULT_ERROR_FDN_CHECK_FAILURE and the rest are only logged
          notice := NoNotice;
        }
      } else {
        if tel.isSmsSendReportEnabled(c.subId) && result != null && !result.HasPending() {
          notice := SentSuccessfullyToast;
        } else {
          notice := NoNotice;
        }
      }
    }

    /**
     * The status callbacks that the telephony layer runs, in order, while the
     * sender waits. Each request's tally advances by its own results only.
     */
    method Deliver(cs: seq<Completion>, tel: Telephony)
      requires Valid()
      modifies pendingMessages.Values
      ensures Tallies() == ReplayAll(old(Tallies()), cs)
    {
      ghost var start := Tallies();
      assert cs[..0] == [];
      var j := 0;
      while j < |cs|
        invariant 0 <= j <= |cs|
        invariant Tallies() == ReplayAll(start, cs[..j])
      {
        DeliverNext(cs, j, start, tel);
        j := j + 1;
      }
      assert cs[..|cs|] == cs;
    }

    /** The callback for status j of `cs`, once the earlier ones have run. */
    method DeliverNext(cs: seq<Completion>, j: nat, ghost start: map<RequestId, PartTally>, tel: Telephony)
      requires Valid() && j < |cs|
      requires Tallies() == ReplayAll(start, cs[..j])
      modifies pendingMessages.Values
      ensures Tallies() == ReplayAll(start, cs[..j + 1])
    {
      assert ReplayAll(start, cs[..j + 1]) == Record(ReplayAll(start, cs[..j]), cs[j]) by {
        ReplayAllSnoc(start, cs[..j], cs[j]);
        assert cs[..j] + [cs[j]] == cs[..j + 1];
      }
      var _ := SetResult(cs[j], tel);
    }

    /**
     * sendInternal: builds the status intents and hands the parts to
     * SmsManager, either one text message per part or one multipart call.
     * `rejection` is the exception one of those calls throws, if any; `sent`
     * holds the calls that returned normally and `failure` the error that
     * escapes.
     */
    method SendInternal(cfg: MmsConfig, subId: int, dest: string, messages: seq<string>,
                        serviceCenter: Option<string>, requireDeliveryReport: bool,
                        messageUri: RequestId, rejection: Option<Rejection>)
      returns (sent: seq<Transmission>, failure: Option<SmsError>)
      modifies this`sendMultipartSmsAsSeparateMessages
      // the configuration flag is read once and then kept
      ensures sendMultipartSmsAsSeparateMessages == Some(SeparateFlag(old(sendMultipartSmsAsSeparateMessages), cfg))
      // only an FDN rejection or a non-argument exception fails the send
      ensures failure.Some? <==> SendFails(rejection, CallCount(sendMultipartSmsAsSeparateMessages.value, messages))
      ensures failure.Some? ==>
                failure.value == if rejection.value.exception.OtherException? then SendingFailed else InvalidFdnDestination
      // the parts handed over before a throw stay handed over, fatal or not
      ensures sendMultipartSmsAsSeparateMessages == Some(true) ==>
                SeparateMessages(sent, CallsCompleted(rejection, |messages|), dest, serviceCenter, messages,
                                 requireDeliveryReport, messageUri, subId)
      ensures sendMultipartSmsAsSeparateMessages == Some(false) ==>
                if Reached(rejection, 1) then sent == []
                else OneMultipartMessage(sent, dest, serviceCenter, messages, requireDeliveryReport, messageUri, subId)
    {
      if sendMultipartSmsAsSeparateMessages.None? {
        sendMultipartSmsAsSeparateMessages := Some(cfg.sendMultipartSmsAsSeparateMessages);
      }
      var thrown;
      sent, thrown := HandToSmsManager(sendMultipartSmsAsSeparateMessages.value, subId, dest, messages,
                                       serviceCenter, requireDeliveryReport, messageUri, rejection);
      match thrown {
        case None => failure := None;
        case Some(IllegalArgument(msg)) =>
          if IsFdnRejection(msg) {
            failure := Some(InvalidFdnDestination);
          } else {
            failure := None;  // any other IllegalArgumentException is swallowed
          }
        case Some(OtherException) => failure := Some(SendingFailed);
      }
    }

    /** One return from the wait: the callbacks of wake-up w have run. */
    method WaitOnce(wakes: seq<Wakeup>, w: nat, ghost start: map<RequestId, PartTally>, tel: Telephony)
      requires Valid() && w < |wakes|
      requires Tallies() == ReplayAll(start, Arrived(wakes[..w]))
      modifies pendingMessages.Values
      ensures Tallies() == ReplayAll(start, Arrived(wakes[..w + 1]))
    {
      Deliver(wakes[w].arrived, tel);
      ReplayAllAppend(start, Arrived(wakes[..w]), wakes[w].arrived);
      assert wakes[..w + 1][..w] == wakes[..w];
    }

    /**
     * One wake-up of a wait that was entered with a part of `pendingResult`
     * pending and before the deadline: the callbacks are recorded, and the
     * facts about the earlier wake-ups extend to this one.
     */
    method WaitWhilePending(pendingResult: SendResult, messageUri: RequestId, wakes: seq<Wakeup>, w: nat,
                            ghost start: map<RequestId, PartTally>, tel: Telephony, beginTime: int, timeout: int)
      requires Valid() && w < |wakes| && messageUri in start
      requires messageUri in pendingMessages && pendingMessages[messageUri] == pendingResult && pendingResult.HasPending()
      requires w > 0 ==> wakes[w - 1].now - beginTime < timeout
      requires Tallies() == ReplayAll(start, Arrived(wakes[..w]))
      requires WokeEarly(wakes, beginTime, timeout, w) && PendingBefore(start[messageUri], messageUri, wakes, w)
      modifies pendingMessages.Values
      ensures Tallies() == ReplayAll(start, Arrived(wakes[..w + 1]))
      ensures WokeEarly(wakes, beginTime, timeout, w + 1) && PendingBefore(start[messageUri], messageUri, wakes, w + 1)
    {
      assert TallyAfter(start[messageUri], messageUri, wakes, w) == pendingResult.Tally();
      WakeupStep(start[messageUri], messageUri, wakes, beginTime, timeout, w);
      WaitOnce(wakes, w, start, tel);
    }

    /** Registers a fresh SendResult of n parts under `id`. */
    method Register(id: RequestId, n: int) returns (result: SendResult)
      requires Valid() && n > 0
      modifies this`pendingMessages
      ensures Valid() && fresh(result)
      ensures pendingMessages == old(pendingMessages)[id := result]
      ensures Tallies() == old(Tallies())[id := InitialTally(n)]
    {
      result := new SendResult(n);
      pendingMessages := pendingMessages[id := result];
    }

    /** Removes the registration under `id`. */
    method Unregister(id: RequestId)
      requires Valid()
      modifies this`pendingMessages
      ensures Valid()
      ensures pendingMessages == old(pendingMessages) - {id}
      ensures Tallies() == old(Tallies()) - {id}
    {
      pendingMessages := pendingMessages - {id};
    }

    /**
     * The wait in sendMessage: until no part of `pendingResult` is pending
     * or the timeout has elapsed. `wakes` are the successive returns from
     * the wait, with the callbacks delivered before each and the clock read
     * after each; the clock reaches the deadline by the last of them.
     */
    method AwaitParts(pendingResult: SendResult, messageUri: RequestId, tel: Telephony,
                      timeout: int, beginTime: int, wakes: seq<Wakeup>)
      returns (consumed: nat)
      requires Valid()
      requires messageUri in pendingMessages && pendingMessages[messageUri] == pendingResult
      requires timeout > 0 ==> |wakes| > 0 && wakes[|wakes| - 1].now - beginTime >= timeout
      modifies pendingMessages.Values
      ensures consumed <= |wakes|
      // every request has recorded exactly its own statuses among those delivered
      ensures Tallies() == ReplayAll(old(Tallies()), Arrived(wakes[..consumed]))
      // the wait ended because nothing is pending or because the time is up ...
      ensures !pendingResult.HasPending() || timeout <= 0 || (consumed > 0 && wakes[consumed - 1].now - beginTime >= timeout)
      // ... and not earlier: before each wake-up the time was not up and a part was pending
      ensures forall w :: 0 <= w < consumed - 1 ==> wakes[w].now - beginTime < timeout
      ensures forall w :: 0 <= w < consumed ==>
                TallyAfter(old(pendingResult.Tally()), messageUri, wakes, w).pending > 0
    {
      ghost var start := Tallies();
      consumed := 0;
      var waitTime := timeout;
      assert Arrived(wakes[..0]) == [];
      while pendingResult.HasPending() && waitTime > 0
        invariant 0 <= consumed <= |wakes|
        invariant TimeLeft(wakes, beginTime, timeout, consumed, waitTime)
        invariant WokeEarly(wakes, beginTime, timeout, consumed)
        invariant Tallies() == ReplayAll(start, Arrived(wakes[..consumed]))
        invariant PendingBefore(start[messageUri], messageUri, wakes, consumed)
        decreases |wakes| - consumed
      {
        // pendingResult.wait(waitTime): meanwhile the callbacks of this wake-up run
        WaitWhilePending(pendingResult, messageUri, wakes, consumed, start, tel, beginTime, timeout);
        waitTime := timeout - (wakes[consumed].now - beginTime);
        consumed := consumed + 1;
      }
    }

    /**
     * The end of sendMessage once the parts are handed over: waits for the
     * request's parts, then removes its registration, whatever the outcome.
     */
    method WaitAndRemove(pendingResult: SendResult, messageUri: RequestId, tel: Telephony,
                         timeout: int, beginTime: int, wakes: seq<Wakeup>)
      returns (consumed: nat)
      requires Valid()
      requires messageUri in pendingMessages && pendingMessages[messageUri] == pendingResult
      requires timeout > 0 ==> |wakes| > 0 && wakes[|wakes| - 1].now - beginTime >= timeout
      modifies this`pendingMessages, pendingMessages.Values
      ensures Valid() && consumed <= |wakes|
      ensures pendingMessages == old(pendingMessages) - {messageUri}
      ensures pendingResult.Tally() == Replay(old(pendingResult.Tally()), CodesFor(messageUri, Arrived(wakes[..consumed])))
      ensures !pendingResult.HasPending() || timeout <= 0 || (consumed > 0 && wakes[consumed - 1].now - beginTime >= timeout)
      ensures Tallies() == ReplayAll(old(Tallies()) - {messageUri}, Arrived(wakes[..consumed]))
    {
      ghost var start := Tallies();
      consumed := AwaitParts(pendingResult, messageUri, tel, timeout, beginTime, wakes);
      ghost var arrived := Arrived(wakes[..consumed]);
      ghost var waited := Tallies();
      assert pendingResult.Tally() == Replay(start[messageUri], CodesFor(messageUri, arrived)) by {
        assert waited[messageUri] == pendingResult.Tally();
      }
      assert waited - {messageUri} == ReplayAll(start - {messageUri}, arrived);
      // either timed out or all results are in
      Unregister(messageUri);
    }

    /**
     * The second half of sendMessage, once the destination and the parts are
     * known: registers a SendResult under messageUri, sends, waits until no
     * part is pending or the timeout has elapsed, and removes the
     * registration again.
     */
    method Dispatch(out: Outgoing, cfg: MmsConfig, tel: Telephony, subId: int, serviceCenter: Option<string>,
                    requireDeliveryReport: bool, messageUri: RequestId, rejection: Option<Rejection>,
                    timeout: int, beginTime: int, wakes: seq<Wakeup>)
      returns (r: Result<SendResult, SmsError>, consumed: nat)
      requires Valid() && |out.parts| > 0
      requires timeout > 0 ==> |wakes| > 0 && wakes[|wakes| - 1].now - beginTime >= timeout
      modifies this`pendingMessages, this`sendMultipartSmsAsSeparateMessages, pendingMessages.Values
      ensures Valid()
      ensures r.Err? <==>
                SendFails(rejection, CallCount(SeparateFlag(old(sendMultipartSmsAsSeparateMessages), cfg), out.parts))
      // an FDN rejection surfaces as such; any other fatal exception as a failed send
      ensures r.Err? ==>
                r.error == if rejection.value.exception.OtherException? then SendingFailed else InvalidFdnDestination
      // a send that throws leaves its fresh SendResult registered
      ensures r.Err? ==>
                messageUri in pendingMessages && fresh(pendingMessages[messageUri])
                && pendingMessages == old(pendingMessages)[messageUri := pendingMessages[messageUri]]
                && Tallies() == old(Tallies())[messageUri := InitialTally(|out.parts|)]
      // a completed wait: the registration is gone, whatever the outcome
      ensures r.Ok? ==> fresh(r.value) && pendingMessages == old(pendingMessages) - {messageUri} && consumed <= |wakes|
      // the result holds exactly this request's reported statuses
      ensures r.Ok? ==> r.value.Tally() == Replay(InitialTally(|out.parts|), CodesFor(messageUri, Arrived(wakes[..consumed])))
      // the wait ended because nothing is pending or because the time is up
      ensures r.Ok? ==>
                !r.value.HasPending() || timeout <= 0 || (consumed > 0 && wakes[consumed - 1].now - beginTime >= timeout)
      // other requests see only their own statuses
      ensures r.Ok? ==> Tallies() == ReplayAll(old(Tallies()) - {messageUri}, Arrived(wakes[..consumed]))
    {
      ghost var before := Tallies();
      var pendingResult := Register(messageUri, |out.parts|);
      ghost var registered := pendingMessages;
      ghost var registeredTallies := Tallies();
      var _, failure := SendInternal(cfg, subId, out.dest, out.parts, serviceCenter,
                                     requireDeliveryReport, messageUri, rejection);
      assert pendingMessages == registered && Tallies() == registeredTallies;
      if failure.Some? {
        return Err(failure.value), 0;
      }
      consumed := WaitAndRemove(pendingResult, messageUri, tel, timeout, beginTime, wakes);
      RemoveUpdated(before, messageUri, InitialTally(|out.parts|));
      RemoveUpdated(old(pendingMessages), messageUri, pendingResult);
      r := Ok(pendingResult);
    }

    /**
     * sendMessage: resolves the destination and the parts, then dispatches
     * them; returns the SendResult, together with the number of wake-ups the
     * wait used.
     */
    method SendMessage(cfg: MmsConfig, tel: Telephony, subId: int, dest: string, message: string,
                       serviceCenter: Option<string>, requireDeliveryReport: bool, messageUri: RequestId,
                       rejection: Option<Rejection>, timeout: int, beginTime: int, wakes: seq<Wakeup>)
      returns (r: Result<SendResult, SmsError>, consumed: nat)
      requires Valid()
      requires timeout > 0 ==> |wakes| > 0 && wakes[|wakes| - 1].now - beginTime >= timeout
      modifies this`pendingMessages, this`sendMultipartSmsAsSeparateMessages, pendingMessages.Values
      ensures Valid()
      // failures found before sending: nothing is registered and nothing changes
      ensures Resolve(cfg, tel, subId, dest, message).Err? ==>
                r == Err(Resolve(cfg, tel, subId, dest, message).error)
                && pendingMessages == old(pendingMessages) && Tallies() == old(Tallies())
                && sendMultipartSmsAsSeparateMessages == old(sendMultipartSmsAsSeparateMessages)
      ensures r.Ok? <==>
                Resolve(cfg, tel, subId, dest, message).Ok?
                && !SendFails(rejection, CallCount(SeparateFlag(old(sendMultipartSmsAsSeparateMessages), cfg),
                                                   Resolve(cfg, tel, subId, dest, message).value.parts))
      // a failed send: which error, and the fresh registration is left in the map
      ensures Resolve(cfg, tel, subId, dest, message).Ok? && r.Err? ==>
                r.error == (if rejection.value.exception.OtherException? then SendingFailed else InvalidFdnDestination)
                && messageUri in pendingMessages
                && Tallies() == old(Tallies())[messageUri := InitialTally(|Resolve(cfg, tel, subId, dest, message).value.parts|)]
      // after a completed wait the result holds exactly this request's statuses
      ensures r.Ok? ==> consumed <= |wakes|
      ensures r.Ok? ==>
                r.value.Tally() == Replay(InitialTally(|Resolve(cfg, tel, subId, dest, message).value.parts|),
                                          CodesFor(messageUri, Arrived(wakes[..consumed])))
                && pendingMessages == old(pendingMessages) - {messageUri}
      // the wait ended because nothing is pending or because the time is up
      ensures r.Ok? ==>
                !r.value.HasPending() || timeout <= 0 || (consumed > 0 && wakes[consumed - 1].now - beginTime >= timeout)
      // the result is the freshly registered object, and other requests see only their own statuses
      ensures r.Ok? ==> fresh(r.value) && Tallies() == ReplayAll(old(Tallies()) - {messageUri}, Arrived(wakes[..consumed]))
      // a failed send leaves just the fresh registration added to the map
      ensures Resolve(cfg, tel, subId, dest, message).Ok? && r.Err? ==>
                messageUri in pendingMessages && fresh(pendingMessages[messageUri])
                && pendingMessages == old(pendingMessages)[messageUri := pendingMessages[messageUri]]
    {
      var resolved := Resolve(cfg, tel, subId, dest, message);
      if resolved.Err? {
        return Err(resolved.error), 0;
      }
      r, consumed := Dispatch(resolved.value, cfg, tel, subId, serviceCenter, requireDeliveryReport,
                              messageUri, rejection, timeout, beginTime, wakes);
    }
  }

  // ---------------------------------------------------------------------------
  // Splitting text for 16-bit (UCS-2) encoding

  /** The code units per part: half the user-data octets, less the header when more than one part is needed. */
  function ChunkLength(textLength: nat): nat {
    if textLength * 2 > MAX_USER_DATA_BYTES then MAX_USER_DATA_BYTES_WITH_HEADER / 2 else MAX_USER_DATA_BYTES / 2
  }

  /** `s` cut into consecutive pieces of n code units, the last one possibly shorter. */
  function Chunks<T>(s: seq<T>, n: nat): seq<seq<T>>
    requires n > 0
    decreases |s|
  {
    if s == [] then [] else if |s| <= n then [s] else [s[..n]] + Chunks(s[n..], n)
  }

  function Concat<T>(ss: seq<seq<T>>): seq<T> {
    if ss == [] then [] else ss[0] + Concat(ss[1..])
  }

  /** Gluing the chunks back together gives the text. */
  lemma {:induction false} ChunksConcat<T>(s: seq<T>, n: nat)
    requires n > 0
    ensures Concat(Chunks(s, n)) == s
    decreases |s|
  {
    if |s| > n {
      ChunksConcat(s[n..], n);
      assert s[..n] + s[n..] == s;
    }
  }

  /** Every chunk is non-empty and at most n code units long. */
  lemma {:induction false} ChunksBounded<T>(s: seq<T>, n: nat)
    requires n > 0
    ensures forall i :: 0 <= i < |Chunks(s, n)| ==> 0 < |Chunks(s, n)[i]| <= n
    decreases |s|
  {
    if |s| > n {
      ChunksBounded(s[n..], n);
    }
  }

  /** There are ceil(|s| / n) chunks. */
  lemma {:induction false} ChunksCount<T>(s: seq<T>, n: nat)
    requires n > 0
    ensures |Chunks(s, n)| == (|s| + n - 1) / n
    decreases |s|
  {
    if s == [] {
      DivUnique(n - 1, n, 0, n - 1);
    } else if |s| <= n {
      DivUnique(|s| + n - 1, n, 1, |s| - 1);
    } else {
      ChunksCount(s[n..], n);
      var x := |s[n..]| + n - 1;
      assert x == (x / n) * n + x % n;
      assert x + n == (x / n + 1) * n + x % n;
      DivUnique(x + n, n, x / n + 1, x % n);
    }
  }

  /** Quotients are unique: the quotient of q * n + r by n is q whenever 0 <= r < n. */
  lemma DivUnique(x: int, n: int, q: int, r: int)
    requires n > 0 && 0 <= r < n && x == q * n + r
    ensures x / n == q
  {
    var q', r' := x / n, x % n;
    assert x == q' * n + r';
    assert (q' - q) * n == q' * n - q * n;
    if q' > q {
      MulAtLeast(q' - q, n);
    } else if q' < q {
      MulAtLeast(q - q', n);
    }
  }

  lemma MulAtLeast(d: int, n: int)
    requires d >= 1 && n > 0
    ensures d * n >= n
  {
  }

  /**
   * divideMessageFor16Bit: the text, as UTF-16 code units, in pieces of at
   * most 70 units, or of at most 67 when it does not fit in one message. A
   * character outside the Basic Multilingual Plane counts twice, and a cut
   * may fall between the two halves of its surrogate pair.
   */
  method DivideMessageFor16Bit(text: JavaString) returns (result: seq<JavaString>)
    ensures result == Chunks(text, ChunkLength(|text|))
  {
    var msgCount: int;
    var limit: int;
    var count := |text| * 2;
    if count > MAX_USER_DATA_BYTES {
      msgCount := (count + (MAX_USER_DATA_BYTES_WITH_HEADER - 1)) / MAX_USER_DATA_BYTES_WITH_HEADER;
    } else {
      msgCount := 1;
    }
    if msgCount > 1 {
      limit := MAX_USER_DATA_BYTES_WITH_HEADER;
    } else {
      limit := MAX_USER_DATA_BYTES;
    }
    ghost var n := ChunkLength(|text|);
    assert limit / 2 == n;
    result := [];
    var pos := 0;
    var textLen := |text|;
    while pos < textLen
      invariant 0 <= pos <= textLen
      invariant result + Chunks(text[pos..], n) == Chunks(text, n)
    {
      var nextPos := pos + if limit / 2 < textLen - pos then limit / 2 else textLen - pos;
      // the source's "fragmentText failed" exit is unreachable: every piece is non-empty
      assert pos < nextPos <= textLen;
      ghost var rest := text[pos..];
      if |rest| <= n {
        assert text[pos..nextPos] == rest && text[nextPos..] == [];
      } else {
        assert Chunks(rest, n) == [rest[..n]] + Chunks(rest[n..], n);
        assert rest[..n] == text[pos..nextPos] && rest[n..] == text[nextPos..];
      }
      result := result + [text[pos..nextPos]];
      pos := nextPos;
    }
  }

  /** Properties of the 16-bit split: a lossless, bounded, exactly counted cut. */
  lemma DivideMessageFor16BitProperties(text: JavaString)
    ensures Concat(Chunks(text, ChunkLength(|text|))) == text
    ensures forall i :: 0 <= i < |Chunks(text, ChunkLength(|text|))| ==>
              0 < |Chunks(text, ChunkLength(|text|))[i]| <= ChunkLength(|text|)
    ensures text == [] ==> Chunks(text, ChunkLength(|text|)) == []
    // the number of parts is the msgCount the source precomputes
    ensures |Chunks(text, ChunkLength(|text|))| ==
              if |text| * 2 > MAX_USER_DATA_BYTES
              then (|text| * 2 + MAX_USER_DATA_BYTES_WITH_HEADER - 1) / MAX_USER_DATA_BYTES_WITH_HEADER
              else if text == [] then 0 else 1
  {
    var n := ChunkLength(|text|);
    ChunksConcat(text, n);
    ChunksBounded(text, n);
    ChunksCount(text, n);
    if |text| * 2 > MAX_USER_DATA_BYTES {
      var m := |text|;
      assert (m + 66) / 67 == (2 * m + 133) / 134 by {
        var q := (m + 66) / 67;
        assert 67 * q <= m + 66 < 67 * q + 67;
        assert 134 * q <= 2 * m + 132 < 134 * q + 134;
        assert 134 * q <= 2 * m + 133;
        assert 2 * m + 133 < 134 * q + 134 by {
          assert 2 * m + 132 < 134 * q + 134;
          assert (2 * m + 132) % 2 == 0;
        }
      }
    }
  }
}
