/**
 * The respond-via-message service: an intent asking to send a text without
 * the user confirming it. The service checks the request, then either does
 * nothing, shows a toast about too many recipients, opens the conversation
 * list, or inserts the message and refreshes the notifications.
 *
 * The effects the handler has are returned in order instead of performed.
 * The per-subscription configuration and the recipient list encoded in the
 * intent's URI are parameters.
 */
module NoConfirmation {
  import opened JavaLang

  const ACTION_RESPOND_VIA_MESSAGE := "android.intent.action.RESPOND_VIA_MESSAGE"

  /** ParticipantData's subscription id for "the default SIM". */
  const DEFAULT_SELF_SUB_ID := -1

  const RECIPIENT_SEPARATOR := ','

  /** The two text extras the handler reads, EXTRA_TEXT and EXTRA_SUBJECT. */
  datatype TextType = ExtraText | ExtraSubject

  /** The intent's extras bundle; an absent key is None. */
  datatype Extras = Extras(
    conversationId: Option<string>,
    selfId: Option<string>,
    requiresMms: Option<bool>,
    text: Option<string>,
    subject: Option<string>,
    subscription: Option<int>,
    showUI: Option<bool>)

  /** The results a RemoteInput (a reply typed in a notification) attached to the intent. */
  datatype RemoteInputResults = RemoteInputResults(text: Option<string>, subject: Option<string>)

  datatype Intent = Intent(
    action: Option<string>,
    extras: Option<Extras>,
    data: Option<string>,
    remoteInput: Option<RemoteInputResults>)

  /** The MmsConfig values the handler reads for a subscription. */
  datatype ServiceConfig = ServiceConfig(recipientLimit: int, finalSendEmptyMessageFlag: int)

  datatype Draft =
    | SmsDraft(conversationId: string, selfId: Option<string>, message: Option<string>)
    | MmsDraft(conversationId: string, selfId: Option<string>, message: Option<string>, subject: Option<string>)

  datatype Effect =
    | ShowLimitToast(limit: int, excess: int)
    | StartConversationList
    | InsertNewMessage(subId: int, recipients: Option<string>, message: Option<string>, subject: Option<string>)
    | InsertDraft(draft: Draft)
    | UpdateMessageNotification

  function ExtraString(e: Extras, t: TextType): Option<string> {
    match t
    case ExtraText => e.text
    case ExtraSubject => e.subject
  }

  function RemoteString(r: RemoteInputResults, t: TextType): Option<string> {
    match t
    case ExtraText => r.text
    case ExtraSubject => r.subject
  }

  /** `getStringExtra`: None when there are no extras or the key is absent. */
  function StringExtra(intent: Intent, t: TextType): Option<string> {
    if intent.extras.None? then None else ExtraString(intent.extras.value, t)
  }

  /**
   * getText: the string extra of that type; only when it is absent, the
   * RemoteInput result of that type, if there is one.
   */
  function GetText(intent: Intent, t: TextType): (r: Option<string>)
    ensures StringExtra(intent, t).Some? ==> r == StringExtra(intent, t)
    ensures StringExtra(intent, t).None? && intent.remoteInput.Some? ==> r == RemoteString(intent.remoteInput.value, t)
    ensures StringExtra(intent, t).None? && intent.remoteInput.None? ==> r.None?
  {
    var message := StringExtra(intent, t);
    if message.None? && intent.remoteInput.Some? && RemoteString(intent.remoteInput.value, t).Some? then
      RemoteString(intent.remoteInput.value, t)
    else
      message
  }

  function BoolExtra(b: Option<bool>): bool {
    b.Some? && b.value
  }

  /** What the handler takes from an intent it accepts. */
  datatype Request = Request(
    conversationId: Option<string>,
    selfId: Option<string>,
    requiresMms: bool,
    message: Option<string>,
    subject: Option<string>,
    subId: int,
    recipients: Option<string>,
    showUI: bool)

  /**
   * The first two checks: the action must be respond-via-message and there
   * must be extras; then every value the handler uses, with its default.
   */
  function ParseIntent(intent: Intent, smsRecipients: string -> Option<string>): (r: Option<Request>)
    ensures r.Some? <==> intent.action == Some(ACTION_RESPOND_VIA_MESSAGE) && intent.extras.Some?
    ensures r.Some? ==> r.value.recipients == (if intent.data.Some? then smsRecipients(intent.data.value) else None)
    ensures r.Some? ==> r.value.message == GetText(intent, ExtraText) && r.value.subject == GetText(intent, ExtraSubject)
    ensures r.Some? && intent.extras.value.subscription.None? ==> r.value.subId == DEFAULT_SELF_SUB_ID
  {
    if intent.action != Some(ACTION_RESPOND_VIA_MESSAGE) || intent.extras.None? then None
    else
      var e := intent.extras.value;
      Some(Request(
        e.conversationId,
        e.selfId,
        BoolExtra(e.requiresMms),
        GetText(intent, ExtraText),
        GetText(intent, ExtraSubject),
        if e.subscription.Some? then e.subscription.value else DEFAULT_SELF_SUB_ID,
        if intent.data.Some? then smsRecipients(intent.data.value) else None,
        BoolExtra(e.showUI)))
  }

  /** The number of recipients: the pieces `split(",")` yields, none of them null. */
  function RecipientCount(recipients: string): nat {
    |JavaSplit(recipients, RECIPIENT_SEPARATOR)|
  }

  /**
   * The recipient count is at most one more than the number of commas, and
   * exactly that when the list does not end with a comma.
   */
  lemma RecipientCountBounds(recipients: string)
    ensures RecipientCount(recipients) <= Occurrences(recipients, RECIPIENT_SEPARATOR) + 1
    ensures recipients != [] && recipients[|recipients| - 1] != RECIPIENT_SEPARATOR ==>
              RecipientCount(recipients) == Occurrences(recipients, RECIPIENT_SEPARATOR) + 1
  {
    JavaSplitCount(recipients, RECIPIENT_SEPARATOR);
  }

  /** The draft created for an existing conversation: MMS when the request asks for it, SMS otherwise. */
  function DraftFor(req: Request): (d: Draft)
    requires req.conversationId.Some?
    ensures d.MmsDraft? <==> req.requiresMms
    ensures d.conversationId == req.conversationId.value && d.selfId == req.selfId && d.message == req.message
  {
    if req.requiresMms then MmsDraft(req.conversationId.value, req.selfId, req.message, req.subject)
    else SmsDraft(req.conversationId.value, req.selfId, req.message)
  }

  /** The rest of the decision table, once the intent has been accepted. */
  function Decide(req: Request, cfg: ServiceConfig, recipientCount: int): seq<Effect> {
    if IsEmpty(req.recipients) && IsEmpty(req.conversationId) then []
    else if !IsEmpty(req.recipients) && recipientCount > cfg.recipientLimit then
      [ShowLimitToast(cfg.recipientLimit, recipientCount - cfg.recipientLimit)]
    else if req.showUI then [StartConversationList]
    else if cfg.finalSendEmptyMessageFlag < 0 && IsEmpty(req.message) then []
    else if IsEmpty(req.conversationId) then
      [InsertNewMessage(req.subId, req.recipients, req.message, req.subject), UpdateMessageNotification]
    else
      [InsertDraft(DraftFor(req)), UpdateMessageNotification]
  }

  /** onHandleIntent, as a function of the intent and its environment. */
  function HandleIntent(intent: Intent, config: int -> ServiceConfig, smsRecipients: string -> Option<string>): seq<Effect> {
    match ParseIntent(intent, smsRecipients)
    case None => []
    case Some(req) =>
      Decide(req, config(req.subId), if req.recipients.Some? then RecipientCount(req.recipients.value) else 0)
  }

  predicate IsInsert(e: Effect) {
    e.InsertNewMessage? || e.InsertDraft?
  }

  /** Whether the effects insert a message. */
  predicate InsertsMessage(effects: seq<Effect>) {
    exists i :: 0 <= i < |effects| && IsInsert(effects[i])
  }

  /**
   * The requests that get a message inserted: recipients or a conversation
   * is given, the recipients are within the limit, the UI is not asked for,
   * and the message is not empty unless the configuration allows it.
   */
  predicate Sends(req: Request, cfg: ServiceConfig, recipientCount: int) {
    && !(IsEmpty(req.recipients) && IsEmpty(req.conversationId))
    && (IsEmpty(req.recipients) || recipientCount <= cfg.recipientLimit)
    && !req.showUI
    && !(cfg.finalSendEmptyMessageFlag < 0 && IsEmpty(req.message))
  }

  /**
   * The decision table. Each early return has no effect at all; too many
   * recipients only shows the toast; showUI only opens the list. A message is
   * inserted exactly for the requests that pass every check: by recipients
   * when there is no conversation, otherwise as a draft of the requested
   * kind, and always followed by the notification update.
   */
  lemma DecideTable(req: Request, cfg: ServiceConfig, n: int)
    ensures IsEmpty(req.recipients) && IsEmpty(req.conversationId) ==> Decide(req, cfg, n) == []
    ensures !IsEmpty(req.recipients) && n > cfg.recipientLimit ==>
              Decide(req, cfg, n) == [ShowLimitToast(cfg.recipientLimit, n - cfg.recipientLimit)]
    ensures req.showUI && !(IsEmpty(req.recipients) && IsEmpty(req.conversationId)) &&
            (IsEmpty(req.recipients) || n <= cfg.recipientLimit) ==>
              Decide(req, cfg, n) == [StartConversationList]
    ensures req.showUI ==> !InsertsMessage(Decide(req, cfg, n))
    ensures cfg.finalSendEmptyMessageFlag < 0 && IsEmpty(req.message) ==> !InsertsMessage(Decide(req, cfg, n))
    ensures InsertsMessage(Decide(req, cfg, n)) <==> Sends(req, cfg, n)
    ensures Sends(req, cfg, n) ==>
              |Decide(req, cfg, n)| == 2 && Decide(req, cfg, n)[1] == UpdateMessageNotification
    ensures Sends(req, cfg, n) && IsEmpty(req.conversationId) ==>
              Decide(req, cfg, n)[0] == InsertNewMessage(req.subId, req.recipients, req.message, req.subject)
    ensures Sends(req, cfg, n) && !IsEmpty(req.conversationId) ==>
              Decide(req, cfg, n)[0].InsertDraft? && (Decide(req, cfg, n)[0].draft.MmsDraft? <==> req.requiresMms)
  {
    var effects := Decide(req, cfg, n);
    if Sends(req, cfg, n) {
      assert IsInsert(effects[0]);
    } else {
      assert forall i :: 0 <= i < |effects| ==> !IsInsert(effects[i]);
    }
  }

  /** Rejected intents have no effect: a wrong action or missing extras. */
  lemma HandleIntentRejects(intent: Intent, config: int -> ServiceConfig, smsRecipients: string -> Option<string>)
    ensures intent.action != Some(ACTION_RESPOND_VIA_MESSAGE) ==> HandleIntent(intent, config, smsRecipients) == []
    ensures intent.extras.None? ==> HandleIntent(intent, config, smsRecipients) == []
  {
  }

  /**
   * onHandleIntent: reads the request, counts the recipients with a loop
   * over the pieces of the comma split, and applies the decision table.
   */
  method OnHandleIntent(intent: Intent, config: int -> ServiceConfig, smsRecipients: string -> Option<string>)
    returns (effects: seq<Effect>)
    ensures effects == HandleIntent(intent, config, smsRecipients)
    ensures intent.action != Some(ACTION_RESPOND_VIA_MESSAGE) || intent.extras.None? ==> effects == []
  {
    if intent.action != Some(ACTION_RESPOND_VIA_MESSAGE) {
      return [];
    }
    if intent.extras.None? {
      return [];
    }
    var req := ParseIntent(intent, smsRecipients).value;
    var cfg := config(req.subId);
    var recipientCount := 0;
    if req.recipients.Some? {
      var pieces := JavaSplit(req.recipients.value, RECIPIENT_SEPARATOR);
      var c := 0;
      var i := 0;
      while i < |pieces|
        invariant 0 <= i <= |pieces|
        invariant c == i
      {
        c := c + 1;
        i := i + 1;
      }
      recipientCount := c;
    }
    effects := Decide(req, cfg, recipientCount);
  }
}
