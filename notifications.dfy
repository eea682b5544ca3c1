/**
  FirebaseNotificationService: multicast push to a list of users with
  pruning of dead tokens, and the two single-message paths (to a user,
  to a known token). The Firebase SDK is not modelled; what it did is an
  input (a BatchOutcome or a SendOutcome), and what the service handed to
  it is an output.
 */
module Notifications {
  import opened Wrappers
  import opened JavaText
  import opened Users

  /** MessagingErrorCode of the Firebase Admin SDK. */
  datatype ErrorCode =
    | Internal | InvalidArgument | QuotaExceeded | SenderIdMismatch
    | ThirdPartyAuthError | Unavailable | Unregistered

  /** One SendResponse of a batch: delivered with a message id, or failed
      with a FirebaseMessagingException whose error code may be null. */
  datatype SendResponse = Delivered(messageId: string) | Failed(code: Option<ErrorCode>, reason: string)

  /** sendEachForMulticast returned these per-token responses, or building
      or sending the batch threw an exception with this message. */
  datatype BatchOutcome = Responses(responses: seq<SendResponse>) | Thrown(reason: string)

  /** FirebaseMessaging.send returned a message id, or threw a
      FirebaseMessagingException with this message. */
  datatype SendOutcome = Accepted(messageId: string) | Rejected(reason: string)

  datatype Notification = Notification(title: Option<string>, body: Option<string>, image: Option<string>)

  /** The MulticastMessage handed to the gateway; data is None when no
      data was put on the builder. */
  datatype MulticastMessage = MulticastMessage(
    tokens: seq<string>, notification: Notification, data: Option<map<string, string>>)

  /** The single Message handed to the gateway. */
  datatype TokenMessage = TokenMessage(
    token: string, notification: Notification, data: Option<map<string, string>>)

  datatype NotificationResponse = NotificationResponse(success: bool, message: string, messageId: Option<string>)

  /** The fields of MultiUserNotificationRequestDto that the service reads.
      The service passes data to putAllData, so it is a string map here. */
  datatype MultiUserRequest = MultiUserRequest(
    userIds: seq<string>,
    title: Option<string>,
    body: Option<string>,
    imageUrl: Option<string>,
    data: Option<map<string, string>>)

  /** The result of a single-message path: the response and the message
      sent, if one was. */
  datatype SingleSend = SingleSend(response: NotificationResponse, sent: Option<TokenMessage>)

  const NoTokensMessage := "No valid FCM tokens found for provided users"
  const BatchFailurePrefix := "Failed to send notifications: "
  const SendFailurePrefix := "Failed to send notification: "
  const SentMessage := "Notification sent successfully"
  const TokenRequiredMessage := "FCM token is required"
  const NoUserTokenMessage := "User does not have a registered FCM token"

  // ---------------------------------------------------------------------
  // Multicast: which users get a message, which tokens are dead

  /** The multicast loop's test: a token that is non-null and not blank. */
  predicate HasUsableToken(u: User) {
    u.fcmToken.Some? && !IsBlank(u.fcmToken.value)
  }

  /** The tokens put in the batch: those of users with a usable token, in
      user order. */
  function UsableTokens(users: seq<User>): (tokens: seq<string>)
    ensures |tokens| <= |users|
    ensures forall t | t in tokens :: !IsBlank(t)
    ensures forall u | u in users && HasUsableToken(u) :: u.fcmToken.value in tokens
    ensures forall t | t in tokens :: exists u | u in users :: HasUsableToken(u) && u.fcmToken == Some(t)
    ensures |users| == 1 ==> tokens == (if HasUsableToken(users[0]) then [users[0].fcmToken.value] else [])
  {
    if users == [] then []
    else
      var init, last := users[..|users| - 1], users[|users| - 1];
      assert users == init + [last];
      var rest := UsableTokens(init);
      if HasUsableToken(last) then rest + [last.fcmToken.value] else rest
  }

  /** The ids of the users that are skipped, in user order. */
  function SkippedUsers(users: seq<User>): (ids: seq<string>)
    ensures |ids| <= |users|
    ensures forall u | u in users && !HasUsableToken(u) :: u.id in ids
    ensures forall id | id in ids :: exists u | u in users :: !HasUsableToken(u) && u.id == id
    ensures |users| == 1 ==> ids == (if HasUsableToken(users[0]) then [] else [users[0].id])
  {
    if users == [] then []
    else
      var init, last := users[..|users| - 1], users[|users| - 1];
      assert users == init + [last];
      var rest := SkippedUsers(init);
      if HasUsableToken(last) then rest else rest + [last.id]
  }

  /** Both lists are built user by user: the lists of a concatenation are
      the concatenations of the lists, so each keeps the order (and the
      repeats) of the users it comes from. */
  lemma {:induction false} PartitionAppend(a: seq<User>, b: seq<User>)
    ensures UsableTokens(a + b) == UsableTokens(a) + UsableTokens(b)
    ensures SkippedUsers(a + b) == SkippedUsers(a) + SkippedUsers(b)
  {
    UsableTokensAppend(a, b);
    SkippedUsersAppend(a, b);
  }

  lemma {:induction false} UsableTokensAppend(a: seq<User>, b: seq<User>)
    ensures UsableTokens(a + b) == UsableTokens(a) + UsableTokens(b)
  {
    if b == [] {
      assert a + b == a;
    } else {
      var init, last := b[..|b| - 1], b[|b| - 1];
      assert a + b == (a + init) + [last] && b == init + [last];
      UsableTokensSnoc(a + init, last);
      UsableTokensSnoc(init, last);
      UsableTokensAppend(a, init);
    }
  }

  lemma UsableTokensSnoc(users: seq<User>, last: User)
    ensures UsableTokens(users + [last]) == UsableTokens(users) + (if HasUsableToken(last) then [last.fcmToken.value] else [])
  {
    assert (users + [last])[..|users|] == users;
  }

  lemma {:induction false} SkippedUsersAppend(a: seq<User>, b: seq<User>)
    ensures SkippedUsers(a + b) == SkippedUsers(a) + SkippedUsers(b)
  {
    if b == [] {
      assert a + b == a;
    } else {
      var init, last := b[..|b| - 1], b[|b| - 1];
      assert a + b == (a + init) + [last] && b == init + [last];
      SkippedUsersSnoc(a + init, last);
      SkippedUsersSnoc(init, last);
      SkippedUsersAppend(a, init);
    }
  }

  lemma SkippedUsersSnoc(users: seq<User>, last: User)
    ensures SkippedUsers(users + [last]) == SkippedUsers(users) + (if HasUsableToken(last) then [] else [last.id])
  {
    assert (users + [last])[..|users|] == users;
  }

  /** Every user found is either sent to or skipped, never both and never
      counted as a failure. */
  lemma {:induction false} PartitionCoversUsers(users: seq<User>)
    ensures |UsableTokens(users)| + |SkippedUsers(users)| == |users|
  {
    if users != [] {
      PartitionCoversUsers(users[..|users| - 1]);
    }
  }

  /** isInvalidToken: the error codes that mark a token as permanently dead.
      A failure without a code, and the transient codes, keep the token. */
  predicate IsInvalidToken(code: Option<ErrorCode>)
    ensures code == Some(Unregistered) || code == Some(InvalidArgument) ==> IsInvalidToken(code)
    ensures code.None? ==> !IsInvalidToken(code)
    ensures code.Some? && code.value in {Internal, QuotaExceeded, SenderIdMismatch, ThirdPartyAuthError, Unavailable} ==>
      !IsInvalidToken(code)
  {
    code == Some(Unregistered) || code == Some(InvalidArgument)
  }

  /** The tokens whose response (paired by index) failed as dead, in index order. */
  function InvalidTokens(tokens: seq<string>, responses: seq<SendResponse>): seq<string>
    requires |tokens| == |responses|
  {
    if tokens == [] then []
    else
      var n := |tokens| - 1;
      InvalidTokens(tokens[..n], responses[..n])
      + (if responses[n].Failed? && IsInvalidToken(responses[n].code) then [tokens[n]] else [])
  }

  /** The tokens whose response failed, for whatever reason, in index order. */
  function FailedTokens(tokens: seq<string>, responses: seq<SendResponse>): seq<string>
    requires |tokens| == |responses|
  {
    if tokens == [] then []
    else
      var n := |tokens| - 1;
      FailedTokens(tokens[..n], responses[..n]) + (if responses[n].Failed? then [tokens[n]] else [])
  }

  /** BatchResponse.getSuccessCount and getFailureCount. */
  function SuccessCount(responses: seq<SendResponse>): nat {
    if responses == [] then 0
    else SuccessCount(responses[..|responses| - 1]) + (if responses[|responses| - 1].Delivered? then 1 else 0)
  }

  function FailureCount(responses: seq<SendResponse>): nat {
    if responses == [] then 0
    else FailureCount(responses[..|responses| - 1]) + (if responses[|responses| - 1].Failed? then 1 else 0)
  }

  /** Every response is counted once, as a success or as a failure, and
      the failure count is the number of failed tokens. */
  lemma {:induction false} CountsCoverResponses(tokens: seq<string>, responses: seq<SendResponse>)
    requires |tokens| == |responses|
    ensures SuccessCount(responses) + FailureCount(responses) == |responses|
    ensures |FailedTokens(tokens, responses)| == FailureCount(responses)
  {
    if tokens != [] {
      CountsCoverResponses(tokens[..|tokens| - 1], responses[..|responses| - 1]);
    }
  }

  /** A token is reported dead exactly when the response at its index
      failed with UNREGISTERED or INVALID_ARGUMENT. */
  lemma InvalidTokensExact(tokens: seq<string>, responses: seq<SendResponse>, t: string)
    requires |tokens| == |responses|
    ensures t in InvalidTokens(tokens, responses) <==>
      exists i | 0 <= i < |tokens| :: tokens[i] == t && responses[i].Failed? && IsInvalidToken(responses[i].code)
  {
    if t in InvalidTokens(tokens, responses) {
      InvalidTokensSound(tokens, responses, t);
    }
    if exists i | 0 <= i < |tokens| :: tokens[i] == t && responses[i].Failed? && IsInvalidToken(responses[i].code) {
      var i :| 0 <= i < |tokens| && tokens[i] == t && responses[i].Failed? && IsInvalidToken(responses[i].code);
      InvalidTokensComplete(tokens, responses, i);
    }
  }

  /** Every token reported dead had a dead-token failure at its index. */
  lemma {:induction false} InvalidTokensSound(tokens: seq<string>, responses: seq<SendResponse>, t: string)
    requires |tokens| == |responses| && t in InvalidTokens(tokens, responses)
    ensures exists i | 0 <= i < |tokens| :: tokens[i] == t && responses[i].Failed? && IsInvalidToken(responses[i].code)
  {
    var n := |tokens| - 1;
    if t in InvalidTokens(tokens[..n], responses[..n]) {
      InvalidTokensSound(tokens[..n], responses[..n], t);
      var i :| 0 <= i < n && tokens[..n][i] == t && responses[..n][i].Failed? && IsInvalidToken(responses[..n][i].code);
      assert tokens[i] == t && responses[i] == responses[..n][i];
    } else {
      assert tokens[n] == t && responses[n].Failed? && IsInvalidToken(responses[n].code);
    }
  }

  /** Every token with a dead-token failure at its index is reported dead. */
  lemma {:induction false} InvalidTokensComplete(tokens: seq<string>, responses: seq<SendResponse>, i: nat)
    requires |tokens| == |responses| && i < |tokens|
    requires responses[i].Failed? && IsInvalidToken(responses[i].code)
    ensures tokens[i] in InvalidTokens(tokens, responses)
  {
    var n := |tokens| - 1;
    if i < n {
      assert tokens[..n][i] == tokens[i] && responses[..n][i] == responses[i];
      InvalidTokensComplete(tokens[..n], responses[..n], i);
    }
  }

  /** The dead tokens are a sub-list of the failed tokens (same order), so
      there are never more of them than failures. */
  lemma {:induction false} InvalidTokensAmongFailed(tokens: seq<string>, responses: seq<SendResponse>)
    requires |tokens| == |responses|
    ensures |InvalidTokens(tokens, responses)| <= |FailedTokens(tokens, responses)|
    ensures forall t | t in InvalidTokens(tokens, responses) :: t in FailedTokens(tokens, responses)
  {
    if tokens != [] {
      InvalidTokensAmongFailed(tokens[..|tokens| - 1], responses[..|responses| - 1]);
    }
  }

  /** The notification of a multicast: the image only when non-null and not blank. */
  function MulticastNotification(dto: MultiUserRequest): Notification {
    Notification(dto.title, dto.body,
      if dto.imageUrl.Some? && !IsBlank(dto.imageUrl.value) then dto.imageUrl else None)
  }

  /** The batch built for the tokens: data only when non-null and non-empty. */
  function BuildMulticast(tokens: seq<string>, dto: MultiUserRequest): (m: MulticastMessage)
    ensures m.tokens == tokens
    ensures m.notification.title == dto.title && m.notification.body == dto.body
    ensures m.notification.image.Some? <==> dto.imageUrl.Some? && !IsBlank(dto.imageUrl.value)
    ensures m.notification.image.Some? ==> m.notification.image == dto.imageUrl
    ensures m.data.Some? <==> dto.data.Some? && |dto.data.value| > 0
    ensures m.data.Some? ==> m.data == dto.data
  {
    MulticastMessage(tokens, MulticastNotification(dto),
      if dto.data.Some? && |dto.data.value| > 0 then dto.data else None)
  }

  const SummaryPrefix := "Notifications sent. Success: "
  const SummaryInfix := ", Failed: "

  /** String.format("Notifications sent. Success: %d, Failed: %d", ...). */
  function BatchSummary(responses: seq<SendResponse>): string {
    SummaryPrefix + NatToString(SuccessCount(responses)) + SummaryInfix + NatToString(FailureCount(responses))
  }

  /** The summary reads back: after the fixed prefix come the decimal
      digits of the success count, then ", Failed: ", then the digits of
      the failure count, and the two counts add up to the responses. */
  lemma BatchSummaryReadsBack(responses: seq<SendResponse>, tokens: seq<string>)
    requires |tokens| == |responses|
    ensures var text, k := BatchSummary(responses), |SummaryPrefix| + |NatToString(SuccessCount(responses))|;
      && k + |SummaryInfix| < |text|
      && text[..|SummaryPrefix|] == SummaryPrefix
      && (forall i | |SummaryPrefix| <= i < k :: IsDigit(text[i]))
      && DecimalValue(text[|SummaryPrefix|..k]) == SuccessCount(responses)
      && text[k..k + |SummaryInfix|] == SummaryInfix
      && (forall i | k + |SummaryInfix| <= i < |text| :: IsDigit(text[i]))
      && DecimalValue(text[k + |SummaryInfix|..]) == FailureCount(responses)
      && SuccessCount(responses) + FailureCount(responses) == |responses|
  {
    var s, f := NatToString(SuccessCount(responses)), NatToString(FailureCount(responses));
    var text := BatchSummary(responses);
    var k := |SummaryPrefix| + |s|;
    assert text == SummaryPrefix + s + SummaryInfix + f;
    assert text[..|SummaryPrefix|] == SummaryPrefix;
    assert text[|SummaryPrefix|..k] == s;
    assert text[k..k + |SummaryInfix|] == SummaryInfix;
    assert text[k + |SummaryInfix|..] == f;
    CountsCoverResponses(tokens, responses);
  }

  /** The first loop of sendNotificationToUsers. */
  method PartitionUsers(users: seq<User>) returns (fcmTokens: seq<string>, usersWithoutTokens: seq<string>)
    ensures fcmTokens == UsableTokens(users)
    ensures usersWithoutTokens == SkippedUsers(users)
  {
    fcmTokens, usersWithoutTokens := [], [];
    for i := 0 to |users|
      invariant fcmTokens == UsableTokens(users[..i])
      invariant usersWithoutTokens == SkippedUsers(users[..i])
    {
      assert users[..i + 1][..i] == users[..i];
      var user := users[i];
      if user.fcmToken.Some? && !IsBlank(user.fcmToken.value) {
        fcmTokens := fcmTokens + [user.fcmToken.value];
      } else {
        usersWithoutTokens := usersWithoutTokens + [user.id];
      }
    }
    assert users[..|users|] == users;
  }

  /** The second loop of sendNotificationToUsers: response i belongs to token i. */
  method CollectInvalidTokens(fcmTokens: seq<string>, responses: seq<SendResponse>) returns (invalidTokens: seq<string>)
    requires |responses| == |fcmTokens|
    ensures invalidTokens == InvalidTokens(fcmTokens, responses)
  {
    invalidTokens := [];
    for i := 0 to |responses|
      invariant invalidTokens == InvalidTokens(fcmTokens[..i], responses[..i])
    {
      assert fcmTokens[..i + 1][..i] == fcmTokens[..i];
      assert responses[..i + 1][..i] == responses[..i];
      var sendResponse := responses[i];
      if sendResponse.Failed? {
        var token := fcmTokens[i];
        if IsInvalidToken(sendResponse.code) {
          invalidTokens := invalidTokens + [token];
        }
      }
    }
    assert fcmTokens[..|fcmTokens|] == fcmTokens;
    assert responses[..|responses|] == responses;
  }

  /**
    sendNotificationToUsers. The user lookup may throw (lookupFailure),
    building or sending the batch may throw (gateway is Thrown), and the
    clearFcmTokens call may throw (clearFailure; the statement runs in its
    own transaction, so the table is left as it was). Each of these
    exceptions becomes success=false, even after the batch went out. The
    SDK answers with one response per token, in token order. The batch
    sent is returned in sent, and the argument of the one clearFcmTokens
    call, if it was made, in clearedWith.
   */
  method SendNotificationToUsers(dto: MultiUserRequest, userTable: UserTable,
                                 lookupFailure: Option<string>, gateway: BatchOutcome, clearFailure: Option<string>)
    returns (response: NotificationResponse, sent: Option<MulticastMessage>, clearedWith: Option<seq<string>>)
    requires gateway.Responses? ==> |gateway.responses| == |UsableTokens(userTable.FindAllById(dto.userIds))|
    modifies userTable
    ensures lookupFailure.Some? ==>
      && response == NotificationResponse(false, BatchFailurePrefix + lookupFailure.value, None)
      && sent.None? && clearedWith.None? && userTable.rows == old(userTable.rows)
    ensures lookupFailure.None? && UsableTokens(old(userTable.FindAllById(dto.userIds))) == [] ==>
      && response == NotificationResponse(false, NoTokensMessage, None)
      && sent.None? && clearedWith.None? && userTable.rows == old(userTable.rows)
    ensures lookupFailure.None? && UsableTokens(old(userTable.FindAllById(dto.userIds))) != [] ==>
      sent == Some(BuildMulticast(UsableTokens(old(userTable.FindAllById(dto.userIds))), dto))
    ensures lookupFailure.None? && sent.Some? && gateway.Thrown? ==>
      && response == NotificationResponse(false, BatchFailurePrefix + gateway.reason, None)
      && clearedWith.None? && userTable.rows == old(userTable.rows)
    ensures lookupFailure.None? && sent.Some? && gateway.Responses? ==>
      var invalid := InvalidTokens(sent.value.tokens, gateway.responses);
      && clearedWith == (if invalid == [] then None else Some(invalid))
      && if invalid != [] && clearFailure.Some? then
           && response == NotificationResponse(false, BatchFailurePrefix + clearFailure.value, None)
           && userTable.rows == old(userTable.rows)
         else
           && response == NotificationResponse(true, BatchSummary(gateway.responses), None)
           && userTable.rows == (if invalid == [] then old(userTable.rows) else ClearedTable(old(userTable.rows), invalid))
  {
    sent, clearedWith := None, None;
    if lookupFailure.Some? {
      response := NotificationResponse(false, BatchFailurePrefix + lookupFailure.value, None);
      return;
    }
    var users := userTable.FindAllById(dto.userIds);
    var fcmTokens, usersWithoutTokens := PartitionUsers(users);
    if fcmTokens == [] {
      response := NotificationResponse(false, NoTokensMessage, None);
      return;
    }
    var multicastMessage := BuildMulticast(fcmTokens, dto);
    sent := Some(multicastMessage);
    if gateway.Thrown? {
      response := NotificationResponse(false, BatchFailurePrefix + gateway.reason, None);
      return;
    }
    var invalidTokens := CollectInvalidTokens(fcmTokens, gateway.responses);
    if invalidTokens != [] {
      clearedWith := Some(invalidTokens);
      if clearFailure.Some? {
        response := NotificationResponse(false, BatchFailurePrefix + clearFailure.value, None);
        return;
      }
      var _ := userTable.ClearFcmTokens(invalidTokens);
    }
    response := NotificationResponse(true, BatchSummary(gateway.responses), None);
  }

  // ---------------------------------------------------------------------
  // Single-message paths

  /** The notification of a single message: the image only when non-null
      and not empty after trim(). */
  function SingleNotification(title: Option<string>, body: Option<string>, imageUrl: Option<string>): (n: Notification)
    ensures n.title == title && n.body == body
    ensures n.image.Some? <==> imageUrl.Some? && !TrimsToEmpty(imageUrl.value)
    ensures n.image.Some? ==> n.image == imageUrl
  {
    Notification(title, body, if imageUrl.Some? && !TrimsToEmpty(imageUrl.value) then imageUrl else None)
  }

  /** A single message carries its data string under the key "data" when
      it is non-null and non-empty. */
  function SingleMessage(token: string, title: Option<string>, body: Option<string>,
                         imageUrl: Option<string>, data: Option<string>): (m: TokenMessage)
    ensures m.token == token
    ensures m.notification.title == title && m.notification.body == body
    ensures m.notification.image.Some? <==> imageUrl.Some? && !TrimsToEmpty(imageUrl.value)
    ensures m.notification.image.Some? ==> m.notification.image == imageUrl
    ensures m.data.Some? <==> data.Some? && data.value != []
    ensures m.data.Some? ==> m.data.value == map["data" := data.value]
  {
    TokenMessage(token, SingleNotification(title, body, imageUrl),
      if data.Some? && data.value != [] then Some(map["data" := data.value]) else None)
  }

  /** Hand a built message to FirebaseMessaging.send and report what it did. */
  function Deliver(message: TokenMessage, outcome: SendOutcome): (r: SingleSend)
    ensures r.sent == Some(message)
    ensures r.response.success <==> outcome.Accepted?
  {
    match outcome
    case Accepted(id) => SingleSend(NotificationResponse(true, SentMessage, Some(id)), Some(message))
    case Rejected(reason) => SingleSend(NotificationResponse(false, SendFailurePrefix + reason, None), Some(message))
  }

  /** sendNotificationToToken: a null or empty token is refused before any
      send; any other token, even one of spaces, is sent to. */
  function SendNotificationToToken(fcmToken: Option<string>, title: Option<string>, body: Option<string>,
                                   imageUrl: Option<string>, data: Option<string>, outcome: SendOutcome): (r: SingleSend)
    ensures r.sent.None? <==> fcmToken.None? || fcmToken.value == []
    ensures r.sent.None? ==> r.response == NotificationResponse(false, TokenRequiredMessage, None)
    ensures r.sent.Some? ==> r.sent.value.token == fcmToken.value
    ensures r.sent.Some? ==> r.sent.value == SingleMessage(fcmToken.value, title, body, imageUrl, data)
    ensures r.response.success <==> r.sent.Some? && outcome.Accepted?
  {
    if fcmToken.None? || fcmToken.value == [] then
      SingleSend(NotificationResponse(false, TokenRequiredMessage, None), None)
    else
      Deliver(SingleMessage(fcmToken.value, title, body, imageUrl, data), outcome)
  }

  /** sendNotificationToUser: the token of the user findById returns (none
      when no user has that id or the user's token is null); a null or
      empty token is refused before any send. */
  function SendNotificationToUser(users: seq<User>, userId: string, title: Option<string>, body: Option<string>,
                                  imageUrl: Option<string>, data: Option<string>, outcome: SendOutcome): (r: SingleSend)
    ensures var found := RowWithId(users, userId);
      r.sent.None? <==> found.None? || found.value.fcmToken.None? || found.value.fcmToken.value == []
    ensures (forall u | u in users :: u.id != userId) ==> r.sent.None?
    ensures r.sent.None? ==> r.response == NotificationResponse(false, NoUserTokenMessage, None)
    ensures r.sent.Some? ==> exists u | u in users :: u.id == userId && Some(r.sent.value.token) == u.fcmToken
    ensures r.sent.Some? ==> Some(r.sent.value.token) == RowWithId(users, userId).value.fcmToken
    ensures r.sent.Some? ==> r.sent.value == SingleMessage(r.sent.value.token, title, body, imageUrl, data)
    ensures r.response.success <==> r.sent.Some? && outcome.Accepted?
  {
    var found := RowWithId(users, userId);
    var fcmToken := if found.Some? then found.value.fcmToken else None;
    if fcmToken.None? || fcmToken.value == [] then
      SingleSend(NotificationResponse(false, NoUserTokenMessage, None), None)
    else
      Deliver(SingleMessage(fcmToken.value, title, body, imageUrl, data), outcome)
  }

  /** The single paths test isEmpty where the multicast tests isBlank: a
      token of spaces is sent to directly but skipped by the multicast. */
  lemma BlankTokenTreatedDifferently(u: User, outcome: SendOutcome)
    requires u.fcmToken == Some(" ")
    ensures SendNotificationToUser([u], u.id, None, None, None, None, outcome).sent.Some?
    ensures !HasUsableToken(u) && UsableTokens([u]) == [] && SkippedUsers([u]) == [u.id]
  {
    assert IsBlank(" ") by { assert " "[0] == ' '; }
  }

  /** trim() and isBlank disagree on some images: U+0000 is trimmed away
      but is not whitespace, U+3000 is whitespace but is not trimmed. */
  lemma ImageTestsDisagree(dto: MultiUserRequest)
    ensures SingleNotification(None, None, Some("\U{0}")).image.None?
    ensures dto.imageUrl == Some("\U{0}") ==> MulticastNotification(dto).image.Some?
    ensures SingleNotification(None, None, Some("\U{3000}")).image.Some?
    ensures dto.imageUrl == Some("\U{3000}") ==> MulticastNotification(dto).image.None?
  {
    assert !IsBlank("\U{0}") by { assert "\U{0}"[0] == '\U{0}'; }
    assert !TrimsToEmpty("\U{3000}") by { assert "\U{3000}"[0] == '\U{3000}'; }
  }
}
