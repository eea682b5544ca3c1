# HelpNearBy core, modelled in Dafny

HelpNearBy is a Spring service where neighbours post help requests,
exchange chat messages and receive push notifications. This project models
the parts of it that carry behaviour of their own, and proves what they
promise:

- **Multicast push with stale-token pruning** (`notifications.dfy`,
  `users.dfy`). The users are split into usable tokens and skipped users.
  Gateway response *i* is paired with token *i*. Tokens rejected as
  `UNREGISTERED` or `INVALID_ARGUMENT` are nulled in the user table by one
  bulk `UPDATE`. The two single-message paths are modelled as well.
- **S3 object keys** (`object_keys.dfy`). Keys and public URLs are built for
  uploads, and `extractS3KeyFromUrl` reads the key back out of a URL before a
  delete.
- **Chat** (`messages.dfy`). The message table holds the three repository
  queries, `createMessage`, `markMessagesAsRead` as an in-place update, and
  the push payload for a new message.
- **Help requests** (`requests.dfy`). This covers:
  - the `Request` entity with its persistence callbacks;
  - the create mapper;
  - `updateRequest` (field patch, image removal and addition) and the
    cascading `deleteRequest`, over a store of the two tables;
  - the paged status listing and the lookup by id.
- **Cache eviction** (`caches.dfy`). `CacheService` works over a map of named
  caches.
- **Validation and formatting** (`otp_requests.dfy`, `date_time.dfy`). This is
  the E.164 phone-number constraint of the OTP request bodies (ITU-T
  Recommendation E.164, clause 6) and the `yyyy-MM-dd HH:mm:ss` formatter.

Shared pieces:
- `wrappers.dfy` holds `Option`, the model of Java's null.
- `java_text.dfy` holds the `String`/`Formatter` behaviour the services rely
  on: `isBlank` against `trim().isEmpty()`, `%d`, zero padding and
  `compareTo` order.
- `ordering.dfy` holds a stable sort used for `ORDER BY`.

Modelling conventions:
- Clocks, generated UUIDs and database-generated ids are parameters.
- SDK calls (Firebase, AWS, Twilio) are inputs, namely what the call
  returned or threw, or outputs, namely what was handed to it.
- A table the source updates is a field of a class whose methods state the
  new table exactly, in terms of a function of the old one. The lemmas
  about that function carry the properties.

## Model

| member | source | states |
|---|---|---|
| Users.ClearedTable | src/main/java/com/helpnearby/repository/UserRepository.java:19 | After the bulk UPDATE no row holds a listed token. Every row that held one is nulled, however many share it. Unlisted rows are untouched, and no other column changes. |
| Users.UserTable.ClearFcmTokens | src/main/java/com/helpnearby/repository/UserRepository.java:19-20 | The table becomes exactly the cleared table, and the returned count is the number of rows whose token was listed. |
| Users.ListedCountIsListedRows | src/main/java/com/helpnearby/repository/UserRepository.java:20 | The update count equals the size of the set of rows whose token was in the list. |
| Users.ClearFcmTokensIdempotent | src/main/java/com/helpnearby/repository/UserRepository.java:19-20 | Repeating the update with the same list changes nothing, and the repeat reports 0 rows. |
| Users.RowsWithIds | src/main/java/com/helpnearby/service/FirebaseNotificationService.java:80 | findAllById returns exactly the stored users whose id was asked for. |
| Users.RowWithId | src/main/java/com/helpnearby/service/FirebaseNotificationService.java:41-42 | findById finds a stored user with that id, or reports that none has it. |
| Notifications.UsableTokens | src/main/java/com/helpnearby/service/FirebaseNotificationService.java:84-90 | The batch tokens are the non-null, non-blank tokens of the found users: every usable user's token is in it and nothing else is. A single user contributes their token or nothing. |
| Notifications.SkippedUsers | src/main/java/com/helpnearby/service/FirebaseNotificationService.java:84-90 | The skipped ids are exactly the ids of users without a usable token: every such user is listed, and every listed id belongs to one. A single user contributes their id or nothing. |
| Notifications.PartitionAppend | src/main/java/com/helpnearby/service/FirebaseNotificationService.java:84-90 | The tokens and skipped ids of two runs of users are the concatenation of each run's lists. With the one-user case, this fixes both lists in user order, a token shared by two users appearing twice. |
| Notifications.PartitionCoversUsers | src/main/java/com/helpnearby/service/FirebaseNotificationService.java:84-90 | Each found user is either sent to or skipped. Skipped users are not failures. |
| Notifications.PartitionUsers | src/main/java/com/helpnearby/service/FirebaseNotificationService.java:84-90 | The first loop builds exactly the usable tokens and the skipped user ids, in user order. |
| Notifications.CollectInvalidTokens | src/main/java/com/helpnearby/service/FirebaseNotificationService.java:120-133 | The second loop collects exactly the tokens whose index-aligned response failed with a dead-token code. |
| Notifications.IsInvalidToken | src/main/java/com/helpnearby/service/FirebaseNotificationService.java:149-152 | UNREGISTERED and INVALID_ARGUMENT mark a token dead. A failure with a null code, or with any other code, keeps the token. |
| Notifications.InvalidTokensExact | src/main/java/com/helpnearby/service/FirebaseNotificationService.java:120-152 | A token is reported dead if and only if some response at its index failed with UNREGISTERED or INVALID_ARGUMENT. |
| Notifications.InvalidTokensSound | src/main/java/com/helpnearby/service/FirebaseNotificationService.java:120-133 | Every token reported dead had a dead-token failure at its index. |
| Notifications.InvalidTokensComplete | src/main/java/com/helpnearby/service/FirebaseNotificationService.java:120-152 | Every token whose response failed with a dead-token code is reported dead. |
| Notifications.InvalidTokensAmongFailed | src/main/java/com/helpnearby/service/FirebaseNotificationService.java:120-133 | Dead tokens are a subset of the failed tokens, and there are never more of them. |
| Notifications.CountsCoverResponses | src/main/java/com/helpnearby/service/FirebaseNotificationService.java:115-116 | Success and failure counts add up to the number of responses. The failure count is the number of failed tokens. |
| Notifications.BatchSummaryReadsBack | src/main/java/com/helpnearby/service/FirebaseNotificationService.java:140-141 | The summary text is the fixed prefix, the decimal digits of the success count, ", Failed: ", then the digits of the failure count. The two counts add up to the responses. |
| Notifications.BuildMulticast | src/main/java/com/helpnearby/service/FirebaseNotificationService.java:95-111 | The batch carries the tokens, title and body. The image is attached if and only if it is non-null and non-blank. Data is attached if and only if it is non-null and non-empty. |
| Notifications.SendNotificationToUsers | src/main/java/com/helpnearby/service/FirebaseNotificationService.java:77-147 | A lookup or gateway exception gives success=false and clears nothing. With no usable token it fails with the no-token message, before any send. Once the batch returns, clearFcmTokens runs once, with the dead tokens, if and only if there are any. If that call throws, the result is success=false with its message and the table is unchanged, although the batch was delivered. Otherwise it gives success=true with the counts, and the user table becomes the cleared table. |
| Notifications.Deliver | src/main/java/com/helpnearby/service/FirebaseNotificationService.java:62-71 | The built message is handed to the gateway, and success holds if and only if the gateway accepted it. |
| Notifications.SingleNotification | src/main/java/com/helpnearby/service/FirebaseNotificationService.java:48-53 | The notification carries the title and body. The image is attached if and only if it is non-null and not empty after trim(). |
| Notifications.SingleMessage | src/main/java/com/helpnearby/service/FirebaseNotificationService.java:55-60 | The message goes to the given token with that notification. Data is attached, under the single key "data", if and only if it is non-null and non-empty. |
| Notifications.SendNotificationToToken | src/main/java/com/helpnearby/service/FirebaseNotificationService.java:190-221 | Nothing is sent if and only if the token is null or empty; that case fails with the token-required message. Otherwise the single message goes to that token, and success means the gateway accepted it. |
| Notifications.SendNotificationToUser | src/main/java/com/helpnearby/service/FirebaseNotificationService.java:38-72 | The token is that of the user findById returns. Nothing is sent if and only if no user has the id or the user's token is null or empty; that case fails with the no-token message. Otherwise the single message goes to the user's token, and success means the gateway accepted it. |
| Notifications.BlankTokenTreatedDifferently | src/main/java/com/helpnearby/service/FirebaseNotificationService.java:43-90 | A token of spaces is sent to by the single-user path (isEmpty) but skipped by the multicast (isBlank). |
| Notifications.ImageTestsDisagree | src/main/java/com/helpnearby/service/FirebaseNotificationService.java:51-99 | The trim-based image test of the single paths and the isBlank test of the multicast disagree on U+0000 and U+3000. |
| ObjectKeys.GeneratePresignedUrl | src/main/java/com/helpnearby/service/S3UploadService.java:45-58 | The upload URL is the presigner's. The public URL is the bucket's public base followed by a key under "requests/". |
| ObjectKeys.GeneratePresignedUrlProfilePicture | src/main/java/com/helpnearby/service/S3UploadService.java:60-73 | The same, with a key under "profile_picture/". |
| ObjectKeys.GeneratedUrlsRoundTrip | src/main/java/com/helpnearby/service/S3UploadService.java:57-141 | Extracting from a handed-out public URL gives back the generated key whenever the UUID and file name hold no '?'. |
| ObjectKeys.IndexOfFrom | src/main/java/com/helpnearby/service/S3UploadService.java:121 | indexOf(String) returns the first occurrence at or after the start, or -1 when there is none. |
| ObjectKeys.IndexOfChar | src/main/java/com/helpnearby/service/S3UploadService.java:127-138 | indexOf(char, from) returns the first position of the character at or after from, or -1. |
| ObjectKeys.ExtractS3KeyFromUrl | src/main/java/com/helpnearby/service/S3UploadService.java:112-141 | It returns null for a null or empty URL, and null when "helpnearby.s3" is absent. A key it returns never contains '?'. |
| ObjectKeys.ExtractFindsHost | src/main/java/com/helpnearby/service/S3UploadService.java:120-127 | Once "helpnearby.s3" is found, the key is read from the first '/' at or after the end of its first occurrence. |
| ObjectKeys.KeyAfterHostShape | src/main/java/com/helpnearby/service/S3UploadService.java:127-139 | The key is null if and only if no '/' follows the host. Otherwise it is the text after that '/', cut exactly at its first '?'. |
| ObjectKeys.CutAtQuery | src/main/java/com/helpnearby/service/S3UploadService.java:135-139 | The result is a prefix of the text without '?'. Anything dropped starts with a '?'. |
| ObjectKeys.KeyRoundTrip | src/main/java/com/helpnearby/service/S3UploadService.java:117-141 | For any host of the bucket, a URL gives back its key whenever the key holds no '?'. |
| ObjectKeys.PublicUrlRoundTrip | src/main/java/com/helpnearby/service/S3UploadService.java:112-141 | The global public URL of a key without '?' gives the key back. |
| ObjectKeys.RegionalUrlRoundTrip | src/main/java/com/helpnearby/service/S3UploadService.java:118-119 | The regional host form gives the key back as well. |
| ObjectKeys.PublicUrlKeyText | src/main/java/com/helpnearby/service/S3UploadService.java:120-133 | In a public URL the marker is found at the host, the first '/' after it ends the host, and the text after that '/' is the key. |
| ObjectKeys.QueryStringDropped | src/main/java/com/helpnearby/service/S3UploadService.java:136-139 | A query string after the key is dropped. |
| ObjectKeys.DeleteFileFromS3 | src/main/java/com/helpnearby/service/S3UploadService.java:79-105 | A delete is issued if and only if the extracted key is non-null and non-empty, and it is issued for that key. Nothing is thrown. |
| ObjectKeys.DeleteGeneratedRequestImage | src/main/java/com/helpnearby/service/S3UploadService.java:47-105 | Deleting by a generated request-image URL deletes exactly the generated key. |
| Messages.ConversationRows | src/main/java/com/helpnearby/repository/MessageRepository.java:14 | It selects exactly the messages from u1 to u2 or from u2 to u1, each as often as stored. |
| Messages.ConversationExact | src/main/java/com/helpnearby/repository/MessageRepository.java:14 | The conversation holds every message between the two users exactly as often as the table does, and no other. It is in ascending timestamp order, with null timestamps last. |
| Messages.ConversationSymmetric | src/main/java/com/helpnearby/repository/MessageRepository.java:14 | Swapping the two users gives the same list, in the same order. |
| Messages.UnreadFor | src/main/java/com/helpnearby/repository/MessageRepository.java:17 | It returns exactly the messages with that receiver that are not read. |
| Messages.Partners | src/main/java/com/helpnearby/repository/MessageRepository.java:20 | It has no duplicates. A value is a partner if and only if it is the counterpart of a message involving the user. A message to oneself lists the user. |
| Messages.WithTimestamp | src/main/java/com/helpnearby/service/MessageService.java:41-43 | A non-null timestamp is kept, a null one becomes now, and nothing else changes. |
| Messages.MessageTable.CreateMessage | src/main/java/com/helpnearby/service/MessageService.java:40-45 | The stamped message is returned and appended to the table. |
| Messages.MarkedRead | src/main/java/com/helpnearby/service/MessageService.java:60-66 | Every message from the sender to the receiver is read afterwards. Every other message is unchanged. |
| Messages.MarkedReadIdempotent | src/main/java/com/helpnearby/service/MessageService.java:61-62 | Afterwards no unread message from the sender remains for the receiver, and a second call changes nothing. |
| Messages.MessageTable.MarkMessagesAsRead | src/main/java/com/helpnearby/service/MessageService.java:59-66 | The loop leaves the table exactly marked as read. |
| Messages.NewMessagePush | src/main/java/com/helpnearby/service/MessageService.java:72-101 | A push is built if and only if both users are found. It has exactly [receiver] as recipients, "New Message from " + the sender's name as title and the content as body. Its data map has exactly the keys type=NEW_MESSAGE, senderId, receiverId and senderName. |
| Requests.Created | src/main/java/com/helpnearby/entities/Request.java:63-70 | Both instants become the same now. A null status becomes OPEN and a null urgency MEDIUM; present values are kept. Nothing else changes. |
| Requests.Touched | src/main/java/com/helpnearby/entities/Request.java:72-75 | Only updatedAt changes. |
| Requests.Request.OnCreate | src/main/java/com/helpnearby/entities/Request.java:63-70 | The entity's row becomes the created row. |
| Requests.Request.OnUpdate | src/main/java/com/helpnearby/entities/Request.java:72-75 | The entity's row becomes the touched row. |
| Requests.Request.constructor | src/main/java/com/helpnearby/entities/Request.java:56-58 | A new request has the generated id, and every other field is null or zero. |
| Requests.ToImageEntity | src/main/java/com/helpnearby/util/RequestCreateMapper.java:45-53 | The image copies url, primary flag and key, points to the new request and has no id yet. |
| Requests.MappedImages | src/main/java/com/helpnearby/util/RequestCreateMapper.java:35-40 | Images are set if and only if the form lists at least one. They keep the form's length and order. |
| Requests.MappedRow | src/main/java/com/helpnearby/util/RequestCreateMapper.java:14-43 | The row is owned by the given user and copies the form's fields. It is OPEN whatever the form says, and createdAt equals updatedAt. |
| Requests.ToEntity | src/main/java/com/helpnearby/util/RequestCreateMapper.java:14-43 | A fresh entity whose row and images are the mapped ones. |
| Requests.MappedRequestPersisted | src/main/java/com/helpnearby/util/RequestCreateMapper.java:29-33 | Persisting a mapped request keeps it OPEN and keeps both instants equal. It keeps the form's urgency, or defaults it to MEDIUM. |
| Requests.Patched | src/main/java/com/helpnearby/service/RequestService.java:136-141 | Each of the six fields changes only when the update carries a value for it, and then takes that value. id, owner, position and instants are kept. |
| Requests.AfterUpdate | src/main/java/com/helpnearby/service/RequestService.java:136-143 | The saved row is the patch. id, owner, position and createdAt never change, and updatedAt is either kept or now. |
| Requests.UpdateRepeatedChangesNothing | src/main/java/com/helpnearby/service/RequestService.java:136-141 | Applying the same field patch twice leaves the row as one application left it. |
| Requests.ImagesWithIds | src/main/java/com/helpnearby/service/RequestService.java:117-119 | It finds exactly the stored images whose id is listed. |
| Requests.ImagesWithoutIds | src/main/java/com/helpnearby/service/RequestService.java:121 | The table keeps exactly the images that were not found. |
| Requests.SavedImages | src/main/java/com/helpnearby/service/RequestService.java:125-134 | There is one saved image per form image, in order, with the form's url, key and flag, owned by the updated request. |
| Requests.S3Keys | src/main/java/com/helpnearby/service/RequestService.java:120 | It gives one delete key per removed image, in order. |
| Requests.RequestStore.UpdateRequest | src/main/java/com/helpnearby/service/RequestService.java:108-144 | A null or unknown id fails with the repository's message before any image is touched. A stored id always saves. Then the listed images are deleted from S3 and the table, and the new images are appended. The patched row replaces the stored one. The store stays valid. |
| Requests.RequestStore.SaveNewImages | src/main/java/com/helpnearby/service/RequestService.java:125-134 | The loop appends exactly the saved images, in order. |
| Requests.RequestStore.constructor | src/main/java/com/helpnearby/entities/Request.java:13-54 | The store holds the given tables. It starts valid: unique request ids, and both instants set on every request. |
| Requests.ImagesOf | src/main/java/com/helpnearby/service/RequestService.java:150 | It returns exactly the images of the request. |
| Requests.ImagesNotOf | src/main/java/com/helpnearby/service/RequestService.java:153 | The table keeps exactly the images of other requests. |
| Requests.RequestsWithout | src/main/java/com/helpnearby/service/RequestService.java:155 | It keeps exactly the other requests. An absent id deletes nothing. |
| Requests.RequestsWithoutKeepsDistinct | src/main/java/com/helpnearby/service/RequestService.java:155 | Deleting keeps request ids unique. |
| Requests.RequestStore.DeleteRequest | src/main/java/com/helpnearby/service/RequestService.java:147-156 | Every image of the request is deleted from S3 and from the table, then the request. An unknown id does not fail. |
| Requests.RequestWithId | src/main/java/com/helpnearby/service/RequestService.java:112-113 | findById returns a stored row with that id, or reports that none has it. |
| Requests.ReplaceRow | src/main/java/com/helpnearby/service/RequestService.java:143 | Saving replaces the row with the saved id and keeps every other row. |
| Requests.GetRequestById | src/main/java/com/helpnearby/service/RequestService.java:88-95 | An absent id gives an empty response, never an error. Otherwise the response is the stored request. |
| Requests.WithStatus | src/main/java/com/helpnearby/service/RequestService.java:81-84 | A null or empty status lists every request. Otherwise only the requests with that status are listed. Each listed request occurs exactly as often as it is stored. |
| Requests.GetAllRequestsByStatus | src/main/java/com/helpnearby/service/RequestService.java:79-85 | A negative page fails first, then a size below one. Otherwise the page is the listing's slice from page*size, of the exact length, and the total is the listing's size. |
| Requests.ListingExact | src/main/java/com/helpnearby/service/RequestService.java:80-84 | The listing holds exactly the matching requests, each as often as stored, from the newest createdAt to the oldest. |
| Caches.Apply | src/main/java/com/helpnearby/service/CacheService.java:26-43 | After a getCache with a null check, evict drops one key and clear empties the cache. It fails if and only if the name does not resolve. No other cache changes. |
| Caches.ClearCacheIdempotent | src/main/java/com/helpnearby/service/CacheService.java:26-28 | Clearing a cache twice is clearing it once. |
| Caches.CacheManager.ClearCache | src/main/java/com/helpnearby/service/CacheService.java:26-28 | The named cache is emptied and the others are kept. An unresolved name throws and changes nothing. |
| Caches.UserCachesEffect | src/main/java/com/helpnearby/service/CacheService.java:33-44 | It completes if and only if the four caches resolve. Then the user's key is gone from the three per-user caches, with their other keys kept. conversations is empty, and every other cache is unchanged. |
| Caches.UserCachesStopAtMissing | src/main/java/com/helpnearby/service/CacheService.java:35-43 | A cache that does not resolve stops the run. Evictions before it stay applied, and later caches are untouched. |
| Caches.UserCachesIdempotent | src/main/java/com/helpnearby/service/CacheService.java:33-44 | A second clearUserCaches changes nothing and ends the same way. |
| Caches.CacheManager.ClearUserCaches | src/main/java/com/helpnearby/service/CacheService.java:33-44 | The four statements, in order, give exactly the run described by UserCachesCleared. |
| Caches.AllCleared | src/main/java/com/helpnearby/service/CacheService.java:18-21 | Every named cache is empty, and no cache is added or dropped. |
| Caches.CacheManager.ClearAllCaches | src/main/java/com/helpnearby/service/CacheService.java:18-21 | The loop over the names leaves exactly every cache empty. |
| OtpRequests.MatchesPatternIsE164 | src/main/java/com/helpnearby/dto/SendOtpRequest.java:9 | The whole-value match accepts exactly '+', a digit 1-9, then 1 to 14 ASCII digits. |
| OtpRequests.AcceptedDigits | src/main/java/com/helpnearby/dto/SendOtpRequest.java:9 | An accepted number has 2 to 15 digits, all after the '+', and does not start with 0. |
| OtpRequests.RejectedShapes | src/main/java/com/helpnearby/dto/SendOtpRequest.java:9 | It rejects "+0…", a missing '+', and any space, dash or parenthesis. |
| OtpRequests.MessageExamplesAccepted | src/main/java/com/helpnearby/dto/SendOtpRequest.java:9 | The example in each message, "+16419198503" and "+123455", is accepted. |
| OtpRequests.MatchedIsNotBlank | src/main/java/com/helpnearby/dto/SendOtpRequest.java:8-9 | A matching number is never blank, and a non-empty blank number never matches. |
| OtpRequests.PhoneViolations | src/main/java/com/helpnearby/dto/SendOtpRequest.java:8-9 | There is no violation if and only if the number is non-null and matches. Null gives only the required message. A blank non-empty number gives both messages. |
| OtpRequests.SendOtpViolations | src/main/java/com/helpnearby/dto/SendOtpRequest.java:8-9 | The body is valid if and only if the phone number has the E.164 shape. |
| OtpRequests.VerifyOtpViolations | src/main/java/com/helpnearby/dto/VerifyOtpRequest.java:8-12 | The body is valid if and only if the phone number has the E.164 shape. Every violation is on phoneNumber, never on code. |
| OtpRequests.SameAcceptance | src/main/java/com/helpnearby/dto/VerifyOtpRequest.java:8-9 | Both bodies accept the same numbers, whatever the code, and report equally many violations. |
| DateTime.FormatDateTime | src/main/java/com/helpnearby/util/DateTimeUtil.java:17-19 | The text is at least 19 characters. It is exactly 19, and starts with the four zero-padded digits of the year of era, if and only if that year is below 10000; it starts with '+' if and only if the year of era is 10000 or more. |
| DateTime.FormatShape | src/main/java/com/helpnearby/util/DateTimeUtil.java:8-19 | For years 1-9999 the text has 19 characters, with '-' at 4 and 7, ' ' at 10 and ':' at 13 and 16. Every other position holds the zero-padded digits of its field. |
| DateTime.FormatFieldsReadBack | src/main/java/com/helpnearby/util/DateTimeUtil.java:8 | Each zero-padded field of the text reads back as the value it was formatted from. |
| DateTime.NanosDropped | src/main/java/com/helpnearby/util/DateTimeUtil.java:8 | The fraction of a second never shows. |
| DateTime.FormatInjective | src/main/java/com/helpnearby/util/DateTimeUtil.java:8-19 | For years 1-9999 two date-times format alike if and only if they agree to the second. |
| DateTime.FormatOrder | src/main/java/com/helpnearby/util/DateTimeUtil.java:8-19 | For years 1-9999, string order of the outputs is exactly chronological order to the second. |
| DateTime.YearZeroLooksLikeYearOne | src/main/java/com/helpnearby/util/DateTimeUtil.java:8 | "yyyy" is the year of era, so year 0 prints as year 1. |
| DateTime.LongYearsSigned | src/main/java/com/helpnearby/util/DateTimeUtil.java:8 | A year past 9999 prints with a leading '+', and the text is longer than 19 characters. |

## Left out

- The geo-proximity search and the orchestration in `createRequest` (RequestService.java:57-71, 192-203): floating-point trigonometry and wiring only. Also, `getUsersWithin10MilesOptimized` (called at RequestService.java:202) is not declared in UserRepository.java.
- The topic send and subscribe paths of FirebaseNotificationService: thin wrappers over the SDK.
- Twilio OTP sending and checking in UserService: SDK wrappers.
- `DateTimeUtil.getCurrentTimestamp`: the clock is a parameter, so it is `FormatDateTime` of a given date-time.
- The converters (`convertReqeustToDto`, RequestMapper, RequestToDtoConvertor), controllers and configuration classes: field copying and framework plumbing.
- `@Async` and `@Transactional`: every operation is modelled as one sequential step, with no interleaving. The one rollback modelled is a failing clearFcmTokens, whose single statement leaves the user table as it was.
- Presence annotations on the notification request bodies are not enforced. The dispatcher accepts any title, body and ids.
- Notifications.SendNotificationToUsers: requires the gateway to answer with one response per token, as the SDK does. An answer of another length is not modelled.
- Requests.RequestStore.UpdateRequest: requires one generated id per new image; the database generates them.
- Requests.RequestStore.UpdateRequest: does not restrict removal to the request's own images, because the source does not. Any listed image id is deleted, whichever request owns it.
- ObjectKeys.GeneratedUrlsRoundTrip: holds only when the file name and UUID hold no '?'. extractS3KeyFromUrl cuts a file name containing '?' at that character, so that key does not come back.
- Messages.Partners: SELECT DISTINCT promises no order. The model lists each partner at its first occurrence, and the contract states no order.
- Ordering of rows with equal sort keys (equal timestamps, equal createdAt) is table order. The database may choose another.
- The source does not compile as given, and the model follows each method body as written:
  - User.java has no fcmToken field, although the service and repository use one. The model gives User a nullable token.
  - MultiUserNotificationRequestDto.data is a String, but the service calls putAllData. The model treats it as a string map.
  - MessageService passes User objects to setUserIds (MessageService.java:85). ChatPush therefore carries users.
  - NotificationService (the service type MessageService and RequestService call) is not part of this model. The push payload is the model's output.
  - RequestImage.java has no s3Key; the key is modelled as the service and mapper use it. Its `request` link (RequestImage.java:32-35) is modelled as `requestId`. Request.java has no `images` entity list; the model keeps the `images` the mapper attaches as the mapper uses them. Its `imageUrls` element collection (Request.java:36-42) is not modelled.
  - The RequestImage id is a UUID while the repository is keyed by String. Ids are strings here.
  - S3UploadService has no deleteObject. The S3 deletes of RequestService are reported as the keys passed to it.
  - findByStatusWithImages, findAllWithImages and findOpenRequestsWithPrimaryImage are not in RequestRepository.java. They are modelled as the status filter and createdAt-descending sort their callers request. `getAllRequests` is not modelled.
  - The Message entity and RequestResponseDto are not part of this model. Their fields are taken from their uses.
- Requests.AfterUpdate: updatedAt moves only when the patch changed a column, because an entity that is not dirty is not updated and @PreUpdate does not fire. Changes to the image tables do not dirty the request.
- Caches.CacheManager.ClearAllCaches: the map of caches is taken as the whole cache store. With a Redis cache manager getCacheNames lists only the caches created since startup, so Redis entries of caches not yet used are left in place; the model does not capture them.
- Caches: whether getCache creates an unknown cache depends on the configured CacheManager, so it is the `createsMissing` flag.
