# LetsChart, modelled in Dafny

LetsChart is a one-to-one chat application. An Express backend stores users,
conversations, messages and 24-hour statuses, and a Socket.IO service tracks
presence, typing and reactions live. The React client fetches conversations,
groups and renders messages, shows statuses and walks a user through an OTP
login. This project models the core of both halves and proves properties of
the model:

- **Backend controllers.** `AuthController`, `ChatController`,
  `StatusController` and `AiController` are methods over an in-memory
  database. `Database.Db` is a class with one `map` per collection and a
  counter that stands in for fresh document ids. Each handler answers with
  its status code and its effect on the database.
- **The socket service.** `SocketService.SocketServer` is a class whose
  fields are the service's module-level maps (`onlineUsers`, `typingUsers`),
  the per-connection `userId`, the pending typing timeouts and an outbox of
  emitted events. Each event handler is a method. The invariants it keeps
  are proved on the values of those fields.
- **Client logic.** The status store (`StatusStore.Store`), the status page
  and viewer (`StatusPage.StatusPage`, `StatusPreview.ProgressTimer`), the
  login flow (`Login.LoginFlow`) and the typing debounce of the chat window
  (`ChatWindow.TypingDebounce`) are classes, because the source updates
  their state in place.
- **Client computations.** Code built from expressions (contact filtering,
  relative time labels, row previews, the emoji list) is modelled as
  functions. Code that updates local variables step by step is modelled as
  methods with loops or assignments: the reaction tally, message grouping
  by day, the home page's conversation map and the emoji picker's
  placement.

Shared vocabulary lives in `Common`, which covers JavaScript truthiness,
`trim`, `includes`, `toLowerCase` and `join`. It also includes `Ordering`, an
insertion sort that is stable on equal keys and stands in for Mongo's
`.sort`. Entities and emitted events live in `Domain`, and client-side values
in `ClientData`.

Collaborators the code cannot see become parameters:

- the media upload (`Upload`), the SMS check (`PhoneCheck`), the language
  model (`ask`) and `JSON.parse` (`parse`);
- the OTP text, the current time and the day key of a date;
- the e-mail syntax check of the login schema (`isEmail`).

## Model

| member | source | states |
|---|---|---|
| Common.Trim | backend/controllers/aiController.js:12 | `trim()` neither starts nor ends with JavaScript whitespace, and is empty exactly when the input is all whitespace |
| Common.TrimCutsSpace | backend/controllers/aiController.js:12 | the trimmed text occurs in its input with only whitespace before and after it, so `trim()` cuts off whitespace and nothing else |
| Common.TrimIdempotent | backend/controllers/aiController.js:72 | trimming an already trimmed string changes nothing |
| Common.ContainsMeansOccurs | frontend/src/pages/chatSection/ChatList.jsx:19 | `includes` as the engine scans is true exactly when the substring occurs at some offset |
| Common.ToLower | frontend/src/pages/chatSection/ChatList.jsx:19 | lowercasing keeps the length and maps every character through the ASCII case table |
| Common.ToLowerIdempotent | backend/controllers/authController.js:142 | lowercasing twice is lowercasing once |
| Common.NatToString | frontend/src/utils/formatTime.js:11 | a count interpolated into a label is a run of decimal digits whose decimal value is the count, with no leading zero except for 0 itself, and one digit exactly below 10 |
| Common.NatToStringInjective | frontend/src/utils/formatTime.js:11-13 | different counts are rendered as different digit strings |
| Common.Join | backend/controllers/aiController.js:10 | joining no parts gives "" and joining one part gives that part |
| Common.JoinSnoc | backend/controllers/aiController.js:10 | joining one more part appends the separator and that part, so the parts appear in order |
| Ordering.InsertBy | backend/controllers/chatController.js:124 | inserting into a sorted sequence keeps it sorted and adds exactly the one element |
| Ordering.SortBy | backend/controllers/chatController.js:124 | the sort result is ordered by the key and is a permutation of its input |
| Ordering.SortKeepsSorted | backend/controllers/chatController.js:124 | sorting input that is already in key order returns it unchanged; for such input, entries with equal keys keep their order |
| Ordering.IncreasingCounts | backend/controllers/statusController.js:68-71 | an id list in strictly increasing order holds each of its ids exactly once |
| Domain.MarkRead | backend/controllers/chatController.js:127-134 | the `$set: {messageStatus: "read"}` write keeps the key set, makes the selected messages read, leaves every other message untouched and never moves a status backwards |
| Domain.MarkReadIdempotent | backend/controllers/chatController.js:161-164 | repeating the read write with the same selection changes nothing |
| Domain.StatusStepNeverRegresses | backend/controllers/chatController.js:131-133 | a status change the backend writes never lowers the rank sent < delivered < read |
| Database.Db.NewId | backend/controllers/chatController.js:41 | a saved document gets an id used in no collection, and the counter stays fresh |
| Database.WithPresence | backend/service/socketService.js:32-35 | `findByIdAndUpdate` changes only the named user's presence fields and creates no user |
| SocketService.Connect | backend/service/socketService.js:26-30 | after `user_connected` the user is registered under this connection, every other user's entry is unchanged, and the connection is bound to the user |
| SocketService.Disconnect | backend/service/socketService.js:184-187 | a connection that never announced a user changes nothing; otherwise its user leaves `onlineUsers`, whichever connection they registered last, every other user keeps their socket, and only this connection is unbound |
| SocketService.OnlineIsLatestConnection | backend/service/socketService.js:28-29 | after any history of connects and disconnects, an online user is registered under the connection of their latest `user_connected` |
| SocketService.StaleDisconnectTakesUserOffline | backend/service/socketService.js:187 | closing an older connection of a user who has reconnected elsewhere takes that user offline |
| SocketService.SocketServer.UserConnected | backend/service/socketService.js:26-41 | the presence becomes `Connect` of the old one, the user document is marked online at `now`, and one `user_status` online event goes to everyone |
| SocketService.SocketServer.GetUserStatus | backend/service/socketService.js:44-51 | online exactly when the user is in `onlineUsers`; `lastSeen` is `now` exactly then |
| SocketService.SocketServer.RelayMessage | backend/service/socketService.js:54-64 | the message goes to the receiver's socket exactly when a receiver id is given and online; otherwise nothing is emitted |
| SocketService.SocketServer.MessageRead | backend/service/socketService.js:67-86 | every listed message becomes read, whoever asks; the sender's socket, when online, gets one status update per listed id in list order |
| SocketService.StatusUpdates | backend/service/socketService.js:76-81 | one `message_status_update` with status read per id, in order, all to the same socket |
| SocketService.SocketServer.TypingStart | backend/service/socketService.js:89-115 | ignored unless the connection has a user and both ids are given; otherwise that conversation's flag is set and its timeout replaced, the user's other conversations keep theirs, the previous timeout is cleared, exactly one new timeout is pending, and typing is emitted to the receiver's room |
| SocketService.SocketServer.FireTimer | backend/service/socketService.js:101-108 | a pending timeout clears its flag, leaves the pending set, and emits not-typing to the receiver it captured |
| SocketService.SocketServer.TypingStop | backend/service/socketService.js:118-137 | ignored unless the guard passes; otherwise the conversation's timeout is cleared and deleted, the flag is cleared if the user has a record, and not-typing is emitted |
| SocketService.SocketServer.ClearTimeouts | backend/service/socketService.js:191-193 | every timeout handle of the record is cleared and no other timer is touched |
| SocketService.SocketServer.HandleDisconnected | backend/service/socketService.js:184-213 | a connection without a user changes nothing; otherwise presence follows `Disconnect`, all of the user's timeouts are cleared and their record is deleted, their document goes offline, and an offline `user_status` goes to everyone |
| SocketService.OnePendingPerConversation | backend/service/socketService.js:97-101 | under the typing invariant, two pending timeouts of the same user and conversation are the same timeout |
| SocketService.StartKeepsConsistent | backend/service/socketService.js:92-108 | the `typing_start` update keeps the invariant: a flag is set exactly when its timeout is pending, and every pending timeout is the one its record names |
| SocketService.FireKeepsConsistent | backend/service/socketService.js:101-102 | a timeout firing keeps the typing invariant |
| SocketService.StopKeepsConsistent | backend/service/socketService.js:121-130 | the `typing_stop` update keeps the typing invariant |
| SocketService.SweepKeepsConsistent | backend/service/socketService.js:189-195 | deleting a user's record and clearing its handles keeps the invariant and leaves no timeout of that user pending |
| SocketService.HandlesAt | backend/service/socketService.js:191-192 | the handles swept are exactly the timeout values the record holds |
| SocketService.FindReaction | backend/service/socketService.js:145-147 | -1 exactly when the user has no reaction; otherwise the first index holding one of theirs |
| SocketService.SocketServer.FindIndex | backend/service/socketService.js:145-147 | the scan returns the index `FindReaction` specifies |
| SocketService.SocketServer.Toggle | backend/service/socketService.js:149-158 | the in-place edit of the reaction list yields `ToggleReaction` of the old list |
| SocketService.ToggleKeepsOthers | backend/service/socketService.js:149-158 | a toggle leaves every other user's reactions exactly as they were, in order |
| SocketService.ToggleEffect | backend/service/socketService.js:149-158 | with at most one reaction per user before, there is at most one after, and the user's reaction becomes the new emoji, unless it equalled it, in which case it is gone |
| SocketService.ToggleTwiceRestores | backend/service/socketService.js:149-158 | reacting twice with the same emoji, starting with no reaction, restores the list |
| SocketService.ToggleAppends | backend/service/socketService.js:156-157 | a first reaction is appended, keeps one reaction per user and is found at the end |
| SocketService.ToggleRemoves | backend/service/socketService.js:151-152 | removing the user's reaction keeps one per user and leaves the user with none |
| SocketService.ToggleReplaces | backend/service/socketService.js:153-154 | replacing the user's emoji keeps one per user and is found in the same place |
| SocketService.EntriesOfAppend | backend/service/socketService.js:157 | a user's entries in a concatenation are their entries in each part, in order |
| SocketService.NotifyParty | backend/service/socketService.js:172-176 | a party gets the reaction update, on their own socket, exactly when their user document exists and they are online |
| SocketService.ReactionEmits | backend/service/socketService.js:172-176 | at most two updates, sender first then receiver, one for each party that exists and is online, each carrying the new reaction list |
| SocketService.SocketServer.AddReaction | backend/service/socketService.js:140-181 | an unknown message changes nothing; otherwise only that message's reactions change, to the toggle of the old ones, and the updates go out as `ReactionEmits` says |
| ChatController.SortedPair | backend/controllers/chatController.js:11 | the stored participants are the two ids in ascending order |
| ChatController.FindConversation | backend/controllers/chatController.js:13-15 | the earliest stored conversation with exactly the two participants, or a proof that there is none |
| ChatController.LookupIsSymmetric | backend/controllers/chatController.js:11-15 | the lookup and the stored order are the same whichever of the two sends |
| ChatController.SelfLookupMatchesAnyPartner | backend/controllers/chatController.js:13-15 | a message to oneself looks up `$all: [a, a]`, which every two-party conversation of `a` satisfies |
| ChatController.FindOrCreateConversation | backend/controllers/chatController.js:13-20 | an existing match is reused untouched; otherwise a fresh conversation of the sorted pair is stored, with no last message and no unread messages |
| ChatController.CreateKeepsPairsDistinct | backend/controllers/chatController.js:17-20 | creating only after a failed lookup keeps every participant pair stored once |
| ChatController.UpdateKeepsPairsDistinct | backend/controllers/chatController.js:43-50 | updating a conversation without touching its participants keeps pairs distinct |
| ChatController.ContentTypeFor | backend/controllers/chatController.js:22-29 | "text" exactly without a file; with a file, "image" exactly for an `image*` mimetype, and "video" otherwise |
| ChatController.StoreMessage | backend/controllers/chatController.js:31-41 | the message is stored under a fresh id and no other message changes |
| ChatController.RecordLastMessage | backend/controllers/chatController.js:43-50 | the conversation's last message becomes the new one and its unread count grows by one exactly when sender and receiver differ |
| ChatController.PostMessage | backend/controllers/chatController.js:22-62 | one new "sent" message with the right type and media URL, the conversation's last message and unread count updated, and `receive_message` to the receiver's socket exactly when online |
| ChatController.SendMessage | backend/controllers/chatController.js:6-73 | 500 exactly when a file's upload throws, after the conversation was found or created; otherwise a new message in the pair's conversation; never a status regression |
| ChatController.MessagesOf | backend/controllers/chatController.js:121 | exactly the ids of the conversation's messages, ascending |
| ChatController.FetchOrdered | backend/controllers/chatController.js:121-124 | each message of the conversation exactly once, in `createdAt` order |
| ChatController.GetMessage | backend/controllers/chatController.js:106-149 | 404 for an unknown conversation, 403 for a non-participant, both with nothing changed; otherwise the ordered messages, the requester's sent or delivered messages marked read, and the unread count reset |
| ChatController.FetchIsIdempotent | backend/controllers/chatController.js:127-134 | after the fetch's write nothing of the requester in that conversation is left unread, so a second fetch writes nothing |
| ChatController.MarkReadNothing | backend/controllers/chatController.js:127-134 | a write that selects nothing leaves the messages unchanged |
| ChatController.FindReceived | backend/controllers/chatController.js:156-159 | the listed ids that exist and were received by the requester, each once, in stored order |
| ChatController.ReadNotices | backend/controllers/chatController.js:167-177 | each notice is a `message_read` for a found message, sent to the socket of that message's sender, who is online; every found message whose sender is online gets its notice |
| ChatController.ReadNoticesAppend | backend/controllers/chatController.js:167-177 | the notices for a concatenation are those for each part, in order: the notices follow the order of the found messages |
| ChatController.ReadNoticesOne | backend/controllers/chatController.js:167-177 | a single message yields exactly one notice to its sender's socket when the sender is online, and none otherwise |
| ChatController.NotifyReaders | backend/controllers/chatController.js:167-177 | the loop emits exactly `ReadNotices` |
| ChatController.MarkAsRead | backend/controllers/chatController.js:152-187 | 200; exactly the listed messages received by the requester become read and are returned; the outbox gains exactly `ReadNotices` of them, one per message with an online sender, in the order found |
| ChatController.DeleteMessage | backend/controllers/chatController.js:190-217 | 404 for an unknown message and 403 unless the requester sent it, both with nothing changed; otherwise only that message is removed and `message_deleted` goes to the receiver's socket when online |
| AuthController.FullPhoneNumber | backend/controllers/authController.js:31-33 | the full number always starts with "+", and is the suffix followed by the number, with a "+" added when the suffix lacks one |
| AuthController.PlusIsOptional | backend/controllers/authController.js:31-33 | writing the country code with or without "+" names the same account |
| AuthController.FindUser | backend/controllers/authController.js:35 | the earliest stored user matching the filter, or a proof that none matches |
| AuthController.NewUser | backend/controllers/authController.js:37 | a new account carries only the given fields: unverified, not agreed, offline, no code |
| AuthController.SendOtp | backend/controllers/authController.js:11-48 | with an e-mail, the found or new account stores the code with a five-minute expiry; without one, 400 unless both phone fields are truthy, else the account of the full number is found or created and the SMS is sent; 500 when a collaborator throws |
| AuthController.ConsumeOtp | backend/controllers/authController.js:69-72 | the account becomes verified, the code and its expiry are cleared, and nothing else changes |
| AuthController.OtpSingleUse | backend/controllers/authController.js:61-72 | once consumed, no code is accepted again |
| AuthController.IssuedOtpWindow | backend/controllers/authController.js:14 | a code issued at t is accepted exactly for that text up to t + 5 minutes |
| AuthController.VerifyOtp | backend/controllers/authController.js:51-118 | by e-mail: 404 for an unknown address, 400 unless a stored code equals the submitted one and has not expired, otherwise 200 and the code is consumed; by phone: 404, 400 unless the check says "approved", otherwise verified; 500 without a suffix or when a call throws |
| AuthController.AgreedAfter | backend/controllers/authController.js:140-146 | an absent field keeps the flag; a string sets it exactly when it lowercases to "true"; any other value sets it to its truthiness |
| AuthController.AgreedIgnoresCase | backend/controllers/authController.js:142 | the case of a submitted string does not matter |
| AuthController.ApplyProfile | backend/controllers/authController.js:129-148 | a file decides the picture, even when its URL is missing; otherwise a truthy submitted picture does; username and about change only when truthy; agreed follows `AgreedAfter`; no other field changes |
| AuthController.ApplyProfileIdempotent | backend/controllers/authController.js:121-150 | submitting the same form twice leaves the profile as after the first time |
| AuthController.UpdateProfile | backend/controllers/authController.js:121-170 | 404 for an unknown account and 500 when the upload throws, both with nothing changed; otherwise 200 and only that account changes, to `ApplyProfile` of it |
| AuthController.GetAllUsers | backend/controllers/authController.js:202-207 | every account except the requester's, once each, in id order |
| StatusController.ValidateStatus | backend/controllers/statusController.js:14-36 | upload throws: 500; no URL: "Failed to upload media"; image or video mimetype: the URL with that type; other files: "Unsupported file type"; no file: trimmed text is required and stored untrimmed as "text"; the verdict is `VerdictOf` of the inputs |
| StatusController.VerdictOf | backend/controllers/statusController.js:14-36 | accepted content is never empty and is text exactly without a file; the verdict fails exactly when the upload throws, and is "Message content is required" exactly when there is no file and no trimmed text |
| StatusController.CreateStatus | backend/controllers/statusController.js:8-63 | 201 exactly when `VerdictOf` accepts, storing its content and type in a new status owned by the caller, with no viewers, created now and expiring a day later; a rejection answers 400 with its own message and stores nothing; a throwing upload answers 500 |
| StatusController.StoreStatus | backend/controllers/statusController.js:49 | the status is stored under a fresh id and no other status changes |
| StatusController.CreatedStatusLivesADay | backend/controllers/statusController.js:38-39 | a status with the 24-hour lifetime is listed exactly until 24 hours after its creation |
| StatusController.LiveStatuses | backend/controllers/statusController.js:68-69 | exactly the unexpired statuses, ascending |
| StatusController.GetStatus | backend/controllers/statusController.js:66-78 | every unexpired status exactly once and no other, newest first |
| StatusController.StoredNewestFirst | backend/controllers/statusController.js:71 | ascending on the sort key is descending on `createdAt` |
| StatusController.AddViewer | backend/controllers/statusController.js:89-90 | the viewer is added once, at the end, only if absent; a repetition-free list stays repetition-free |
| StatusController.AddViewerIdempotent | backend/controllers/statusController.js:89-98 | viewing twice records the viewer once |
| StatusController.ViewStatus | backend/controllers/statusController.js:81-104 | 404 with nothing changed for an unknown status; otherwise 200 and only that status changes, with the viewer added |
| StatusController.DeleteStatus | backend/controllers/statusController.js:107-124 | 404 for an unknown status and 403 unless the caller owns it, both with nothing changed; otherwise only that status is removed |
| StatusController.StatusRoutesFailAsWritten | backend/controllers/statusController.js:5 | as written, `getStatus`, `viewStatus` and `deleteStatus` answer 500 on every input, and `CreateStatus` does too unless it rejects the request |
| StatusController.TextStatusFailsAsWritten | backend/controllers/statusController.js:41-47 | a text status that validation accepts still gets 500 as written |
| AiController.Lines | backend/controllers/aiController.js:7-9 | one `sender: content` line per entry with truthy content; no lines exactly when no entry has content |
| AiController.LinesAppend | backend/controllers/aiController.js:7-9 | the lines of a concatenation are the lines of each part, in order |
| AiController.LinesOne | backend/controllers/aiController.js:7-9 | a single entry gives its `sender: content` line when its content is truthy and no line otherwise |
| AiController.Transcript | backend/controllers/aiController.js:7-10 | the transcript is empty exactly when no entry has truthy content |
| AiController.TranscriptSnoc | backend/controllers/aiController.js:7-10 | a further entry with content adds its `sender: content` line after a newline, or is the whole transcript when no earlier entry had content |
| AiController.BlankTranscriptIffNoContent | backend/controllers/aiController.js:7-16 | the transcript trims to "" exactly when no entry has truthy content |
| AiController.ParseAction | backend/controllers/aiController.js:18-62 | an action is accepted exactly when it names one of the five prompts, and the action it yields carries that name |
| AiController.ParseActionName | backend/controllers/aiController.js:18-57 | every action's name parses back to that action |
| AiController.InheritedNamePassesAsWritten | backend/controllers/aiController.js:60 | the written check lets "toString" through, although it names no prompt, and lets every real prompt name through |
| AiController.Language | backend/controllers/aiController.js:32 | never empty: a truthy target language is used, and "English" otherwise |
| AiController.PromptHead | backend/controllers/aiController.js:18-57 | the translate prompt names the language `Language` chooses, and the tone prompt the tone as interpolated |
| AiController.Prompt | backend/controllers/aiController.js:18-57 | every action's prompt starts with its head, contains the whole transcript and ends with a newline |
| AiController.TranslateDefaultsToEnglish | backend/controllers/aiController.js:31-34 | without a target language, the translate prompt is the English one |
| AiController.StripLeavesNoFence | backend/controllers/aiController.js:72 | removing "```json" and "```" left to right leaves no three backticks in a row |
| AiController.StringsOf | backend/controllers/aiController.js:73 | the string items of the parsed array, and all of them when every item is a string |
| AiController.StringsOfAppend | backend/controllers/aiController.js:73 | the strings of a concatenation are the strings of each part, in order |
| AiController.StringsOfOne | backend/controllers/aiController.js:73 | a single item is kept exactly when it is a string |
| AiController.Cleaned | backend/controllers/aiController.js:72 | the cleaned reply contains no code fence and is already trimmed |
| AiController.StripKeepsPlainText | backend/controllers/aiController.js:72 | a reply without a fence passes the fence stripping unchanged |
| AiController.StripFencesIdempotent | backend/controllers/aiController.js:72 | stripping fences twice is stripping them once |
| AiController.ImproveReply | backend/controllers/aiController.js:69-77 | a missing reply, a parse failure or a non-array gives []; an array gives exactly `StringsOf` its items, in order |
| AiController.ChatAI | backend/controllers/aiController.js:3-85 | a missing `messages` gives 500; a blank transcript gives 400 "No valid message content" before the action is checked; an unknown action gives 400 "Invalid AI action"; otherwise the action's prompt is asked: a throw gives 500 "AI failed", an answer to "improve" gives the `ImproveReply` suggestions, and any other answer is returned as it is. The action is checked with the corrected `ParseAction`, not with the check written at line 60, which also lets inherited names such as "toString" through (first row under "## Findings") |
| AiController.BlankRefusedBeforeAsking | backend/controllers/aiController.js:12-16 | a request with no content is refused the same way whatever the action and whatever the model would say |
| StatusStore.PrependUnique | frontend/src/store/useStatusStore.js:22-26 | a new status is prepended unless one with its id is already listed; ids stay distinct |
| StatusStore.RemoveId | frontend/src/store/useStatusStore.js:28-33 | exactly the statuses with other ids survive |
| StatusStore.RemoveIdLeavesNone | frontend/src/store/useStatusStore.js:30 | after the removal no status with that id is left |
| StatusStore.RemoveAbsentId | frontend/src/store/useStatusStore.js:30 | removing an id that is not listed changes nothing |
| StatusStore.RemoveIdKeepsDistinct | frontend/src/store/useStatusStore.js:30 | removal keeps ids distinct |
| StatusStore.RemoveIdSplits | frontend/src/store/useStatusStore.js:30 | removal keeps the survivors in their order |
| StatusStore.SetViewers | frontend/src/store/useStatusStore.js:34-38 | the status with the id gets the new viewers, and every other entry is unchanged, in place |
| StatusStore.SetViewersKeepsIds | frontend/src/store/useStatusStore.js:36 | replacing viewers keeps the listed ids and their distinctness |
| StatusStore.Store.OnNewStatus | frontend/src/store/useStatusStore.js:22-27 | the list becomes `PrependUnique` of the old one |
| StatusStore.Store.OnStatusDeleted | frontend/src/store/useStatusStore.js:28-33 | the list becomes `RemoveId` of the old one |
| StatusStore.Store.OnStatusViewed | frontend/src/store/useStatusStore.js:34-38 | the list becomes `SetViewers` of the old one |
| StatusStore.Store.CreateStatus | frontend/src/store/useStatusStore.js:62-89 | a failed request records its message, clears loading and rethrows; a response with data prepends it uniquely and clears loading; a response without data leaves the list as it was and loading still set |
| StatusStore.Store.DeleteStatus | frontend/src/store/useStatusStore.js:104-115 | success removes the id and leaves loading set; failure keeps the list, records the error and clears loading |
| StatusStore.OwnersSpec | frontend/src/store/useStatusStore.js:134-137 | the owner order lists each status owner exactly once |
| StatusStore.GroupStatus | frontend/src/store/useStatusStore.js:132-157 | one group per owner, keyed by owner, holding exactly that owner's statuses, newest first, under the name and avatar of that owner's first status; statuses without an owner are skipped |
| StatusStore.FirstOwned | frontend/src/store/useStatusStore.js:137-143 | the index of an owner's first status, with no earlier one, or the length when there is none |
| StatusStore.PushStatus | frontend/src/store/useStatusStore.js:135-155 | one reduce step: the owner's group is created on first sight, the entry is pushed, and the group is re-sorted |
| StatusStore.PushKeepsMatch | frontend/src/store/useStatusStore.js:134-156 | one reduce step keeps every group equal to its owner's statuses, newest first |
| StatusStore.PushKeepsGroup | frontend/src/store/useStatusStore.js:137-154 | one owner's group stays correct across a reduce step |
| StatusStore.UserStatuses | frontend/src/store/useStatusStore.js:160-163 | nothing for a falsy id; otherwise the user's group exactly when they own a status, under the name and avatar of their first status |
| StatusStore.Without | frontend/src/store/useStatusStore.js:168-170 | exactly the owners other than the given id, distinct when the input is |
| StatusStore.OthersOf | frontend/src/store/useStatusStore.js:168 | the groups in owner order, without the given owner |
| StatusStore.OtherStatuses | frontend/src/store/useStatusStore.js:166-171 | the groups of every other owner, in first-appearance order, each under the name and avatar of its owner's first status |
| StatusStore.OtherOwners | frontend/src/store/useStatusStore.js:166-171 | the owners listed are exactly those of some status other than the given user, each once |
| FormatTime.FormatTimestamp | frontend/src/utils/formatTime.js:1-22 | blank exactly for a falsy or unparsable timestamp; "Just now" under a minute, future times included; minutes 1..59, hours 1..23 and days 1..6 each bracket the elapsed time; a date from one week on |
| FormatTime.OlderIsNeverFiner | frontend/src/utils/formatTime.js:10-13 | an older timestamp never gets a finer bucket, and within a bucket never a smaller count |
| FormatTime.LabelText | frontend/src/utils/formatTime.js:10-13 | the text is empty exactly for a blank label |
| FormatTime.LabelTextInjective | frontend/src/utils/formatTime.js:10-13 | different relative labels are shown as different texts, so the text determines the bucket and its count |
| ChatList.FilteredContacts | frontend/src/pages/chatSection/ChatList.jsx:17-21 | exactly the contacts whose username contains the search, ignoring ASCII case; contacts without a username never match |
| ChatList.FilterAppend | frontend/src/pages/chatSection/ChatList.jsx:17-21 | the contacts kept from a concatenation are those kept from each part, in order |
| ChatList.FilterOne | frontend/src/pages/chatSection/ChatList.jsx:17-21 | a single contact is kept exactly when its name matches the search |
| ChatList.EmptySearchKeepsNamed | frontend/src/pages/chatSection/ChatList.jsx:17-21 | an empty search shows exactly the contacts that have a username |
| ChatList.FilterIdempotent | frontend/src/pages/chatSection/ChatList.jsx:17-21 | filtering again by the same search changes nothing |
| ChatList.Badge | frontend/src/pages/chatSection/ChatList.jsx:113-117 | the unread badge appears, with its count, exactly for a positive unread count |
| ChatList.PreviewOf | frontend/src/pages/chatSection/ChatList.jsx:107-111 | an invitation exactly without a conversation; otherwise the last message's content, possibly missing |
| ChatList.RowTime | frontend/src/pages/chatSection/ChatList.jsx:93-102 | a time exactly when the conversation has a last message with a truthy date, formatted by `FormatTimestamp` |
| ChatList.FreshContactRow | frontend/src/pages/chatSection/ChatList.jsx:93-117 | a contact without a conversation shows "Start a conversation", no time and no badge |
| HomePage.OtherOf | frontend/src/components/HomePage.jsx:24-26 | a participant other than the current user, or nothing exactly when all participants are the current user |
| HomePage.OtherIsFirst | frontend/src/components/HomePage.jsx:24-26 | the participant found is the first one who is not the current user |
| HomePage.MapOf | frontend/src/components/HomePage.jsx:21-34 | every entry of the conversation map is keyed by its own id and carries a conversation |
| HomePage.KeyPerParticipant | frontend/src/components/HomePage.jsx:23-34 | the map has a key exactly for each other participant of some conversation |
| HomePage.LaterConversationWins | frontend/src/components/HomePage.jsx:28-33 | a key's entry comes from the last conversation with that participant |
| HomePage.ConversationMap | frontend/src/components/HomePage.jsx:21-34 | the loop succeeds exactly when every conversation has another participant, and then builds `MapOf` |
| HomePage.Others | frontend/src/components/HomePage.jsx:37 | exactly the users other than the current one |
| HomePage.OthersAppend | frontend/src/components/HomePage.jsx:37 | the users kept from a concatenation are those kept from each part, in order |
| HomePage.OthersOne | frontend/src/components/HomePage.jsx:37 | a single user is kept exactly when it is not the current one |
| HomePage.Merged | frontend/src/components/HomePage.jsx:36-45 | one entry per other user, position by position in `Others` order; a user with a map entry gets that entry, and any other the user's own id, name and picture with no conversation |
| HomePage.LoadChats | frontend/src/components/HomePage.jsx:15-48 | no contact list when a conversation lacks another participant; otherwise `Merged` of the users and the map |
| ChatWindow.HandleSendMessage | frontend/src/pages/chatSection/ChatWindow.jsx:112-140 | a request is made exactly with a contact and trimmed text or a file; its form carries the ids, "delivered" or "send", and the trimmed text when there is one and no content otherwise; the input clears exactly when the send does not throw |
| ChatWindow.SendText | frontend/src/pages/chatSection/ChatWindow.jsx:115-136 | the form and the clearing of the input once a contact is selected |
| ChatWindow.ChatHistory | frontend/src/pages/chatSection/ChatWindow.jsx:259-266 | the last fifteen messages, oldest first, each labelled "User" when the current user sent it |
| ChatWindow.HistorySlides | frontend/src/pages/chatSection/ChatWindow.jsx:261 | once fifteen messages are shown, a new one pushes the oldest out |
| ChatWindow.OwnMessageMisreadAsWritten | frontend/src/pages/chatSection/ChatWindow.jsx:263 | a message whose populated sender is the current user is labelled "Receiver" by the written comparison |
| ChatWindow.LastReceiverMessage | frontend/src/pages/chatSection/ChatWindow.jsx:269-279 | nothing exactly when no message from the other side has content; otherwise the content of the latest such message |
| ChatWindow.OnDay | frontend/src/pages/chatSection/ChatWindow.jsx:309-322 | exactly the dated messages that fall on that day |
| ChatWindow.AddKeepsGroups | frontend/src/pages/chatSection/ChatWindow.jsx:310-317 | one reduce step keeps every bucket equal to its day's dated messages, in order |
| ChatWindow.GroupedMessages | frontend/src/pages/chatSection/ChatWindow.jsx:309-322 | {} and no days for a non-array; otherwise one bucket per day some dated message falls on, holding exactly that day's messages in input order, and the days in the key order `DayKeys` gives, which `Object.entries` renders at line 425 |
| ChatWindow.DayKeys | frontend/src/pages/chatSection/ChatWindow.jsx:309-322 | each day some dated message falls on, exactly once |
| ChatWindow.FirstOnDay | frontend/src/pages/chatSection/ChatWindow.jsx:309-322 | the index of the first message dated on a day, with no earlier one, or the length when there is none |
| ChatWindow.DayKeysInFirstAppearanceOrder | frontend/src/pages/chatSection/ChatWindow.jsx:309-322 | the days are listed in the order their first message appears, the insertion order of the object's keys |
| ChatWindow.FirstIncluding | frontend/src/pages/chatSection/ChatWindow.jsx:55-63 | the index of the first conversation that includes the contact, by populated or bare id |
| ChatWindow.ConversationToFetch | frontend/src/pages/chatSection/ChatWindow.jsx:51-68 | nothing without a contact id or a conversation list; otherwise the id of the first conversation including the contact, when it has one |
| ChatWindow.TypingDebounce.Effect | frontend/src/pages/chatSection/ChatWindow.jsx:82-99 | with text and a contact: start typing and one new stop timer in place of the previous; otherwise no signal and no pending timer |
| ChatWindow.TypingDebounce.Fire | frontend/src/pages/chatSection/ChatWindow.jsx:90-92 | a pending timer signals stop to the contact it captured and is gone; a cleared one does nothing |
| ChatWindow.TypingDebounce.Unmount | frontend/src/pages/chatSection/ChatWindow.jsx:94-98 | the cleanup leaves no timer pending |
| MessageBubble.BubbleSideAgrees | frontend/src/pages/chatSection/MessageBubble.jsx:174 | for a populated sender the bubble side is "mine" exactly when its id is the current user's |
| MessageBubble.Clamp | frontend/src/pages/chatSection/MessageBubble.jsx:230-231 | the clamp is at least the margin; below the margin it is the margin; in range it is the value; above a bound that fits it is the bound |
| MessageBubble.OpenEmojiPicker | frontend/src/pages/chatSection/MessageBubble.jsx:203-236 | the picker sits where the branches place it, above or below and left or right of the button, when that fits the viewport; a preferred spot before the margin is moved to the margin, and one past the bound to the bound |
| MessageBubble.CountOf | frontend/src/pages/chatSection/MessageBubble.jsx:240 | a count is positive exactly when some reaction has that emoji |
| MessageBubble.Emojis | frontend/src/pages/chatSection/MessageBubble.jsx:238-242 | each used emoji once, and nothing else |
| MessageBubble.EmojisInFirstUseOrder | frontend/src/pages/chatSection/MessageBubble.jsx:238-242 | the emojis are listed in order of their first use |
| MessageBubble.GroupedReactions | frontend/src/pages/chatSection/MessageBubble.jsx:238-242 | {} without reactions; otherwise a key per used emoji, with its number of reactions |
| MessageBubble.TallyStep | frontend/src/pages/chatSection/MessageBubble.jsx:240 | one reduce step keeps the tally equal to the counts so far |
| MessageBubble.BadgesCountEveryReaction | frontend/src/pages/chatSection/MessageBubble.jsx:294-298 | the counts on the pill add up to the number of reactions |
| StatusPreview.ProgressTimer.Restart | frontend/src/pages/StatusSection/StatusPreview.jsx:26-41 | a new run of the effect starts the bar from zero |
| StatusPreview.ProgressTimer.Tick | frontend/src/pages/StatusSection/StatusPreview.jsx:30-38 | a running tick adds two percent and calls next exactly on reaching 100, which stops the interval |
| StatusPreview.ProgressTimer.Play | frontend/src/pages/StatusSection/StatusPreview.jsx:30-38 | n ticks after a start show min(2n, 100) percent, and next was called once from the fiftieth tick on |
| StatusPreview.SegmentWidth | frontend/src/pages/StatusSection/StatusPreview.jsx:86-93 | full for a seen status, the progress for the current one, empty for later ones |
| StatusPreview.SegmentsNeverIncrease | frontend/src/pages/StatusSection/StatusPreview.jsx:79-96 | with the progress in range, a later segment is never fuller than an earlier one |
| StatusPreview.CurrentStatus | frontend/src/pages/StatusSection/StatusPreview.jsx:20 | a status exactly when the index is in range of the contact's statuses |
| StatusPreview.HandleDeleteStatus | frontend/src/pages/StatusSection/StatusPreview.jsx:47-56 | the current status is deleted exactly when there is one and deletion is possible; the viewer closes exactly when the contact has a single status |
| StatusPreview.ControlsShown | frontend/src/pages/StatusSection/StatusPreview.jsx:58-192 | nothing renders without a current status; "previous" shows exactly past the first, "next" exactly before the last |
| StatusPreview.EndsHaveOneArrow | frontend/src/pages/StatusSection/StatusPreview.jsx:183-192 | on a multi-status contact, the first status has only "next" and the last only "previous" |
| StatusPage.StatusPage.HandlePreviewClose | frontend/src/pages/StatusSection/Status.jsx:72-75 | no contact and index 0 |
| StatusPage.StatusPage.HandlePreviewNext | frontend/src/pages/StatusSection/Status.jsx:77-84 | nothing without a contact; the next status while there is one; otherwise the viewer closes; whenever "next" is shown, next advances |
| StatusPage.StatusPage.HandlePreviewPrev | frontend/src/pages/StatusSection/Status.jsx:86-88 | one status back, never below the first |
| StatusPage.StatusPage.HandleStatusPreview | frontend/src/pages/StatusSection/Status.jsx:90-96 | the contact and index are shown, and the status there, if any, is reported viewed once |
| StatusPage.StatusPage.HandleCreateStatus | frontend/src/pages/StatusSection/Status.jsx:63-70 | nothing is submitted for blank text without a file; otherwise the text and file are submitted, and the dialog is reset only when the store does not throw |
| Login.Transformed | frontend/src/pages/user-login/Login.jsx:21-23 | a blank input is absent, and anything else is kept as typed |
| Login.CheckLogin | frontend/src/pages/user-login/Login.jsx:18-35 | accepted exactly when a digit-only phone or a valid e-mail is given and nothing given is malformed; the accepted fields are the transformed inputs |
| Login.Channel | frontend/src/pages/user-login/Login.jsx:121-143 | the code goes to the e-mail when one is truthy, otherwise to the phone with the selected dial code |
| Login.EmailPreferred | frontend/src/pages/user-login/Login.jsx:121-143 | a form that names both is sent to the e-mail |
| Login.FilterCountries | frontend/src/pages/user-login/Login.jsx:111-115 | exactly the countries whose name contains the search ignoring ASCII case, or whose dial code contains it |
| Login.EmptySearchKeepsAll | frontend/src/pages/user-login/Login.jsx:111-115 | an empty search keeps every country, in order |
| Login.FilledAll | frontend/src/pages/user-login/Login.jsx:160 | all slots count as filled exactly when none is empty |
| Login.JoinedSlots | frontend/src/pages/user-login/Login.jsx:160 | the joined code of valid slots is all digits, one per filled slot |
| Login.CodeCompleteIffAllFilled | frontend/src/pages/user-login/Login.jsx:160-166 | the code passes `/^\d{6}$/` exactly when all six slots are filled |
| Login.LoginFlow.OnLoginSubmit | frontend/src/pages/user-login/Login.jsx:117-151 | success moves to step 2 with the chosen channel; a failed reply changes nothing; a throw records its message or "Failed to send OTP" |
| Login.LoginFlow.HandleOtpChange | frontend/src/pages/user-login/Login.jsx:236-246 | anything but empty or one digit is ignored; otherwise the slot is set, the form value is the joined slots, and focus moves on after a digit below the last slot |
| Login.LoginFlow.OnOtpSubmit | frontend/src/pages/user-login/Login.jsx:154-201 | without a login: the generic error; an incomplete code sends nothing; otherwise verification by e-mail or phone; the flow finishes exactly when a successful reply names a user with a name and picture, and others go to step 3; a throw records a string or the generic error |
| Login.LoginFlow.HandleBack | frontend/src/pages/user-login/Login.jsx:248-253 | back to step 1 with no login, six empty slots and no error |

## Left out

- Socket.IO's server construction, rooms (`join`/`leave`) and transport are not modelled. An emit is recorded in the outbox with its target, and `io.to(userId)` is a `ToRoom` target.
- Mongoose population, `.lean()` and `.select` are not modelled. Responses name documents by id.
- The collaborators are parameters: Cloudinary uploads, Twilio, the language model, the mail sender, `otpGenerate`, token generation and the cookie.
- `JSON.parse` in the AI controller and the e-mail regular expression of the login schema are parameters.
- AuthController.SendOtp: the emission of the e-mail and the 200 body are left out; the model states only the stored code, its expiry and the status code.
- StatusStore.Store.CreateStatus: the `FormData` built at useStatusStore.js:65-71 is not modelled; the model takes the server's answer as a parameter and leaves out the request body, so it does not capture that blank text (`content?.trim()` empty) is left out of the form or that the file field is optional.
- StatusController.CreateStatus: `setHours(getHours() + 24)` is modelled as 24 hours in milliseconds, so daylight-saving shifts are not captured.
- StatusController.CreateStatus: the expiry computed at lines 38-39 is not passed to the document built at lines 41-47; the model stores it as the handler evidently intends, and the schema's own default (`models/Status.js` is not part of this model) is not modelled.
- ChatController.SortedPair: orders two ids numerically, while `[senderId, receiverId].sort()` compares their string forms; the model's ids are numbers, so the two orders can differ for ids of different lengths, which changes only the stored order of the two participants.
- StatusController.CreateStatus: the response body would be `Message.findById` of a status id (line 51), which finds nothing; the model returns the new id.
- StatusController.DeleteStatus: takes the id the route names; the id read from the body at line 108 is modelled in `DeleteStatusCodeAsWritten`.
- `checkAuthenticated` and `logout` are not modelled. They only read the account and set a cookie.
- `getConversation` is not modelled. It is a populated, sorted query with no decision logic.
- AuthController.GetAllUsers: the conversation attached to each user (lines 209-225) is not modelled; the model states the selected accounts only.
- The schema defaults of `models/User.js` are not part of this model. A new account has only the fields its constructor names.
- `toLowerCase` is modelled for ASCII letters only. `trim` uses JavaScript's full whitespace set.
- FormatTime.FormatTimestamp: the locale date of the last bucket is the timestamp itself (`Dated`), not its `en-US` rendering.
- The date separator's `isToday`, `isYesterday` and `format` in the chat window are not modelled. The day key is a parameter.
- Rendering, CSS classes, themes, DOM focus and scrolling are not modelled. Nor are races between overlapping requests.
- The width of the login progress bar is not modelled.
- `chat.service`, `layoutStore`, `index.js`, the routes, `App`, `Loader`, `Spinner`, `Toast` and `NotFound` are context and not part of this model.
- The login store's `resetLoginState` is represented by the `finished` flag.
- StatusPreview.ProgressTimer.Restart: the interval's restart on a change of `onNext` is modelled; the identity of `onNext` is not.
- StatusPage.StatusPage.HandleStatusPreview: the index is a natural number; the default argument is not modelled.
- MessageBubble.OpenEmojiPicker: the button's rectangle and the viewport are integer pixels.
- ChatWindow.HandleSendMessage: whether the store's `sendMessage` throws is a parameter.
- SocketService.SocketServer.FireTimer: the model's expiry event names the user who started the timer. The source's closure (backend/service/socketService.js:101-106) reads the connection's `userId` variable when the timer fires. So if the same connection announces another user within the 3000 ms window, the source names that new user and the model does not.
- ChatController.SendMessage: ids are natural numbers, so a request without `senderId` or `receiverId` is not modelled. In the source such a request still runs the conversation lookup and creation and saves the message. Only then does `senderId.toString()` (backend/controllers/chatController.js:46) throw, and the handler answers 500 after those writes.
- The model follows the code on these points:
  - no route writes the "delivered" status;
  - the conversation is created before the upload is attempted;
  - the unread count is one per conversation, shared by both participants;
  - deleting a message leaves the conversation's `lastMessage` pointing at it;
  - Mongo's order among equal sort keys is taken to be insertion order.
- The client store's `viewStatus`, `fetchStatuses` and `getStatusViewers` are not modelled. They are requests whose results replace state without decisions; `viewStatus` maps each status to a copy of itself.
- `onProfileSubmit` in the login page is not modelled. It forwards the form to `updateProfile`, which is modelled.
- The server-side effect of `viewStatus` as written (the viewer is saved before the crash at line 93) is not stated by `ViewStatusCodeAsWritten`, which gives the status code only.

## Findings

| source | as written | input that shows it | evidently intended | confidence | as-written member | corrected member |
|---|---|---|---|---|---|---|
| backend/controllers/aiController.js:60 | `!prompts[action]` on an object literal also accepts names inherited from `Object.prototype` | action "toString" with any non-blank messages | accept only the five prompt names | not executed | AiController.InheritedNamePassesAsWritten | AiController.ParseAction |
| frontend/src/pages/chatSection/ChatWindow.jsx:263 | `msg.sender === user?._id` compares a populated sender object with an id, so the user's own messages are labelled "Receiver"; line 274 makes the same comparison | a message with sender populated as user 7, content "hi", current user 7 | compare the sender's id, populated or bare | not executed | ChatWindow.OwnMessageMisreadAsWritten | ChatWindow.ChatHistory |
| backend/controllers/statusController.js:5 | `response` is Express's reply prototype; line 3 binds the helper module as `reponse`, whose `.response` is the helper, so every bare `response(...)` call throws and the handler answers 500 | any `getStatus` request; `viewStatus` of an existing status | answer with the helper's code: 200, 404 or 403 | not executed | StatusController.StatusRoutesFailAsWritten | StatusController.GetStatus |
| backend/controllers/statusController.js:45-46 | the new document reads `imageOrVideoUrl` and `messageStatus`, which are declared nowhere, so every accepted status throws before it is saved; the document also omits the expiry computed at lines 38-39 | content "hi" with no file | save the status with its 24-hour expiry and answer 201 | not executed | StatusController.TextStatusFailsAsWritten | StatusController.CreateStatus |
