# A model of the follow-and-notify server

The repository is a small messaging system. Clients log in under a username, follow other users, and send short
messages. The server passes each message to the sender's followers, at once to those online and at their next login
to the others, keeps users and follow lists on disk, and talks to the clients in JSON datagrams.

The project models four parts and how they fit together.

* **The JSON codec** (`DecimalText`, `Utf8`, `QuotedString`, `JsonValue`, `JsonWriter`, `JsonScanner`, `JsonParser`,
  `JsonReader`, `JsonGrammar`, `LenientGrammar`, `LenientAcceptance`, `LenientConverse`, `JsonAcceptance`,
  `JsonRejection`, `JsonRoundTrip`, `JsonReparse`). `Reader` and `FastWriter` are classes with the cursor, node stack,
  error list and output of the originals. Each method is proved against recursive functions of the document, and what
  the codec is for is proved about those. `LenientGrammar` states, as a grammar, the language that the reader accepts:
  a document is accepted exactly if it starts with a text of it within the stack limit, and then yields what the text
  denotes. `JsonGrammar` states the grammar of RFC 8259, which is part of it; the writer writes only texts of it, so
  reading undoes writing, for every trailing byte string. Characters of a Dafny string stand for bytes. `Messages`,
  `WireText`, `ServerMessage`, `ClientReceiver`, `ServerWire` and `ReceivedValues` compose the codec with the messages
  and the runs of the server.
* **The server as a state machine** (`ServerTypes`, `UserConnection`, `UserPersistence`, `Notification`, `ServerPayload`,
  `ClientMessageHandler`, `ServerInvariant`, `ServerDelivery`, `ServerMessageIds`, `ServerReplies`, `ServerEffects`,
  `ServerTexts`, `ServerRun`, `ServerActions`, `ServerArrival`). The managers and the handler are classes that change in place; `View`
  is their abstract state, and one datagram is one step. The invariant, exactly-once delivery in order up to the
  datagrams each session receives, gap-free message ids and loss-free dispatch hold over all runs. `ServerPayload` has
  the union of character arrays that carries a message, byte by byte.
* **Write-behind persistence** (`DiskRecord`, `UserDirectory`, `SpoiltDirectory`, `DiskStore`, `DiskHistory`,
  `RestartCondition`). Files are a map from paths to bytes; which file the path of a username leads to, if any, is an
  unknown function. The snapshots queued by memory are applied one after the other; as long as each user has a file of
  their own, the disk is an exact earlier state of memory at any time at which no file is being rewritten; otherwise a
  restart loses users.
* **Concurrency** (`ReadersWriter`, `SharedValue`, `SharedOperations`, `DrainQueue`, `ShutdownLoop`, `WriteBehind`).
  Threads are interleaved step by step, any number of them in the first four. What an operation does and returns is tied
  to the move that started it. `WriteBehind` runs the server and its disk thread together.

Some things the proofs brought out:

* Usernames become paths. A user named `user_directory` is accepted, and their file overwrites the list of all users; a
  name with a slash is accepted too, and may lead to no file, to another user's, or to the directory.
  `DiskStore.NewUserIsKept` shows each loss, `RestartCondition.LostIdIsReissued` what follows for the ids, and
  `RestartCondition.RunSurvives` that nothing else breaks a restart below 2^30-2 users.
* A name may have 20 characters, and so fill its array. The terminator is then overwritten by the body, and name and body
  arrive run together: `ServerPayload.CopiedIsMeant`, `ServerTexts.DueAsWritten` and `ServerWire.PacketsArrive` say
  exactly when. A name in a follow may hold a NUL, at which its echo ends, or overrun the union
  (`ReceivedValues.FollowIsEchoed`).
* A stop between opening a known user's file and writing it loses that user, and only that user
  (`WriteBehind.AnyStopIsAnEarlierState`).
* A received value such as `[]` makes the handler throw, which ends the server. `Messages.ValueIsHandled` says which
  values do.
* The length check for user files is computed in 32 bits. `DiskRecord.WrappedHeaderIsAccepted` gives a file that passes
  it wrongly, `DiskRecord.AcceptedFiles` the exact condition.
* `decodeNumber` takes the token `-` for the integer 0, and after a comment `readObject` takes any token for a comma.
  Both are modelled as the code has them.
* Strings that are not valid UTF-8 come back repaired; `Utf8.RepairedIsUtf8` says which ones change.
* A value without `msg_type` counts as a login.

## Model

| member | source | states |
|---|---|---|
| DecimalText.DigitsDenote | src/libs/jsoncpp/jsoncpp.cpp:167-173 | the digits of a number are digits, denote the number, and have no leading zero |
| DecimalText.LargestUIntHasTwentyDigits | src/libs/jsoncpp/jsoncpp.cpp:153-173 | no 64-bit magnitude has more than twenty digits, so sign, digits and terminator fit the 25-byte buffer |
| DecimalText.UintToString | src/libs/jsoncpp/jsoncpp.cpp:167-173 | writes the digits and the terminator backwards from a position, touches nothing else, and never runs below the start of the buffer |
| DecimalText.UnsignedToString | src/libs/jsoncpp/jsoncpp.cpp:4184-4190 | the text of every value up to 2^64-1 |
| DecimalText.SignedToString | src/libs/jsoncpp/jsoncpp.cpp:4168-4182 | the text of every value from -2^63, negated without overflow |
| DecimalText.DecodeNumber | src/libs/jsoncpp/jsoncpp.cpp:785-826 | the loop with its two overflow guards decides exactly by digits and magnitude: the mathematical value when everything after the sign is a digit and the magnitude is within the bound, else the token is left to decodeDouble; every intermediate value stays within the bound |
| DecimalText.IntegerTextRoundTrip | src/libs/jsoncpp/jsoncpp.cpp:785-826 | decoding inverts writing on the whole range from -2^63 to 2^64-1, up to the int/unsigned tag |
| DecimalText.IntegersAreDecoded | src/libs/jsoncpp/jsoncpp.cpp:785-826 | any zeros may come first, and after a minus there may be no digit at all; what is within the 64 bits of its sign is decoded to the number, what is not is left to decodeDouble |
| DecimalText.OneStrangeCharacter | src/libs/jsoncpp/jsoncpp.cpp:785-826 | a character that is no digit, anywhere behind the sign, makes a token no integer |
| Utf8.EncodeIsUtf8 | src/libs/jsoncpp/jsoncpp.cpp:125-151 | encoding scalar values gives UTF-8 in the grammar of RFC 3629 section 4, and decoding it gives the scalar values back |
| Utf8.Utf8IsEncoding | src/libs/jsoncpp/jsoncpp.cpp:4262-4328 | every well-formed UTF-8 string is the encoding of the code points the decoder finds in it |
| Utf8.RepairedIsUtf8 | src/libs/jsoncpp/jsoncpp.cpp:4262-4328 | for all byte strings the repaired string is UTF-8, repairing is idempotent, and exactly UTF-8 strings are left alone |
| Utf8.AnyPoint | src/libs/jsoncpp/jsoncpp.cpp:4262-4328 | for every byte string that starts with a byte above 0x7F, well-formed or not: which code point its start is decoded to, U+FFFD included, and how many bytes that takes |
| QuotedString.ValueToQuotedString | src/libs/jsoncpp/jsoncpp.cpp:4349-4424 | the loop yields the quoted form of the specification, also on the path that copies a plain string unchanged |
| QuotedString.AppendEscaped | src/libs/jsoncpp/jsoncpp.cpp:4349-4424 | the escaping loop, at every cursor position, has appended the escapes of exactly the bytes passed |
| QuotedString.PlainIsUnchanged | src/libs/jsoncpp/jsoncpp.cpp:4254-4260 | a string without characters that require escaping is its own escaped form, so skipping the loop is sound |
| QuotedString.AsciiIsQuoted | src/libs/jsoncpp/jsoncpp.cpp:4349-4424 | each byte below 0x80: the seven short escapes, the printable characters as they are, the others as four hexadecimal digits |
| QuotedString.DecodeString | src/libs/jsoncpp/jsoncpp.cpp:866-917 | the decoding loop computes the specification of string contents, errors included, and its cursor stays within the token |
| QuotedString.DecodeUnicodeCodePoint | src/libs/jsoncpp/jsoncpp.cpp:919-942 | one escape, or two that are combined as surrogates, with each of the error cases and the cursor after it |
| QuotedString.DecodeUnicodeEscapeSequence | src/libs/jsoncpp/jsoncpp.cpp:944-968 | four hexadecimal digits in either case, or the error, and the cursor after it |
| QuotedString.QuotedReadsBack | src/libs/jsoncpp/jsoncpp.cpp:866-917 | every byte string quoted and decoded gives its repaired form, which is valid UTF-8, is the string itself exactly if that was valid UTF-8 (surrogate pairs included), and quotes to the same text again |
| JsonValue.PutSorted | src/libs/jsoncpp/jsoncpp.cpp:3464-3505 | setting a member keeps the members in key order and adds no other member |
| JsonValue.PutLast | src/libs/jsoncpp/jsoncpp.cpp:3464-3505 | a key after all others was absent and goes to the end |
| JsonValue.PutThenLookup | src/libs/jsoncpp/jsoncpp.cpp:3464-3505 | a member set is found again under its key, and all others as before |
| JsonWriter.FastWriter.Write | src/libs/jsoncpp/jsoncpp.cpp:4447-4453 | the document of every value whose integers fit 64 bits, and a final line feed |
| JsonWriter.FastWriter.WriteArray | src/libs/jsoncpp/jsoncpp.cpp:4482-4491 | the loop appends exactly the items' texts, separated by commas and in brackets |
| JsonWriter.FastWriter.WriteObject | src/libs/jsoncpp/jsoncpp.cpp:4492-4505 | the loop appends exactly the members' texts, in key order |
| JsonScanner.TokenAt | src/libs/jsoncpp/jsoncpp.cpp:476-545 | a token lies within the document, and away from the end of the document it consumes input |
| JsonScanner.ValueToken | src/libs/jsoncpp/jsoncpp.cpp:466-474 | skipping comments ends, within the document, at a token that is no comment |
| JsonScanner.Recovered | src/libs/jsoncpp/jsoncpp.cpp:979-990 | recovery from an error ends, within the document |
| JsonReader.Reader.ReadToken | src/libs/jsoncpp/jsoncpp.cpp:476-545 | the scanner with its moving cursor computes the token of the specification on every byte string, for every kind of token |
| JsonReader.Reader.SkipCommentTokens | src/libs/jsoncpp/jsoncpp.cpp:466-474 | the cursor stops after the first token that is no comment |
| JsonReader.Reader.RecoverFromError | src/libs/jsoncpp/jsoncpp.cpp:979-990 | skips to the wanted token and drops the errors met on the way |
| JsonParser.ParseValue | src/libs/jsoncpp/jsoncpp.cpp:389-464 | on every byte string parsing ends, with the cursor within the document and not before its start |
| JsonReader.Reader.ReadValue | src/libs/jsoncpp/jsoncpp.cpp:389-464 | the recursive reader with its node stack and cursor does what the specification says: value on top of an otherwise unchanged stack of the same size, cursor, at most one error, or the exception above 1000 nodes |
| JsonReader.Reader.ReadObject | src/libs/jsoncpp/jsoncpp.cpp:681-735 | the same for objects, with the loop over members, separators and comments, and all four error cases |
| JsonReader.Reader.ReadArray | src/libs/jsoncpp/jsoncpp.cpp:737-773 | the same for arrays, with the empty array, the separators and the error cases |
| JsonReader.Reader.DecodeNumberToken | src/libs/jsoncpp/jsoncpp.cpp:775-838 | an integer, else what decodeDouble makes of it, else one error |
| JsonReader.Reader.DecodeStringToken | src/libs/jsoncpp/jsoncpp.cpp:855-864 | the decoded string, or one error and an unchanged stack |
| JsonReader.Reader.Read | src/libs/jsoncpp/jsoncpp.cpp:350-387 | parse: accepted, rejected with its error, or thrown, exactly as the specification says, with the value left in the root; which documents these are, `LooseTextIsAccepted`, `AcceptedIsText` and `RejectionIsExplained` say |
| LenientAcceptance.LooseTextIsAccepted | src/libs/jsoncpp/jsoncpp.cpp:350-387 | every document that starts with a text of the lenient grammar (after spaces and comments, whatever follows) is accepted exactly if the text is nested within the limit, and otherwise refused by the exception; the value is the one denoted |
| LenientConverse.AcceptedIsText | src/libs/jsoncpp/jsoncpp.cpp:350-387 | the converse: whatever is accepted starts with a text of that grammar, each object and array closed by its own bracket, nested within the limit, which ends where the reader stops and denotes the value read |
| JsonRejection.RejectionIsExplained | src/libs/jsoncpp/jsoncpp.cpp:389-773 | whatever document is rejected, the error names a token of the document and says what is expected in its place |
| JsonRejection.ThrowsOnlyDeep | src/libs/jsoncpp/jsoncpp.cpp:389-464 | the exception is thrown only on documents with at least 1000 opening brackets |
| JsonAcceptance.TextIsLoose | src/libs/jsoncpp/jsoncpp.cpp:389-773 | every text of RFC 8259 (a number that stands alone must end where it ends) is a text of the lenient grammar, of the same depth and with the same value |
| JsonAcceptance.CharsAreRead | src/libs/jsoncpp/jsoncpp.cpp:866-968 | every string of RFC 8259 section 7, with any escapes (surrogates in pairs, hexadecimal digits in either case), is decoded to the characters it stands for |
| JsonAcceptance.NumberToken | src/libs/jsoncpp/jsoncpp.cpp:647-667 | every number of RFC 8259 section 6 is read as one token, whatever its fraction and exponent |
| JsonAcceptance.JsonTextIsAccepted | src/libs/jsoncpp/jsoncpp.cpp:350-387 | every document that starts with a JSON text of RFC 8259 is accepted exactly if the text is nested within the limit, with the value denoted (the last of equal names counts), whatever follows, except that a number must end where it ends (no digit, dot or exponent sign follows) |
| JsonRoundTrip.WrittenIsText | src/libs/jsoncpp/jsoncpp.cpp:4447-4506 | what the writer writes for a value without floating point, with any bytes in strings and keys, is a text of RFC 8259, and denotes the value written up to tags and repair |
| JsonRoundTrip.TextIsPrintable | src/libs/jsoncpp/jsoncpp.cpp:4254-4424 | whatever bytes the strings and keys of a value without floating point hold, its text has no control characters |
| JsonRoundTrip.DocumentReadsBack | src/libs/jsoncpp/jsoncpp.cpp:4447-4506 | parse after write, with any bytes following: every value of null, booleans, 64-bit integers, strings, arrays and objects, with any bytes in strings and keys, comes back (integers tagged by size, strings and keys repaired, the last of keys that become equal) exactly when it is nested within the limit, and is otherwise refused by the exception |
| JsonRoundTrip.GatheredInOrder | src/libs/jsoncpp/jsoncpp.cpp:3464-3505 | members under keys that are valid UTF-8 come back each under its own key, in the same order |
| JsonReparse.ValueFits | src/libs/jsoncpp/jsoncpp.cpp:389-464 | whatever the parser accepts is within the nesting limit, in key order and within 64 bits |
| JsonReparse.AcceptedDocumentIsStable | src/libs/jsoncpp/jsoncpp.cpp:330-387 | a value without floating point accepted from any document can be written and is accepted again, unchanged exactly if its strings and keys are valid UTF-8; what was read then is read the same ever after, whatever follows it |
| Messages.SerializeClient | src/shared/client_message.cpp:4-32 | building the members one by one gives the document of the message |
| Messages.ClientMessageIsUnderstood | src/shared/client_message.cpp:4-32 | a serialised client message, followed by any bytes, is parsed and understood as the command it was meant to be, its text repaired where it is not valid UTF-8 |
| WireText.ClientDocument | src/shared/client_message.cpp:4-32 | the document of a client message, byte by byte: its keys, the numbers of its type, its quoted text |
| Messages.ClientMessageTakesEffect | src/server/client_message_handler.cpp:263-303 | serialise, parse and handle together act on every server state as the command itself, whether the sender is connected or not, overruns included |
| Messages.ValueIsHandled | src/server/client_message_handler.cpp:263-303 | of all values, exactly those throw that are neither objects nor null, or lack a number or a text where one is read; of the others exactly the follows by somebody connected of a name too long for the payload overrun it |
| Messages.OtherValuesDoNothing | src/server/client_message_handler.cpp:263-303 | a value of an unknown type, and a send or follow by somebody not connected, changes nothing and is not answered |
| Messages.TypesRead | src/server/client_message_handler.cpp:270-271 | which values of msg_type count as which type: null and false as a login, true as a logout, and reals as what they are truncated to |
| Messages.TextsRead | src/server/client_message_handler.cpp:273-293 | what is read as a text: a string itself, nothing for null, any other scalar as it is written |
| ReceivedValues.ValuesRun | src/server/server.cpp:77-139 | over any sequence of received values the server runs, and sends, as on the commands these are in their states, and it ends exactly at the first value that throws or overruns |
| ReceivedValues.FollowIsEchoed | src/server/client_message_handler.cpp:17-67 | end to end: the document of a follow, parsed and handled, overruns the payload exactly if the name up to its first NUL has 160 bytes or more, and is otherwise answered with the name up to its first NUL |
| ReceivedValues.NulIsCut | src/server/client_message_handler.cpp:60-61 | a name with a NUL is received whole, and echoed only up to it |
| ReceivedValues.EmptyArrayEndsTheServer | src/server/client_message_handler.cpp:270-271 | the document [] is accepted by the parser and makes the handler throw in every state whose session maps agree, and so in every reachable one |
| ServerMessage.SerializeServer | src/server/server_message.cpp:10-57 | building the members one by one gives the document of the message |
| ServerMessage.PutBetween | src/libs/jsoncpp/jsoncpp.cpp:3464-3505 | a member set between others goes to its place in key order |
| ServerMessage.ServerMessageReadsBack | src/client/client_receiver.cpp:15-32 | a client whose buffer still holds older bytes reads each server message as its payload holds it exactly if the texts are valid UTF-8, and repaired if not |
| ClientReceiver.ClientIsTold | src/client/client.cpp:183-225 | every message of the server, serialised, received into a dirty buffer and parsed, tells the client exactly its kind (by the numbers of the enumeration), its id and its texts, repaired where they are not valid UTF-8; the four answers to a login are read by src/client/login.cpp:31-66 |
| ServerPayload.ServerMsgPayload.SetName | src/server/client_message_handler.cpp:60-61 | whatever the memory held, the name read back is the one copied, up to its first NUL |
| ServerPayload.ServerMsgPayload.SetMessage | src/server/notification.cpp:91-94 | whatever the memory held, the body read back is the one copied, and the author too, unless the name fills its array: then the body follows it |
| ServerPayload.RunsOn | src/server/server_message.h:8-20 | a copy that starts within a text takes the place of its end, terminator included |
| ServerPayload.CopiedIsMeant | src/server/server_message.h:8-20 | a valid message is read from its payload as written exactly if the author has fewer than 20 characters |
| ServerPayload.CopiedTellsApart | src/server/server_message.h:8-20 | even messages run together can be told apart: no two valid ones are read alike |
| ServerTexts.HandleValid | src/server/client_message_handler.cpp:263-303 | every datagram keeps all names and stored messages valid, and every message carried is the copy of a valid one |
| ServerTexts.DueAsWritten | src/server/notification.cpp:91-94 | what a follower is due is the message as its author wrote it exactly if the name has fewer than 20 characters, else the name is followed by the body |
| ServerWire.PacketsArrive | src/server/server.cpp:77-139 | over every run: each packet whose id fits an int has a document without early end, and parses at a client with a dirty buffer to what its payload holds, so that the client is told what is meant; the message of another user arrives as sent exactly if the author has fewer than 20 characters (and the time is valid UTF-8) |
| ServerWire.StartIsValid | src/server/user_persistence.cpp:114-131 | a start from good files has only valid names, so that every run from it is one of these |
| ServerActions.HandleIsProper | src/server/client_message_handler.cpp:263-303 | every message the handlers issue carries the payload its kind calls for, and only users are sent the messages of others |
| ServerMessage.ServerSender.SendAll | src/server/server_sender.cpp:34-48 | one datagram for each queued message, in order |
| UserConnection.OneRelation | src/server/user_connection.cpp:35-114 | in agreeing maps an address maps to a user exactly if it is in one of the user's slots; a present user has one or two different sessions |
| UserConnection.AddedAgrees | src/server/user_connection.cpp:35-77 | connecting adds exactly that session, keeps the agreement and touches nobody else |
| UserConnection.RemovedAgrees | src/server/user_connection.cpp:79-114 | disconnecting removes exactly that session, and the user with the last one, and keeps the agreement |
| UserConnection.CountedAgrees | src/server/user_connection.cpp:116-128 | taking a message id changes no session, and the id is 0 exactly for users not connected |
| UserConnection.UserConnectionManager.AddOrUpdateUserAddress | src/server/user_connection.cpp:35-77 | the new maps, on every branch |
| UserConnection.UserConnectionManager.RemoveAddress | src/server/user_connection.cpp:79-114 | the new maps; with agreeing maps neither the failed lookup nor the branch for an improper address can be taken |
| UserConnection.UserConnectionManager.GetNextMsgId | src/server/user_connection.cpp:116-128 | the next id of a present user, 0 for others |
| UserConnection.UserConnectionManager.GetAddressFromUser | src/server/user_connection.cpp:130-142 | the sessions of the user |
| UserPersistence.RegisteredKeeps | src/server/user_persistence.cpp:138-158 | a fresh id collides with none, names and ids stay mutually inverse, and nobody else changes |
| UserPersistence.FollowedKeeps | src/server/user_persistence.cpp:172-196 | follow lists stay free of duplicates, of oneself and of strangers; exactly one list grows, by the follower if new |
| UserPersistence.UserPersistence.constructor | src/server/user_persistence.cpp:114-131 | the maps and the largest id rebuilt from loaded records |
| UserPersistence.UserPersistence.AddOrUpdateUser | src/server/user_persistence.cpp:138-158 | the known id, or the next one with a snapshot queued |
| UserPersistence.UserPersistence.AddFollow | src/server/user_persistence.cpp:172-196 | the search loop finds a follower exactly if listed; otherwise the list grows and a snapshot is queued |
| UserPersistence.UserPersistence.DrainPendingNotifications | src/server/user_persistence.cpp:288-304 | returns the whole pending list and empties it |
| Notification.NotificationManager.AddNotification | src/server/notification.cpp:62-126 | both loops: a message with the next id, read from the payload it was copied into, for each follower online, and one stored notification with an entry for each follower offline |
| Notification.NotificationManager.DecrementPendingUsersFrom | src/server/notification.cpp:146-158 | the count goes down, and the notification goes with the last one |
| ClientMessageHandler.ClientMessageHandler.HandleFollowCommand | src/server/client_message_handler.cpp:17-67 | state and actions after a follow, on every branch; the name echoed is what the payload holds after the copy |
| ClientMessageHandler.ClientMessageHandler.HandleSendCommand | src/server/client_message_handler.cpp:69-132 | state and actions after a send: the reply's id is taken first, the reply comes last |
| ClientMessageHandler.ClientMessageHandler.HandleLoginCommand | src/server/client_message_handler.cpp:134-243 | state and actions after a login, with its three refusals |
| ClientMessageHandler.ClientMessageHandler.DeliverPending | src/server/client_message_handler.cpp:203-242 | the loop over the drained entries, each message read from the payload it was copied into |
| ClientMessageHandler.ClientMessageHandler.HandleLogoutCommand | src/server/client_message_handler.cpp:245-261 | state after a logout; what that is, `ServerEffects.LogoutReply` says |
| ClientMessageHandler.ClientMessageHandler.HandleIncomingDatagram | src/server/client_message_handler.cpp:263-303 | the step of the state machine for each kind of message |
| ServerInvariant.FannedOutState | src/server/notification.cpp:70-108 | the followers found offline are exactly those, each once; the branch for an unknown follower is never taken |
| ServerInvariant.MoreEntries | src/server/notification.cpp:110-125 | an entry added to each of several lists adds as many entries for its notification, and none for others |
| ServerInvariant.NotifiedKeeps | src/server/notification.cpp:62-126 | sending keeps the whole invariant |
| ServerInvariant.DeliveredState | src/server/client_message_handler.cpp:203-242 | every drained entry is found: each notification named loses exactly one pending user and is removed exactly with the last |
| ServerInvariant.EntriesCleared | src/server/user_persistence.cpp:288-304 | draining a list takes away exactly one entry for each notification it names |
| ServerInvariant.ClearedKeeps | src/server/client_message_handler.cpp:203-242 | counting down what was drained leaves every other entry backed by a stored notification and every count right |
| ServerInvariant.LoginKeeps | src/server/client_message_handler.cpp:134-243 | a login keeps the whole invariant, in particular that nothing waits for a connected user |
| ServerInvariant.HandleKeeps | src/server/client_message_handler.cpp:263-303 | every datagram keeps the whole invariant: session maps, identities, follow graph, nothing waiting for users online, entries backed, counts right |
| ServerDelivery.FannedOutNotices | src/server/notification.cpp:70-108 | the message goes to each follower online, once, and to nobody else |
| ServerDelivery.DeliveredNotices | src/server/client_message_handler.cpp:203-242 | login brings exactly the messages behind the pending list, in order, to that user and to nobody else |
| ServerDelivery.HandleDelivers | src/server/client_message_handler.cpp:69-243 | for every datagram and user: what it delivers, then what waits after it, is what waited before it, then the message due |
| ServerRun.DeliveryOverRun | src/server/client_message_handler.cpp:69-243 | over every run from any good state: delivered, then waiting, equals waiting at first, then due |
| ServerRun.ExactlyOnce | src/server/client_message_handler.cpp:69-243 | over every run from a start: each accepted message, as payloads carry it, reaches each of its sender's followers exactly once and in order, at once or at their next login |
| ServerMessageIds.HandleIds | src/server/user_connection.cpp:116-128 | for every datagram and user: the ids it issues for a user connected after it are the next ones in order, and none is issued for others |
| ServerMessageIds.AcceptedIds | src/server/client_message_handler.cpp:69-132 | the sender's id is taken first and issued last without disorder, because nobody follows themselves |
| ServerRun.IdsAreGapFree | src/server/user_connection.cpp:116-128 | over every run: in each online period the ids issued are 1, 2, 3, ... in this order |
| ServerRun.NotificationsAreCounted | src/server/notification.cpp:110-158 | in every reachable state each stored notification counts its pending entries, at least one, and each entry names a stored notification by the same author |
| ServerRun.SessionsAgree | src/server/user_connection.cpp:35-142 | in every reachable state the two session maps are one relation, with one or two different sessions for each user online, for whom nothing waits |
| ServerRun.UsersAgree | src/server/user_persistence.cpp:114-196 | in every reachable state names and ids are mutually inverse, ids lie between 1 and the last one, and follow lists are duplicate-free, irreflexive and closed |
| ServerReplies.LoginReply | src/server/client_message_handler.cpp:134-243 | the reply to a login: which of the four outcomes, each exactly on its own condition; success makes the address a session of the user and has an id, failure has the id 0 and leaves sessions and notifications alone |
| ServerReplies.FollowReply | src/server/client_message_handler.cpp:17-67 | the reply to a follow: the name up to its first NUL, so the name asked for exactly if it has none; success exactly if another user has the name, who is then followed; no list loses anyone or gains anyone else; without a session there is no reply and no effect |
| ServerReplies.SendReply | src/server/client_message_handler.cpp:69-132 | the reply to a send: success exactly for a valid body; failure delivers and stores nothing; without a session there is no reply and no effect |
| ServerEffects.HandleAsSaid | src/server/client_message_handler.cpp:17-303 | for every datagram, who is at every address, which id every name has and who follows whom afterwards: a successful login connects its address alone, a logout frees its address alone, a valid name is registered even by a login that is refused, and a follow adds one follower at the end of one list |
| ServerEffects.LogoutReply | src/server/client_message_handler.cpp:245-261 | a logout: nobody is at the address afterwards, every other session stays, the user is online exactly if they have another session, with the same last id; users and notifications are unchanged and nothing is issued |
| ServerRun.NoActionIsLost | src/server/server.cpp:95-136 | every action of every handler is dispatched as one or two datagrams to different addresses; a user addressed is online then, and each of their sessions gets one |
| ServerRun.DispatchIsExact | src/server/server.cpp:95-136 | each address receives exactly the messages meant for it, once and in order |
| ServerRun.MessageLoop.Dispatch | src/server/server.cpp:95-136 | the loop over the actions pushes exactly their datagrams |
| ServerRun.MessageLoop.Turn | src/server/server.cpp:77-139 | one turn of the main loop: the run of the datagrams drained, all its datagrams queued, no action left over |
| ServerRun.StateAfter | src/server/server.cpp:77-139 | every state reached satisfies the invariant |
| ServerArrival.NoticesArrive | src/server/server.cpp:77-139 | for every datagram: at each session a user has after it arrive exactly the messages issued for the user, in order; nothing arrives at an address without a user |
| ServerArrival.SessionReceivesAll | src/server/server.cpp:77-139 | end to end: from the login that makes an address a session of a user, over every run in which it stays one, what arrives there are the messages that waited and then exactly the accepted messages of those the user follows at the time, each once and in order |
| ServerArrival.SessionCompletes | src/server/server.cpp:77-139 | counted from a start: what was issued to the user before the login, then what arrives at the session, is everything the user was due |
| DiskRecord.RecordReadsBack | src/server/disk_operations.cpp:206-229 | a record whose numbers fit an int and whose length fits 32 bits is read as it was written |
| DiskRecord.ByteOfWord | src/server/disk_operations.cpp:206-229 | the bytes of a number, lowest first, as a little-endian machine stores an int |
| DiskRecord.EncodeRecord | src/server/disk_operations.cpp:206-229 | the writing loop fills the buffer with exactly the record's bytes |
| DiskRecord.DecodeRecord | src/server/disk_operations.cpp:102-155 | the reading loop computes the specification on every file, wrapped lengths and exhausted files included |
| DiskRecord.AcceptedFiles | src/server/disk_operations.cpp:107-139 | a file is accepted exactly if it is at least two whole words and its header counts the followers in it modulo 2^30; the record then has those followers exactly if the header is below 2^30 |
| DiskRecord.WrappedHeaderIsAccepted | src/server/disk_operations.cpp:135-155 | a file of eight bytes that announces 2^30 followers is accepted with that many, each the last word of the file: the length check wraps around |
| UserDirectory.DirectoryReadsBack | src/server/disk_operations.cpp:82-92 | a directory of valid names reads back as the same list |
| UserDirectory.LinesAreRead | src/server/disk_operations.cpp:82-92 | any lines: exactly the valid names among them are read, in order, and a last line counts without a line feed |
| UserDirectory.ReadNames | src/server/disk_operations.cpp:82-92 | the getline loop finds exactly the valid names among the lines, in order |
| UserDirectory.Directory.AddUser | src/server/disk_operations.cpp:18-30 | a name is added exactly if it is new |
| DiskStore.DiskOperationsManagement.LoadAndUpdatePersistentData | src/server/disk_operations.cpp:60-180 | the records of the files listed, the bad ones skipped, and the directory remembered |
| DiskStore.DiskOperationsManagement.UpdateUserOnDisk | src/server/disk_operations.cpp:189-260 | the files and the directory after a snapshot; where the file cannot be opened the name is known from then on, and nothing is written or listed |
| DiskStore.DiskOperationsManagement.UpdateUsersOnDisk | src/server/disk_operations.cpp:269-272 | a drained batch applied in order |
| DiskStore.LoadRepresents | src/server/disk_operations.cpp:60-180 | files that hold certain records load as exactly these, in order |
| DiskStore.LoadingKeeps | src/server/disk_operations.cpp:60-180 | what loading leaves behind, in the files and in memory, holds the same records; a missing directory has been made, and no other file |
| DiskStore.UpdatedRepresents | src/server/disk_operations.cpp:189-260 | a snapshot applied to the files replaces or adds exactly its record, if its user has a file of their own |
| DiskStore.TornWrite | src/server/disk_operations.cpp:189-260 | between the two writes for a new user, loading gives the records before it |
| DiskStore.TornOpen | src/server/disk_operations.cpp:194-203 | between opening and writing the file of a known user, loading gives all records but this user's |
| DiskStore.NewUserIsKept | src/server/disk_operations.cpp:194-260 | a new user's snapshot is kept with all others exactly if the path of the name leads to a file of its own; if it cannot be opened the records before remain, if it is the directory the disk loads as empty |
| DiskStore.OrdinaryNames | src/server/disk_operations.cpp:194-203 | among names without a slash only the directory's own name has no file of its own |
| DiskStore.BadNamesAreValid | src/shared/shared_helpers.cpp:4-45 | names with slashes, and the directory's name, pass for usernames |
| ServerTypes.CheckAscii | src/shared/shared_helpers.cpp:27-48 | the loop decides whether all characters are printable, the space only if allowed |
| ServerTypes.ValidityBounds | src/shared/shared_helpers.cpp:4-25 | names have 4 to 20 characters from ! to ~, messages 1 to 128 from the space to ~, at every length and for every character |
| ServerTypes.OneBadCharacter | src/shared/shared_helpers.cpp:27-48 | one other character, wherever it stands, makes a name or a message invalid |
| SpoiltDirectory.FewNames | src/server/disk_operations.cpp:82-92 | a directory overwritten by a user's record lists fewer names than the record has followers, their user, and the lines added since |
| DiskHistory.RegisteredSaves | src/server/user_persistence.cpp:138-158 | the snapshot of a new user turns records that save the old users into records that save the new ones |
| DiskHistory.FollowedSaves | src/server/user_persistence.cpp:44-77 | the same for the snapshot of a follow |
| DiskHistory.HandleSaves | src/server/client_message_handler.cpp:263-303 | a datagram queues at most one snapshot, and with it the records again save the users |
| DiskHistory.QueueGrows | src/server/user_persistence.cpp:60-77 | each prefix of the queue was the whole queue after some prefix of the run |
| DiskHistory.DiskIsAnEarlierState | src/server/disk_operations.cpp:189-260 | after any k snapshots, the disk loads as exactly the users, ids and follow lists that memory had after its k-th mutation, if the users have files of their own |
| DiskHistory.TornUpdateIsInvisible | src/server/disk_operations.cpp:189-260 | a stop before the directory line of a new user is written leaves the state before, whether their file is opened or written |
| DiskHistory.RebuiltWithout | src/server/user_persistence.cpp:114-131 | without the record of one user, a start rebuilds all other users and names and nothing of this one |
| DiskHistory.RunIsKeepable | src/server/disk_operations.cpp:189-260 | the snapshots of a run with fewer than 2^30-2 users, each with a file of their own, can all be held by the disk |
| DiskHistory.StartIsGood | src/server/user_persistence.cpp:306-312 | files that hold the records of users once in memory are good files to start from |
| DiskHistory.FirstStart | src/server/user_persistence.cpp:306-312 | a start without any files is a good one |
| DiskHistory.LoadUserPersistence | src/server/user_persistence.cpp:306-312 | a start rebuilds the users that the files hold |
| RestartCondition.SharedIsLost | src/server/disk_operations.cpp:194-203 | two users whose names lead to one file are not both loaded |
| RestartCondition.UnopenedIsLost | src/server/disk_operations.cpp:194-203 | a user whose file cannot be opened is not loaded |
| RestartCondition.SpoiltIsLost | src/server/disk_operations.cpp:244-260 | once a user's file has been the directory, the disk lists too few names for all users |
| RestartCondition.LostIdIsReissued | src/server/user_persistence.cpp:114-131 | the id of a new user who could not be written is given to somebody else after the restart |
| RestartCondition.RunSurvives | src/server/disk_operations.cpp:189-260 | with fewer than 2^30-2 users, a run survives a restart exactly if each user has a file of their own: one that can be opened, is nobody else's and is not the directory |
| WriteBehind.AnyStopIsAnEarlierState | src/server/disk_operations.cpp:189-280 | in every interleaving of main and disk thread, stopped anywhere (before, between and after the steps of an update: opening the file, writing it, adding the directory line), the disk loads as the state of memory after the snapshots finished by then, if each user has a file of their own, exactly unless a known user's file is open and not yet written; then exactly that user is missing. Under the same condition the next process finds good files and starts from them as the first one did, so restarts can follow one another |
| WriteBehind.AllAreHandled | src/server/server.cpp:77-148 | in every interleaving exactly the datagrams before the stop have been handled, in order, and exactly their snapshots pushed |
| WriteBehind.DiskAdvances | src/server/disk_operations.cpp:262-280 | after the stop each step of the disk thread, the single writes included, brings its exit nearer |
| WriteBehind.CleanRestart | src/server/server.cpp:141-148 | after a clean shutdown, in every interleaving, the restart rebuilds the same maps and last id exactly if each user has a file of their own |
| ShutdownLoop.NothingIsLeft | src/server/server_sender.cpp:34-48 | in every interleaving the worker deals with the items of the pushes before the flag, in their order, and with all of them before it exits, which it does only after the flag is raised |
| ShutdownLoop.ExitIsReached | src/server/disk_operations.cpp:262-280 | once the flag is raised, a bounded number of worker steps leads to the exit with everything done, so the join returns |
| ReadersWriter.StepKeepsProtocol | src/shared/atomic.h:78-136 | every step of every thread (a load, a store, a test or a semaphore operation) keeps the count that of the counted readers and the semaphores in balance with their holders |
| ReadersWriter.MutualExclusion | src/shared/atomic.h:78-136 | in balance, no writer is in its section together with a reader or another writer |
| SharedValue.StepKeeps | src/shared/atomic.h:78-136 | every step of every thread keeps protocol and data: what is copied is the current value, what is written is current once complete |
| SharedValue.RunKeeps | src/shared/atomic.h:64-160 | every interleaving of any number of threads keeps the invariant |
| SharedValue.RunIsExclusive | src/shared/atomic.h:78-136 | the semaphores stay in {0, 1}, the count is that of the counted readers, and no writer is in its section with a reader or another writer |
| SharedOperations.OperationOf | src/shared/atomic.h:78-160 | over every run each thread that is not idle carries out the operation of one of its own moves: a script done and still to do is the script it was started with |
| SharedOperations.ReadIsNotTorn | src/shared/atomic.h:78-100 | a read that returns was started as a read, and returns, copied word by word, the whole value that was current at some instant since its start |
| SharedOperations.SectionIsAtomic | src/shared/atomic.h:102-160 | an exclusive section that ends (write, read_and_replace, or anything between lock and unlock) has done all of the script it was started with: from a place in the history reached since its start the variable held exactly the values put, one after the other, and the values got are those of a variable that nobody else touches |
| SharedOperations.WriteStores | src/shared/atomic.h:102-121 | a write that ends has stored its value, since it was started |
| SharedOperations.ReplaceReturnsReplaced | src/shared/atomic.h:124-136 | read_and_replace stores its value and returns the value that this replaced |
| SharedOperations.HistoryIsPut | src/shared/atomic.h:102-160 | the variable never holds anything but its first value and what some started operation puts |
| ReadersWriter.NoDeadlock | src/shared/atomic.h:78-160 | whenever some thread has not finished, some unfinished thread can make a step |
| SharedOperations.OperationAdvances | src/shared/atomic.h:78-160 | every step of a thread brings the end of its operation nearer, by a number of steps known from its place, and an operation ends only by returning |
| SharedOperations.OperationsEnd | src/shared/atomic.h:78-160 | in every reachable state with an unfinished operation, one can make such a step |
| DrainQueue.DrainIsExact | src/shared/atomic.h:244-269 | in every interleaving the batches drained, then the queue, are the items of the operations, as their moves gave them, whose critical sections are over, each once and all in lock order; every thread is where its own operation is |
| DrainQueue.OverIsDone | src/shared/atomic.h:244-269 | an operation that has returned has been through its critical section |
| DrainQueue.PushHandsOn | src/shared/atomic.h:244-259 | a push that has returned has handed on its items, whole, in order and once: all handed on is what came before, its items, and what came after |
| DrainQueue.DrainReturnsItsBatch | src/shared/atomic.h:261-269 | a drain returns the batch it has taken at its place in lock order |
| DrainQueue.OneInside | src/shared/atomic.h:244-269 | between wait and post there is one thread at most |
| DrainQueue.NoDeadlock | src/shared/atomic.h:244-269 | some unfinished thread can always make a step |
| DrainQueue.OperationAdvances | src/shared/atomic.h:244-269 | every step of a thread brings the end of its operation nearer |

## Left out

- JsonRoundTrip.DocumentReadsBack: values with floating-point numbers are not included, because their texts are made and read by the C++ library. The reader and the writer are modelled for them with uninterpreted functions (`Doubles`).
- JsonAcceptance.JsonTextIsAccepted: a number beyond 64-bit integers must be one that the C++ library can read; an escaped surrogate must be one of a pair, since a single one stands for no character.
- JsonReader.Reader.Read: an error is its token and message; the extra position of some errors, the offsets of values, the line and column texts, and comments as values are not modelled, and when the stack limit throws, the partly filled root is not.
- JsonWriter.FastWriter.Write: only the default options, the ones the programs use.
- DiskRecord.EncodeRecord: records of 4 GiB and more, for which the writer's buffer is too small, are excluded.
- DiskStore.DiskOperationsManagement.UpdateUsersOnDisk: the same for each record of a batch.
- DiskStore.DiskOperationsManagement.UpdateUserOnDisk: opening a file, which empties it, and one write are each atomic. Whether and where a name's file can be opened is an unknown function of the name that does not change while the system runs; the directory itself can always be opened.
- ServerMessage.SerializeServer: a payload is given by the texts read from it; `ctime` is an uninterpreted function.
- ServerPayload.ServerMsgPayload.SetMessage: the layout is that of a 64-bit platform (a time of eight bytes, aligned to eight), and a copy that leaves its array but not the union does what this layout gives, which C++ itself leaves undefined. After a copy that leaves the union nothing is said.
- Messages.SerializeClient: the text is what the client's payload holds; how the client fills it is not modelled.
- Messages.ClientMessageIsUnderstood: a message id is within an int.
- ServerRun.MessageLoop.Turn: one turn on the datagrams drained; the endless loop and the interruption flag are the runs and the moves of `WriteBehind`.
- SharedOperations.OperationsEnd: fairness is not claimed; writers may wait for ever behind readers.
- WriteBehind.AnyStopIsAnEarlierState: handling a datagram and pushing its snapshot, of which there is at most one, is one step, as is draining the queue; `DrainQueue` takes the queue's own steps apart.
- ShutdownLoop.NothingIsLeft: the receiver thread, which is not joined, and its queue are not part of this model.
- User, notification and message ids are unbounded integers; their wrap-around at 2^31 is not modelled.
- Sockets, address resolution, datagram loss, thread creation and signals: plumbing around one received datagram.
- The client's console, its input mailbox and its printing; what it reads from a message is `ClientReceiver`.
- JsonRejection.RejectionIsExplained: which of several reasons is reported first is only in the specification of the reader.
- The other readers and writers of the JSON library, its paths, iterators and memory management: not used here.
- `add_notification` and `get_notifications` of the user store: no caller.
- Replication and leader election, which the repository lists as pending.
