# chat_app_cli: a verified model of the client's decision core

chat_app_cli is a terminal chat client written in Go. It talks to a REST
backend. This project models, in Dafny, the parts of the client that decide
things:

- the raw-mode key loops of the receive command and of the friend-requests
  command (Ctrl+R, Ctrl+S, Ctrl+C), including which terminal settings are
  restored, when, and how often;
- `makeRaw`/`restore` as a transformation of a `termios` record;
- the numbered selection of a friend or a request, the respondable-request
  filter, the accept/reject choice and the friend-requests menu;
- the conversation filter and how each kept message is labelled;
- the `Friend` id and username fallbacks;
- `addFriend`'s duplicate check and append, with the add-friend command
  around it (current and alpha copies);
- the send command (current and stable copies);
- the beta signup checks, password mask and status mapping;
- the interactive user search loop and `sendFriendRequest`'s status rules;
- the beta friend-requests menu and the stable command dispatch.

The process is a `World` value (module `Console`):

- the terminal's current settings;
- the input not yet read;
- a script of `ioctl` faults for successive `makeRaw` calls;
- a script of backend replies;
- a trace of what the process has done: raw-mode entries, restores,
  backend calls, printed notices and listings, and `os.Exit` calls.

Each Go function becomes a pure function from one `World` to the next. A
`Console` class holds the same state in fields. Each imperative Go function
also becomes a method on that class, whose postcondition is that the
method's result and new state equal the pure function applied to the old
state. The lemmas state the source's promises about the pure functions,
mostly by reading the trace: which calls were made, in what order, which
settings were restored, what was exited and what came last.

Two behaviours of the Go code a reader may not expect:

- Ctrl+C in the receive loop prints "Exiting..." and calls `os.Exit(0)`.
  Go does not run deferred calls on `os.Exit`, so the terminal is NOT
  restored on that path. `ReceiveMessage.SessionExits` proves that the
  terminal is left raw.
- The space check of `getUsername` (source_code/src/beta/modules/signup.go:65-67)
  can never fire. `fmt.Scanln` stops at white space, so a scanned name
  holds none (`Signup.ScannedNameHasNoSpace`). The check is still modelled.

## Model

| member | source | states |
|---|---|---|
| Terminal.RawSettings | src/receive_message.go:167-171 | the applied record is raw (ICANON and ECHO clear, VMIN 1, VTIME 0) and agrees with the captured one in every other field and flag bit |
| Terminal.OnlyRawRecordKeepingTheRest | src/friend_requests.go:312-316 | any raw record that keeps everything else of `t` is the record makeRaw applies |
| Terminal.RawSettingsUnique | src/receive_message.go:167-171 | a record is makeRaw's result for `t` if and only if it is raw and keeps every other field and bit of `t` |
| Terminal.RawSettingsFixedExactlyWhenRaw | src/friend_requests.go:313-316 | applying raw mode changes nothing exactly when the terminal is already raw |
| Console.World.MakeRaw | src/receive_message.go:158-180 | a failed get or set leaves the device unchanged and returns an error; on success the captured record is the old one and the device holds its raw form |
| Console.RestoreUndoesMakeRaw | src/friend_requests.go:303-333 | restoring the record makeRaw returned gives back the settings found, and makeRaw changed the device iff it was not raw already |
| Console.World.ReadByte | src/receive_message.go:89-95 | a one-byte read returns the next input byte, and fails exactly at the end of input |
| Console.World.ReadLine | src/receive_message.go:406-410 | ReadString('\n') returns the input through the first newline; with no newline it consumes the rest and fails |
| Console.World.ScanToken | src/search.go:61-62 | fmt.Scanln changes only the input and consumes some of it unless none is left, when it gives the empty string |
| Console.World.ReadPassword | source_code/src/beta/modules/signup.go:77-80 | term.ReadPassword fails exactly at the end of input; otherwise it consumes input and returns one line without its newline |
| Console.World.Call | src/friend_requests.go:252-290 | one backend round trip is recorded and consumes the next scripted reply; none left means unreachable |
| Text.TrimSpace | src/receive_message.go:412-413 | the trimmed string starts and ends with a non-space, and is empty iff the input is all white space |
| Text.TrimSpaceKeepsTrimmed | src/friend_requests.go:206 | a string without white space at either end trims to itself |
| Text.TrimSpaceIdempotent | src/friend_requests.go:226 | trimming twice equals trimming once |
| Text.Atoi | src/friend_requests.go:207 | a value strconv.Atoi accepts lies in the int64 range, comes from a string with no white space at either end, and is not written with a minus sign when positive |
| Text.AtoiDecimal | src/friend_requests.go:207-213 | Atoi reads back the decimal spelling of every non-negative int64 |
| Text.Utf8Len | source_code/src/beta/modules/signup.go:60 | len counts UTF-8 bytes: at least the rune count, and equal to it iff every rune is ASCII |
| Text.Repeat | source_code/src/beta/modules/signup.go:135 | strings.Repeat of one rune gives exactly n copies |
| Types.Friend.GetUserID | source_code/src/types.go:36-41 | friend_id when non-empty, else user_id; empty only when both are |
| Types.Friend.GetUsername | source_code/src/types.go:44-49 | friend_username when non-empty, else username; empty only when both are |
| Types.LegacyEntriesKeepTheirIdentity | source_code/src/types.go:36-49 | a friends.json entry read as a Friend answers with its own user_id and username |
| Types.ApiFieldsTakePrecedence | source_code/src/types.go:37-39 | API fields win over legacy fields whenever they are set |
| Selection.Select | src/receive_message.go:263-277 | non-numeric input is an error, a number outside [1, len] is another, otherwise the item numbered n (index n-1) is returned |
| Selection.SelectByNumber | src/modules/receive_message.go:165-173 | typing the number shown next to an item selects exactly that item |
| Selection.Choose | src/send_message.go:154-168 | the choice is one Scanln field and the result is Select of it; nothing but the input changes |
| Selection.ReadChoice | source_code/src/alpha/receive_message.go:143-157 | the numbered selection over the console equals Choose |
| Conversation.Filter | src/receive_message.go:342-351 | the kept list is no longer than the conversation |
| Conversation.FilterExactly | src/receive_message.go:347-348 | a message is kept iff it is in the conversation and goes from me to the friend or from the friend to me |
| Conversation.FilterAppend | src/modules/receive_message.go:230-239 | filtering distributes over concatenation, so the original order is kept |
| Conversation.FilterSymmetric | source_code/src/alpha/receive_message.go:209-227 | swapping the two ids keeps the same messages |
| Conversation.FilterIdempotent | src/receive_message.go:342-351 | filtering a filtered list changes nothing |
| Conversation.FilterConversation | src/receive_message.go:342-351 | the append loop builds exactly Filter |
| Conversation.Describe | src/receive_message.go:371-390 | "You" iff I sent it; otherwise the friend; Read iff read, else Delivered for my messages and Unread for the friend's |
| Conversation.Entries | src/modules/receive_message.go:260-276 | one entry per kept message, each described by Describe, in order |
| Conversation.DisplayShowsTheConversation | src/receive_message.go:353-392 | with no kept message only "No messages found" is printed; otherwise exactly one entry per kept message, in order; a "You" entry is a message from me to the friend and any other one from the friend to me; in a conversation with oneself every entry is "You" |
| Conversation.ShowConversation | source_code/src/alpha/receive_message.go:208-271 | the display over the console equals Display |
| Conversation.Fetch | src/receive_message.go:281-325 | exactly one GET of the friend's conversation, with no terminal change and no exit; success iff the reply is status 200 with a decodable body |
| Conversation.RunFetch | src/receive_message.go:281-325 | fetchConversation over the console equals Fetch |
| ReceiveMessage.SendFlowOutcome | src/receive_message.go:406-434 | a read error fails; a line blank after trimming is cancelled; otherwise the outcome is Sent iff the backend answers 200 |
| ReceiveMessage.SendFlowCalls | src/receive_message.go:412-432 | no call unless a non-blank line was read; then the trimmed line goes to the friend in one call, and only a delivered message is followed by exactly one fetch |
| ReceiveMessage.SendCallsToPeer | src/receive_message.go:420-429 | every call of the send flow concerns the selected friend |
| ReceiveMessage.HandleSendMessage | src/receive_message.go:398-435 | handleSendMessage over the console equals SendFlow |
| ReceiveMessage.Deliver | src/receive_message.go:420-485 | the message is Sent iff the reply is status 200, whatever the body; one send call to the friend, then one fetch only when sent; no terminal change, no exit, no input read |
| ReceiveMessage.SendMessageToFriend | src/receive_message.go:438-488 | sendMessageToFriend and the refresh after it over the console equal Deliver |
| ReceiveMessage.KeyAction | src/receive_message.go:99-137 | Ctrl+R's action is exactly one fetch and reads nothing; Ctrl+S's makes at most a send and a fetch; every call concerns the friend; neither touches the terminal or exits |
| ReceiveMessage.AfterKeyReenters | src/receive_message.go:112-116 | after a successful re-entry there is one restore of the held snapshot and one entry, no exit, and the new snapshot equals the old |
| ReceiveMessage.AfterKeyCalls | src/receive_message.go:99-137 | a key's pass makes at most two calls, all about the friend |
| ReceiveMessage.AfterKeyOpens | src/receive_message.go:101-121 | a key's pass starts with the restore of the held snapshot |
| ReceiveMessage.AfterKeyGivesUp | src/receive_message.go:113-116 | a failed re-entry returns with the terminal at the deferred snapshot and nothing exited |
| ReceiveMessage.AfterKeyGivesUpLast | src/receive_message.go:87-116 | then the deferred restore is the last event |
| ReceiveMessage.AfterKeyGivesUpRestores | src/receive_message.go:101-116 | a failed re-entry restores twice, the held snapshot then the deferred one, and enters raw mode not at all |
| ReceiveMessage.StepContinues | src/receive_message.go:90-143 | a pass that goes on leaves the terminal raw over the same settings, keeps oldState equal, and exits nothing |
| ReceiveMessage.StepContinuesRestores | src/receive_message.go:97-137 | such a pass does either nothing to the terminal or one restore and one entry |
| ReceiveMessage.StepCalls | src/receive_message.go:97-143 | every call of a pass concerns the friend |
| ReceiveMessage.StepEnds | src/receive_message.go:91-142 | a read error happens only at the end of input and is reported, then the deferred restore; Ctrl+C prints "Exiting..." and exits 0, leaving the terminal as it was; a failed re-entry follows only Ctrl+R or Ctrl+S |
| ReceiveMessage.StepGivesUp | src/receive_message.go:112-136 | a pass that fails to re-enter leaves the terminal at the deferred snapshot, restoring last, and exits nothing |
| ReceiveMessage.StepGivesUpRestores | src/receive_message.go:101-116 | such a pass restores the held then the deferred snapshot |
| ReceiveMessage.ListenReturns | src/receive_message.go:87-95 | when the loop returns, the last event is the deferred restore and the terminal is back at the first snapshot |
| ReceiveMessage.ListenReturnsQuietly | src/receive_message.go:90-145 | a loop that returns exits nothing |
| ReceiveMessage.ListenExits | src/receive_message.go:139-142 | on Ctrl+C the last event is exit 0 and the terminal is still raw, since the deferred restore does not run |
| ReceiveMessage.ListenExitsOnce | src/receive_message.go:139-142 | that exit is the loop's only one |
| ReceiveMessage.ListenBalance | src/receive_message.go:87-132 | restores minus entries: one after a read error, two after a failed re-entry, zero on Ctrl+C |
| ReceiveMessage.ListenRestoresSnapshots | src/receive_message.go:87-121 | only the first snapshot and the held one are ever restored |
| ReceiveMessage.ListenCallsToPeer | src/receive_message.go:104-124 | every call of the loop concerns the selected friend |
| ReceiveMessage.SessionSetupFails | src/receive_message.go:82-86 | when raw mode cannot be entered nothing is read, called or restored |
| ReceiveMessage.SessionReturns | src/receive_message.go:82-95 | a session that returns leaves the terminal exactly as it was found, the deferred restore last, with no exit |
| ReceiveMessage.SessionExits | src/receive_message.go:139-142 | Ctrl+C exits 0 once, as the last event, leaving the terminal raw |
| ReceiveMessage.SessionBalance | src/receive_message.go:82-143 | a failed setup restores and enters nothing; after a read error restores equal successful entries; a failed re-entry adds one restore; Ctrl+C leaves one entry unrestored |
| ReceiveMessage.SessionRestoresEntrySettings | src/receive_message.go:82-112 | every restore applies the settings found on entry, because each re-capture reads the restored record |
| ReceiveMessage.SessionCallsToPeer | src/receive_message.go:104-124 | every call of a session fetches from or sends to the selected friend |
| ReceiveMessage.SkipsUnrecognised | src/receive_message.go:97-143 | bytes other than 3, 18 and 19 are read and ignored |
| ReceiveMessage.OnlyUnrecognisedInput | src/receive_message.go:91-95 | input without a recognised byte is read to the end, then the error is reported and the terminal restored, with no call |
| ReceiveMessage.CtrlCFirstExits | src/receive_message.go:139-142 | when Ctrl+C is the first recognised byte: no call, no restore, exit 0, nothing read after it |
| ReceiveMessage.CtrlRRefreshes | src/receive_message.go:99-117 | Ctrl+R first restores the held snapshot, then fetches the conversation, the pass's only call |
| ReceiveMessage.CtrlSSends | src/receive_message.go:119-137 | Ctrl+S first restores the held snapshot, and the pass makes at most a send and a fetch, all about the friend |
| ReceiveMessage.KeyThenReenters | src/receive_message.go:112-136 | after a key the loop goes on exactly when raw mode is entered again, which is then the last event |
| ReceiveMessage.KeyReentryFails | src/receive_message.go:113-115 | a failed re-entry is followed only by the report and the deferred restore |
| ReceiveMessage.RefreshConversation | src/receive_message.go:103-107 | the Ctrl+R action over the console equals KeyAction for Ctrl+R |
| ReceiveMessage.SendFromLoop | src/receive_message.go:123-127 | the Ctrl+S action over the console equals KeyAction for Ctrl+S |
| ReceiveMessage.WaitForKeys | src/receive_message.go:80-145 | waitForCtrlRInReceiveMessage, a while loop over the console, equals Session |
| ReceiveEntry.Legacy | src/modules/receive_message.go:148-174 | legacy entries become friends with the same ids and names, one for one |
| ReceiveEntry.LegacyFriends | src/modules/receive_message.go:62-66 | a friends list exists exactly when friends.json could be read, and it is then the entries read as friends |
| ReceiveEntry.View | src/receive_message.go:46-70 | the entry of the command leaves the terminal untouched |
| ReceiveEntry.Pick | src/receive_message.go:52-70 | picking from a listed set of friends leaves the terminal untouched and only adds to the history |
| ReceiveEntry.ViewWithoutFriends | src/receive_message.go:46-56 | a failed friends listing, or an empty one, is reported and exits 1 before reading or calling anything |
| ReceiveEntry.LegacyWithoutFile | src/modules/receive_message.go:62-66 | the legacy client exits 1 when friends.json cannot be read, before reading input or calling |
| ReceiveEntry.ViewPicksTheChosenFriend | src/receive_message.go:59-70 | the command goes on with exactly the friend whose number was typed, after one fetch of that friend, without exiting |
| ReceiveEntry.ViewExitsOtherwise | source_code/src/alpha/receive_message.go:49-66 | every other way ends with exit 1 as the last and only exit, with at most one call and the terminal untouched |
| ReceiveEntry.ReceiveTalksOnlyToThePickedFriend | src/receive_message.go:59-74 | the first call fetches the picked friend and every later call concerns that friend |
| ReceiveEntry.LegacyFetchesTheEntry | src/modules/receive_message.go:75-86 | the legacy client fetches with the typed entry's own user_id |
| ReceiveEntry.LegacySelect | src/modules/receive_message.go:75-79 | a number picks a legacy entry exactly when it picks a friend, and the friend carries that entry's user_id |
| ReceiveEntry.OpenConversation | src/receive_message.go:46-70 | the entry after the friends listing, over the console, equals View: a failed or empty listing exits 1, then the choice and the first fetch |
| ReceiveEntry.RunReceive | src/receive_message.go:46-77 | the receive command after the friends listing, over the console, equals Receive: View, then the key loop with the picked friend |
| FriendRequests.RespondableOf | src/friend_requests.go:177-182 | the respondable list is no longer than the fetched one |
| FriendRequests.RespondableExactly | src/friend_requests.go:179 | a request is kept iff it was fetched and its lower-cased status is pending or rejected |
| FriendRequests.RespondableAppend | src/friend_requests.go:178-182 | the filter distributes over concatenation, so order is kept |
| FriendRequests.RespondableIdempotent | src/friend_requests.go:177-182 | filtering twice equals filtering once |
| FriendRequests.AcceptedNeverOffered | src/friend_requests.go:179 | an accepted request, in any letter case, is never offered |
| FriendRequests.CollectRespondable | src/friend_requests.go:177-182 | the append loop builds exactly RespondableOf |
| FriendRequests.ActionFor | src/friend_requests.go:226-238 | accept iff the trimmed line reads as 1, reject iff it reads as 2, and no other action exists |
| FriendRequests.Respond | src/friend_requests.go:175-249 | answering never touches the terminal or exits |
| FriendRequests.RespondWithoutCandidates | src/friend_requests.go:184-188 | with nothing respondable, the notice is printed and nothing is read or called |
| FriendRequests.PickActionCalls | src/friend_requests.go:226-248 | a call is made exactly when a valid action was typed: once, for the chosen sender with that action; success iff status 200 |
| FriendRequests.PickRequestCalls | src/friend_requests.go:206-213 | an unreadable line or an invalid request number calls nothing; a valid number goes on to the action for the request under it |
| FriendRequests.RequestedReadsOnlyInput | src/friend_requests.go:199-227 | what is answered depends on the two input lines alone |
| FriendRequests.PickRequestSends | src/friend_requests.go:206-241 | exactly the answer the two lines ask for is sent, if any |
| FriendRequests.RespondCallsOnce | src/friend_requests.go:241-245 | at most one answer, naming the sender of the request under the typed number with the typed action; never retried |
| FriendRequests.RespondCallsAtMostOnce | src/friend_requests.go:241 | answering makes at most one call |
| FriendRequests.RecordedOnlyWhenAccepted | src/friend_requests.go:242-247 | the answer counts as recorded iff the backend answers 200 |
| FriendRequests.RespondToRequests | src/friend_requests.go:175-249 | handleFriendRequestResponse over the console equals Respond |
| FriendRequests.AwaitSkips | src/friend_requests.go:157-170 | bytes other than 18 and 3 are read and ignored |
| FriendRequests.AwaitLastPass | src/friend_requests.go:150-171 | the end of input reports and restores the snapshot; Ctrl+C exits 0 with the device untouched; Ctrl+R answers from the input past the key, between two restores |
| FriendRequests.Bracketed | src/friend_requests.go:147-163 | the answer is bracketed by two restores of the snapshot, the second one last |
| FriendRequests.BracketedQuiet | src/friend_requests.go:161-163 | between them nothing enters raw mode or exits, and at most one call is made |
| FriendRequests.CtrlRRestoresTwice | src/friend_requests.go:147-164 | after Ctrl+R the snapshot is restored twice for one entry, the terminal ends as found, and the restore is last |
| FriendRequests.CtrlRAnswersAtMostOnce | src/friend_requests.go:159-164 | handling Ctrl+R enters raw mode once, exits nothing, and sends at most one answer |
| FriendRequests.AwaitOtherEnds | src/friend_requests.go:142-169 | without raw mode nothing is read; at the end of input the restore is last; Ctrl+C exits 0 and leaves the terminal raw; none of them calls |
| FriendRequests.WaitForCtrlR | src/friend_requests.go:140-172 | waitForCtrlR, a while loop over the console, equals AwaitCtrlR |
| FriendRequests.MenuChoice | src/friend_requests.go:83-102 | the menu returns 1 or 2 and nothing else, exactly when Atoi gives 1 or 2 |
| FriendRequests.Handle | src/friend_requests.go:105-137 | only the incoming list waits for Ctrl+R; the outgoing one is only listed |
| FriendRequests.ManageMenuError | src/friend_requests.go:28-32 | a menu answer other than 1 or 2 exits 1 and calls nothing, so the default branch is never reached |
| FriendRequests.HandleFetchesFirst | src/friend_requests.go:110-135 | the first event of a handler is the fetch of the chosen list, and for the outgoing list it is the only call |
| FriendRequests.ManageFetchesTheChosenList | src/friend_requests.go:35-48 | 1 fetches the incoming list and only then waits; 2 makes the outgoing fetch the only call |
| FriendRequests.ManageFriendRequests | src/friend_requests.go:19-51 | manageFriendRequests over the console equals Manage |
| FriendRequests.HandleRequests | src/friend_requests.go:105-137 | the two handlers over the console equal Handle |
| BetaFriendRequests.BetaHandle | source_code/src/beta/friend_requests.go:100-127 | a handler either lists the fetched requests or fails |
| BetaFriendRequests.BetaHandleEvents | source_code/src/beta/friend_requests.go:100-127 | the list is shown iff the fetch is a decodable 200; otherwise the error is reported and the process exits 1 |
| BetaFriendRequests.BetaHandleCounts | source_code/src/beta/friend_requests.go:40-43 | one fetch of the chosen list; exit 1 as the last and only exit of a failure |
| BetaFriendRequests.BetaManageMenu | source_code/src/beta/friend_requests.go:23-96 | anything but 1 or 2 reports and exits 1, calling nothing |
| BetaFriendRequests.BetaManageDispatch | source_code/src/beta/friend_requests.go:30-43 | 1 fetches incoming and 2 outgoing; every failure ends with exit 1, and a listing exits nothing |
| BetaFriendRequests.BetaAgreesOnOutgoing | source_code/src/beta/friend_requests.go:115-127 | for the outgoing list the beta and current commands behave identically |
| BetaFriendRequests.BetaManageFriendRequests | source_code/src/beta/friend_requests.go:14-46 | the beta command over the console equals BetaManage |
| BetaFriendRequests.BetaHandleRequests | source_code/src/beta/friend_requests.go:100-127 | the beta handlers over the console equal BetaHandle |
| FriendList.Loaded | src/modules/friend_list.go:162-167 | a friends file that cannot be read is the empty list |
| FriendList.Added | src/modules/friend_list.go:170-182 | refused iff some entry has the same user id; otherwise exactly one entry is appended at the end and the rest is unchanged |
| FriendList.AddedKeepsIdsUnique | src/modules/friend_list.go:170-182 | appending keeps user ids unique, and the new id is then listed |
| FriendList.AddedChecksIdOnly | src/modules/friend_list.go:171 | only the user id decides; the username and date play no part |
| FriendList.AddedTwiceFails | source_code/src/alpha/friend_list.go:142-146 | adding the same user id again is refused |
| FriendList.KnownId | src/modules/friend_list.go:170-174 | the duplicate scan finds the id iff it is listed |
| FriendList.FriendsFile.AddFriend | source_code/src/alpha/friend_list.go:125-171 | a refusal leaves the file as it was; otherwise the file holds the loaded list with the new entry appended |
| FriendList.CurrentUsernameArg | src/modules/friend_list.go:46-52 | the name is os.Args[1] whenever it is present, and there is none otherwise |
| FriendList.AlphaUsernameArg | source_code/src/alpha/friend_list.go:18-23 | the name is os.Args[2] exactly when it is present and non-empty; otherwise the client prompts |
| FriendList.SearchesTheNamedUser | src/modules/friend_list.go:46-84 | the one search is for a non-empty os.Args[1] in the current client, and in the alpha client for a non-empty os.Args[2] or else for the name typed, with no search for an empty name |
| FriendList.Store | src/modules/friend_list.go:87-93 | saved iff the id is not yet listed, and then the file holds the loaded list plus the found user |
| FriendList.StoreFinished | src/modules/friend_list.go:88-91 | storing calls nothing, and a refusal ends with exit 1 |
| FriendList.LookupFinished | src/modules/friend_list.go:78-91 | one search call, and every failure ends with exit 1 |
| FriendList.LookupSaves | src/modules/friend_list.go:84-87 | a saved friend is the user the search found, appended to the loaded list |
| FriendList.CommandFinished | src/modules/friend_list.go:44-94 | one backend call when there is a username and none otherwise; failures end with exit 1 |
| FriendList.EmptyUsernameStops | src/modules/friend_list.go:54-57 | an empty username exits 1 before any call, leaving the file alone |
| FriendList.ArgumentReadsNothing | src/modules/friend_list.go:47-48 | a username from the command line reads no input |
| FriendList.EmptyArgumentHandling | source_code/src/alpha/friend_list.go:18-28 | an empty os.Args[1] stops the current client without a prompt, and the alpha client prompts when os.Args[2] is empty |
| FriendList.SavedIsTheFoundUser | src/modules/friend_list.go:78-93 | a saved friend is the found user at the end of the stored list, after exactly one search for the typed name, with no exit |
| FriendList.FailuresExit | src/modules/friend_list.go:54-91 | every other outcome exits 1 last and once, after at most one search, and leaves the file unchanged |
| FriendList.AddCommandKeepsIdsUnique | src/modules/friend_list.go:170-182 | the command keeps friends.json free of repeated user ids |
| FriendList.RunAddCommand | source_code/src/alpha/friend_list.go:15-66 | the add-friend command over the console and the file equals AddCommand |
| Send.DateLabel | src/send_message.go:142-145 | an empty friendship date is shown as "Unknown", any other as itself |
| Send.Recipient | src/send_message.go:51-52 | the message goes to GetUserID of the friend picked by number, and only when one is picked |
| Send.PostFinished | src/send_message.go:209-219 | one call; success iff status 200, whatever the body; otherwise exit 1 |
| Send.ChooseThenPost | src/send_message.go:44-58 | with friends listed, the choice then the send; posted iff a friend was picked and the reply is 200 |
| Send.NotChosen | src/send_message.go:44-48 | a choice that is not a listed number prints the error and exits with status 1, with no call |
| Send.Chosen | src/send_message.go:51-58 | a valid choice sends exactly one message to that friend's id; posted iff the reply is 200 |
| Send.SendToFinished | src/send_message.go:31-58 | a failed listing, an empty list, a bad choice or a rejected send each end with exit 1 |
| Send.SendNeedsMessage | src/send_message.go:16-21 | fewer than 3 arguments show the usage and exit 1, reading and calling nothing |
| Send.SendGoesToThePickedFriend | src/send_message.go:16-58 | after the friends listing, the message os.Args[2] goes in the only call to the picked friend's id; success iff status 200, and every failure exits 1 last |
| Send.StableMatchesCurrent | source_code/src/stable/modules/send_message.go:49-93 | the stable copy behaves as the current one with the message one argument earlier, sending to the entry's user_id |
| Send.RunSend | src/send_message.go:14-60 | send_message over the console equals SendCurrent |
| Send.RunSendTo | src/send_message.go:31-58 | the part after the argument check over the console equals SendTo |
| Send.RunPost | src/send_message.go:172-230 | sendMessage over the console equals Post |
| Send.RunSendStable | source_code/src/stable/modules/send_message.go:49-93 | the stable main over the console equals SendStable |
| Signup.CheckUsername | source_code/src/beta/modules/signup.go:55-69 | each error exactly when its check is the first to fail: empty after trimming, then under 3 bytes, then a space; every other name gives Ok of the trimmed name |
| Signup.UsernameAccepted | source_code/src/beta/modules/signup.go:55-69 | every trimmed name of 3 bytes or more without a space is accepted as it is |
| Signup.NoSpaceNoSpaceError | source_code/src/beta/modules/signup.go:65-67 | a name without white space never fails the space check |
| Signup.ScannedNameHasNoSpace | source_code/src/beta/modules/signup.go:52-67 | a name read by Scanln never fails the space check |
| Signup.CheckPassword | source_code/src/beta/modules/signup.go:84-94 | empty after trimming fails, then under 6 bytes; every other password gives Ok of the trimmed password |
| Signup.GetPassword | source_code/src/beta/modules/signup.go:73-113 | getPassword only reads input, and an accepted password has at least 6 bytes |
| Signup.ConfirmationOnlyAfterChecks | source_code/src/beta/modules/signup.go:77-98 | an unreadable or failing first entry is rejected after one read; the confirmation is never read |
| Signup.PasswordConfirmed | source_code/src/beta/modules/signup.go:98-112 | an accepted password is the trimmed first entry, and the trimmed confirmation equals it |
| Signup.PasswordAccepted | source_code/src/beta/modules/signup.go:84-112 | a first entry that passes the checks, confirmed by an entry that trims to the same string, gives Ok of the trimmed first entry after two reads |
| Signup.Outcome | source_code/src/beta/modules/signup.go:157-174 | 200 and 201 succeed; no response is its own outcome; any unnamed code is carried as it is |
| Signup.OutcomesDistinct | source_code/src/beta/modules/signup.go:157-174 | only the status decides, and different codes give different outcomes unless both succeed |
| Signup.Credentials | source_code/src/beta/modules/signup.go:21-36 | the name and password sent are exactly those that passed their checks |
| Signup.RegisterUserFinished | source_code/src/beta/modules/signup.go:135-174 | first the mask of one '*' per byte, then one call; success iff 200 or 201, otherwise exit 1 |
| Signup.SignUpFinished | source_code/src/beta/modules/signup.go:21-46 | the registration is sent iff both checks pass; success iff 200 or 201; otherwise exit 1, the only exit |
| Signup.SignUpMasksThePassword | source_code/src/beta/modules/signup.go:135 | a registration that is sent comes after a mask as long in '*' as the password is in bytes, at least 6 |
| Signup.RunSignUp | source_code/src/beta/modules/signup.go:21-46 | the signup main over the console equals SignUp |
| Signup.ReadNewPassword | source_code/src/beta/modules/signup.go:73-113 | getPassword over the console equals GetPassword |
| Signup.RunRegisterUser | source_code/src/beta/modules/signup.go:116-175 | registerUser over the console equals RegisterUser |
| UserSearch.YesWordsAreCaseSensitive | src/search.go:91 | every yes-word lowers to "y" or "yes", but "yES" lowers to "yes" and is not one |
| UserSearch.RequestReport | src/search.go:202-221 | success iff status 200 or 201 with a decodable body; the request id is shown iff non-zero and the time stamp iff non-empty |
| UserSearch.UndecodableSuccessIsAnErrorHere | src/search.go:207-211 | a 200 with an undecodable body fails here but counts as sent for sendMessage, and 201 succeeds only here |
| UserSearch.SearchTurn | src/search.go:58-99 | a pass consumes input unless the input has run out |
| UserSearch.TurnEvents | src/search.go:64-98 | quit and a blank line call nothing; a name is searched once; the request goes to the found user only after a yes-word; no exit, no terminal change |
| UserSearch.FoundEvents | src/search.go:75-98 | after the search, a failure stops the pass and a found user is offered the request |
| UserSearch.OfferEvents | src/search.go:91-98 | the request is sent only for a yes-word, else "Friend request not sent." |
| UserSearch.AskEvents | src/search.go:92-95 | asking is exactly one call, the request for the found user, with no terminal change or exit |
| UserSearch.RequestOnlyAfterYes | src/search.go:86-92 | a request is sent only after a successful search and a yes-word |
| UserSearch.QuitsOnQuitWords | src/search.go:64-67 | a pass ends the loop exactly on "quit" or "exit" |
| UserSearch.QuitSaysGoodbye | src/search.go:65 | the only thing such a pass does is print "Goodbye!" |
| UserSearch.BlankAtEndOfInput | src/search.go:61-72 | at the end of input a pass reads an empty name and only prompts again |
| UserSearch.AsWrittenSpinsAtEndOfInput | src/search.go:58-72 | at the end of input the loop never ends and only repeats the prompt |
| UserSearch.SearchingIsQuiet | src/search.go:58-99 | the loop never exits the process or touches the terminal |
| UserSearch.SearchingStops | src/search.go:58-99 | the intended loop ends with all input read or with "Goodbye!" last |
| UserSearch.SearchUsers | src/search.go:58-99 | the loop over the console, a while loop decreasing the input, equals Searching |
| UserSearch.RunTurn | src/search.go:59-79 | one pass over the console equals SearchTurn |
| UserSearch.RunFound | src/search.go:75-87 | the search and its report over the console equal Found |
| UserSearch.RunOffer | src/search.go:88-98 | the offer over the console equals Offer |
| Cli.NamesDistinct | source_code/src/stable/main.go:20-73 | the six command words are distinct |
| Cli.Parse | source_code/src/stable/main.go:10-79 | fewer than 2 arguments give the usage; a command word gives its command; any other word is unknown |
| Cli.ParseName | source_code/src/stable/main.go:17-20 | a command's own word in os.Args[1] selects it, whatever follows |
| Cli.ReportsOfSendAndReceive | source_code/src/stable/main.go:50-64 | success lines name their command, but a send error and a receive error are both reported as "Message failed" |
| Cli.MainRunsTheNamedHandler | source_code/src/stable/main.go:20-81 | a handler runs iff its word was given, and none runs for the usage or an unknown word |
| Cli.MainExits | source_code/src/stable/main.go:10-81 | only a handler error exits, with status 1; the usage and the unknown-command error print one notice and return |
| Cli.RunMain | source_code/src/stable/main.go:8-83 | main over the console equals Main |

## Left out

- HTTP, JSON and files are not modelled as such. Each backend call is one
  scripted `Reply`: no reply at all, or a status with a decoded body or
  none. A reply that does not decode has no body. Reading friends.json is a
  parameter of the command (`Option`, None when the read or decode fails).
  The token read is assumed to succeed: its failure (a report, then exit 1)
  is not modelled, and in add-friend and send it would come after the
  argument checks. The friends listing of the receive and send commands
  (`fetchFriendsFromAPI`, `readFriendsFromConfig`) is a parameter in the
  same way: its failure is modelled as a report and exit 1, but its call is
  not in the trace.
  The file write in `addFriend` is modelled as always succeeding.
- FriendList.FriendsFile.AddFriend: does not model a failure of the final
  write (src/modules/friend_list.go:185-196); the file is then partly
  written, which is outside the model.
- `decoder.Decode` ignoring its error (src/modules/friend_list.go:166) can
  leave a partly filled list in Go. The model treats any file that does not
  decode as the empty list.
- Real `ioctl` calls: makeRaw's two ioctls are one scripted fault per call.
  `restore` is modelled as never failing, since its error is ignored
  everywhere. Line discipline (ISIG, IXON) is left out: whether bytes 3 and
  19 arrive at all is OS behaviour, and the loops run over the bytes
  delivered.
- Formatting and time are left out: time stamps, `time.Now`, and the text
  layout of lists and messages. The trace keeps the kind of each notice
  and the entries shown, not the printed characters.
- `fmt.Scanln` is modelled as the first white-space-separated field of the
  next line, the rest of the line being consumed. Go leaves the rest of a
  line with several words unread and returns an error. `term.ReadPassword`
  is modelled as reading up to the newline.
- RunReceive: the get_friends call of src/receive_message.go:46 is not in
  the trace; the listing it returns, or its failure, is the `friends`
  parameter, so the trace holds only the calls after it.
- OpenConversation: the same holds for the listing before it; the legacy
  client's friends.json read (src/modules/receive_message.go:62-66) is the
  `entries` parameter of LegacyView.
- SendGoesToThePickedFriend: the get_friends call of src/send_message.go:31
  is not in the trace; the listing is the `friends` parameter, so the one
  call stated is the only one after it.
- Send.DateLabel: the friends list the send command prints is not part of
  the trace (see formatting above), so only the date label is modelled.
- Cli.Main: the handler's own effects are not part of the dispatch model.
  Its error is a parameter, and the handlers are the other modules.
- The login commands, the charlie search and the beta send command are not
  part of this model, since they copy fields around HTTP calls.
- The global `authToken` of src/search.go is not modelled; it only feeds
  the HTTP calls.
- Integer widths: Atoi's int64 range is modelled. No other value in the
  core overflows.

## Findings

| source | as written | input that shows it | evidently intended | confidence | as-written member | corrected member |
|---|---|---|---|---|---|---|
| src/search.go:58-72 | at the end of input `fmt.Scanln` leaves `input` empty, so the loop prints "Please enter a username" and reads again, forever | a standard input that stays at end of file, such as one redirected from /dev/null or a closed pipe | the loop ends when the input does, as it does on "quit" | not executed | UserSearch.AsWrittenSpinsAtEndOfInput | UserSearch.SearchingStops |
