# NewChatRoom server core in Dafny

This project models the server of the NewChatRoom chat room: the session and
message-routing engine that handles a client's requests over one connection. It covers
account registration and password recovery, login with the duplicate-login check,
private and group chat, private and group file transfer, "shake" nudges, group creation,
search and joining, and the teardown when a client goes away.

The repository holds two versions of this engine, and both are modelled as separate step
functions over the same state:

- the **refactored** server: `UserManager`, `OnlineUserManager`, `GroupManager`,
  `BroadcastService`, `handlers/MessageHandler` and `handlers/ClientHandler`
  (modules of the same names here);
- the **monolithic** server: `ChatServer` and its nested `ClientHandler`. This is the
  version its `main` actually starts (module `ChatServer`).

The state (`ServerState.State`) is the credential store (account → password), the
presence registry (online username → the connection's output channel) and the group store
(group id → `Group`). One request is one atomic step. A step takes the state, the
connection's `Session` (its channel and its username, `None` until a login succeeds) and
the request `Message`. It produces a `Step`: the new state, the username afterwards, the
deliveries written and whether the handler thread died. A `Delivery` goes either to a
named online user through the presence registry, or back to the requester on its own
stream.

Modelling choices that follow the Java code:

- **`null` is modelled.** Every nullable `String` or `List` field of `Message` is an
  `Option`. Group names are `Option<string>`, because the refactored CREATE_GROUP takes
  the name from `content`, which may be absent. Member lists are
  `seq<Option<string>>`: creating or joining a group before login adds `null`.
- **Uncaught exceptions are modelled.** No handler catches a `RuntimeException`. Only
  `IOException` and `ClassNotFoundException` lead to `handleDisconnect`. So a
  `NullPointerException` or `NoSuchElementException` is the `fault` flag: the
  connection's thread ends *without* teardown, and what was written before the throw
  stays written. The throwing points modelled are:
  - a `null` key into a `ConcurrentHashMap` lookup;
  - `member.equals(...)` on a `null` member during a group fan-out;
  - `getGroupName().equals/contains` on a group whose name is `null`;
  - `contains(null)` with a missing search keyword;
  - `sendMessageToUser(null)` on GET_ONLINE_USERS before login (refactored);
  - `.get()` on an empty default-group lookup at login (monolithic).
- **Hash-map iteration order is abstracted.** A `ConcurrentHashMap` is a
  `Tables.Table`: the entries plus an iteration order. The model fixes one order: a new
  key goes last and an overwritten key keeps its place. Java's map iterates in hash
  order instead. Contracts about membership, lookups and who receives a message hold
  whatever the order. Contracts that state an exact text or an exact list hold for the
  model's order, and match Java's output only up to a permutation of the entries. That
  covers the search reply, the online and group lists in the login and disconnect
  broadcasts and in group creation, and `JoinGroup` keeping the order. Among equally
  named groups, `getGroupByName` and the login's default-group lookup are stated to find
  "some" such group, not which one.
- **Handlers that both versions share are written once.** The monolithic server's
  register, find-password, reset-password, private-chat, private-file and disconnect
  handlers, and its broadcasts, do exactly what the refactored ones do, with the same
  texts (`src/server/ChatServer.java:160-238`, `297-322`, `370-452`, `57-76`). So
  `ChatServer.Handle` calls the refactored definitions for them.
- **Both servers are run by one event model.** `ServerRun` runs either version over a
  sequence of events: `Connect`, `Receive` and `Drop`. The accept loop's
  thread-per-connection interleaving becomes that sequence. UUID generation becomes the
  `newId` parameter (`requires newId !in groups`), which `ServerRun.FreshId` supplies.

Behaviour worth knowing, as the code does it:

- The client sends group ids for FILE_GROUP and SHAKE. The refactored server looks
  those up by group *name* (`Divergence.GroupFileById`, `Divergence.ShakeUnknownTarget`).
- The monolithic CREATE_GROUP, SEARCH_GROUP and JOIN_GROUP read the `groupName` and
  `groupId` fields. A `null` `groupId` throws.
- The monolithic GROUP_CHAT notice for an unknown group concatenates the `null` lookup
  result, so it always reads "群组 null 不存在！" (`Divergence.MissingGroupNotices`).
- A LOGIN on a connection that is already logged in is processed like any other. If it
  succeeds, it rebinds the connection to the new account. The old account stays online on
  that channel until the server stops, because teardown only removes the current username.
- A login that throws after `addUser` leaves the account online with no live connection.
  The account stays online (`ServerRun.FaultSkipsTeardown`), and a login to an account
  that is online is refused as "already online" (`ClientHandler.HandleLoginWithAuth`), so
  nobody can log in to it again.

## Model

| member | source | states |
|---|---|---|
| Groups.NewGroup | src/common/Group.java:14-18 | a new group has the given id and name and no members |
| Groups.AddMember | src/common/Group.java:29-33 | afterwards `u` is a member; membership is the old members plus `u`; a non-member is appended at the end, the old list is a prefix and nothing else changes; a member leaves the list as it was; a duplicate-free list stays duplicate-free |
| Groups.AddMemberIdempotent | src/common/Group.java:29-33 | adding twice is adding once, and adding an existing member changes nothing |
| Groups.RemoveMember | src/common/Group.java:36-38 | removing a non-member changes nothing; on a duplicate-free list `u` is gone afterwards, every other member stays, and the list stays duplicate-free |
| Groups.RemoveMemberKeepsOrder | src/common/Group.java:36-38 | removal cuts out exactly the first occurrence of `u`: the members before it and after it keep their order |
| Groups.AddThenRemove | src/common/Group.java:29-38 | adding a non-member and then removing it restores the original group |
| JavaString.Contains | src/server/managers/GroupManager.java:63 | `String.contains` is true exactly when the keyword occurs at some position of the name |
| UserManager.VerifyPassword | src/server/managers/UserManager.java:31-34 | true iff the account exists and its stored password equals the given one; a missing password never verifies |
| UserManager.RegisterUser | src/server/managers/UserManager.java:39-45 | succeeds iff the account is new, and then stores exactly that password; a taken account leaves the store unchanged; other accounts are never touched |
| UserManager.ResetPassword | src/server/managers/UserManager.java:50-56 | succeeds iff the account exists and then overwrites its password unconditionally; an unknown account changes nothing; the set of accounts never changes |
| UserManager.ResetThenVerify | src/server/managers/UserManager.java:31-56 | after a reset the new password verifies and every other password fails |
| UserManager.HandleRegister | src/server/managers/UserManager.java:61-82 | emptiness is checked before existence; each of the three outcomes has its reply text, and only a successful registration changes the store |
| UserManager.HandleFindPassword | src/server/managers/UserManager.java:87-106 | the reply is "账号验证通过" iff the account is non-empty and registered; otherwise the emptiness or unknown-account text. No store is returned, so nothing changes |
| UserManager.HandleResetPassword | src/server/managers/UserManager.java:111-132 | emptiness, then existence, then the overwrite; only the last outcome changes the store, and the accounts never change |
| OnlineUserManager.NewRegistry | src/server/managers/OnlineUserManager.java:17-19 | nobody is online at start |
| OnlineUserManager.GetUserOutputStream | src/server/managers/OnlineUserManager.java:45-47 | a channel is returned exactly for an online user, and it is the one registered for that user |
| OnlineUserManager.AddUser | src/server/managers/OnlineUserManager.java:24-26 | afterwards `u` is online on channel `c`, even if it was online before (an overwrite); every other user's entry is unchanged |
| OnlineUserManager.RemoveUser | src/server/managers/OnlineUserManager.java:31-33 | afterwards `u` is offline and every other entry is unchanged; removing an absent user changes nothing |
| OnlineUserManager.GetOnlineUsers | src/server/managers/OnlineUserManager.java:52-54 | exactly the online users, each once |
| OnlineUserManager.GetAllOutputStreams | src/server/managers/OnlineUserManager.java:59-61 | one channel per online user, position by position the channel of that user |
| OnlineUserManager.GetOnlineUserCount | src/server/managers/OnlineUserManager.java:66-68 | the count equals the length of the online-user list |
| OnlineUserManager.SendMessageToUser | src/server/managers/OnlineUserManager.java:73-79 | one delivery to an online user, none to an offline one; a `null` name throws |
| GroupManager.New | src/server/managers/GroupManager.java:18-29 | a fresh store holds exactly one group, named "默认群", with no members, and `getDefaultGroup` returns it |
| GroupManager.CreateGroup | src/server/managers/GroupManager.java:34-38 | exactly one group is added, under the fresh id, with the given name and no members; existing groups are untouched |
| GroupManager.GetGroupById | src/server/managers/GroupManager.java:43-45 | found iff the id is in the store, and then it is that group |
| GroupManager.GetAllGroups | src/server/managers/GroupManager.java:73-75 | every stored group once, and nothing else |
| GroupManager.FirstNamed | src/server/managers/GroupManager.java:50-55 | the stream `filter(name equals).findFirst()`: a hit has that name; no hit iff every name is non-null and different; a throw only if some name is null |
| GroupManager.GetGroupByName | src/server/managers/GroupManager.java:50-55 | some stored group with that name if one exists, else `null`; with no null names it never throws |
| GroupManager.GetDefaultGroup | src/server/managers/GroupManager.java:119-124 | a stored group named "默认群" if there is one; with no null names it never throws; with a null name and no default group it always throws |
| GroupManager.Matching | src/server/managers/GroupManager.java:60-68 | the `searchGroups` loop: throws iff some name is null or the keyword is null on a non-empty list; otherwise exactly the groups whose name contains the keyword |
| GroupManager.SearchGroups | src/server/managers/GroupManager.java:60-68 | the result is exactly the stored groups whose name contains the keyword (case-sensitive substring); the throwing cases as above |
| GroupManager.JoinGroup | src/server/managers/GroupManager.java:80-87 | true iff the id exists; then the user is a member of that group and every other group is unchanged; false changes nothing |
| GroupManager.JoinIdempotent | src/server/managers/GroupManager.java:80-87 | a second identical join changes nothing |
| GroupManager.LeaveGroup | src/server/managers/GroupManager.java:92-97 | that group becomes `removeMember`'s result (name kept, first occurrence of the user cut out), other groups and the order are unchanged, and an unknown id changes nothing |
| GroupManager.JoinThenLeave | src/server/managers/GroupManager.java:80-97 | leaving a group just joined by a non-member restores the store exactly |
| GroupManager.RemoveUserFromAllGroups | src/server/managers/GroupManager.java:102-106 | every group becomes `removeMember`'s result for that user, so afterwards no group contains the user, and the set of groups, the order, the names and the other members in their order are unchanged |
| GroupManager.GetGroupMembers | src/server/managers/GroupManager.java:111-114 | the members of a known group, and the empty list for an unknown id |
| BroadcastService.BroadcastToAll | src/server/broadcast/BroadcastService.java:84-89 | exactly one copy to every online user and to nobody else, with no duplicate deliveries |
| BroadcastService.OnlineNotifyMessage | src/server/broadcast/BroadcastService.java:29-34 | type ONLINE_NOTIFY, sender "服务器", receiver "", content `username + " 已上线！"` |
| BroadcastService.OfflineNotifyMessage | src/server/broadcast/BroadcastService.java:42-47 | type OFFLINE_NOTIFY, sender "服务器", receiver "", content `username + " 已下线！"` |
| BroadcastService.OnlineUsersMessage | src/server/broadcast/BroadcastService.java:55-57 | the ONLINE_USERS list holds exactly the online users, each once |
| BroadcastService.GroupListMessage | src/server/broadcast/BroadcastService.java:65-67 | the GROUP_LIST holds every stored group, one entry per group, and nothing else |
| BroadcastService.BroadcastOnlineNotify | src/server/broadcast/BroadcastService.java:28-36 | every online user gets the online notice, and only online users get anything |
| BroadcastService.BroadcastOfflineNotify | src/server/broadcast/BroadcastService.java:41-49 | every online user gets the offline notice, and only online users get anything |
| BroadcastService.BroadcastOnlineUsers | src/server/broadcast/BroadcastService.java:54-59 | every online user gets the current online list, and only online users get anything |
| BroadcastService.BroadcastGroupList | src/server/broadcast/BroadcastService.java:64-69 | every online user gets the full group list, and only online users get anything |
| BroadcastService.SendOnlineUsersToUser | src/server/broadcast/BroadcastService.java:74-79 | delivers only to the named user, and to nobody if that user is offline; a `null` name throws |
| ServerState.Init | src/server/ChatServer.java:21-32 | start state: no accounts, nobody online, one default group with no members under a fresh id, all stores well formed |
| MessageHandler.FanOut | src/server/handlers/MessageHandler.java:76-89 | the group loop reaches exactly the online members other than the sender, one copy each; it throws iff a member is `null` |
| MessageHandler.HandlePrivateChat | src/server/handlers/MessageHandler.java:33-55 | an online receiver gets one PRIVATE_CHAT with the original sender and content; for an offline receiver the requester alone gets one notice |
| MessageHandler.HandleGroupChat | src/server/handlers/MessageHandler.java:60-90 | an unknown id gets one notice to the requester and no fan-out; a known group fans out to its online members except the sender |
| MessageHandler.HandlePrivateFile | src/server/handlers/MessageHandler.java:95-112 | the file message is forwarded unchanged (name, size and bytes preserved); for an offline receiver the requester gets a notice |
| MessageHandler.HandleGroupFile | src/server/handlers/MessageHandler.java:117-142 | the target is resolved by group NAME; a miss gets a notice, a hit fans the unchanged file out except to the sender |
| MessageHandler.HandleShake | src/server/handlers/MessageHandler.java:147-172 | an online user first, then a group by name; if neither matches there are no deliveries at all; a group lookup that throws on a `null` name ends the handler with nothing written |
| MessageHandler.HandleCreateGroup | src/server/handlers/MessageHandler.java:177-192 | exactly one new group, holding just the sender, with the name from `content`; the reply carries its id and is followed by the group list to everybody online |
| MessageHandler.HandleSearchGroup | src/server/handlers/MessageHandler.java:197-219 | read-only; one reply to the requester, listing exactly the groups whose name contains the keyword |
| MessageHandler.HandleJoinGroup | src/server/handlers/MessageHandler.java:224-246 | succeeds iff the id in `receiver` exists, and then that group is `addMember`'s result with the sender appended if absent and every other group unchanged; there is no "already a member" outcome and no broadcast |
| ClientHandler.JoinDefaultGroup | src/server/handlers/ClientHandler.java:133-136 | with a default group the user is appended to one group of that name and every other group is unchanged; when no group has the default name, the join is skipped and leaves the store as it was, unless some group has a `null` name, in which case the lookup throws |
| ClientHandler.JoinedDefaultIsMember | src/server/handlers/ClientHandler.java:133-136 | after the join the user is a member of a group with the default name, and no group is added or lost |
| ClientHandler.Enter | src/server/handlers/ClientHandler.java:130-131 | the account goes online on this connection's channel and no other presence entry changes |
| ClientHandler.Admit | src/server/handlers/ClientHandler.java:130-143 | a successful login binds the username, puts the account online on this channel, appends it to one default group leaving every other group as it was, and writes the reply then the online notice, online list and group list, in that order; it throws exactly as the default-group lookup does, in particular when a group has a `null` name and none has the default name, and then nothing is written and no group changes |
| ClientHandler.AdmitPreserves | src/server/handlers/ClientHandler.java:130-136 | a successful login only adds its own account to presence and removes no account or group |
| ClientHandler.HandleLoginWithAuth | src/server/handlers/ClientHandler.java:105-146 | refuses unregistered, then wrong password, then already online, each with one LOGIN reply and no change to state or username; accepts only an account that is not online; on success the only group change is the user appended to one default group; every accepted login that does not throw writes the reply and the three broadcasts; an accepted login throws when a group has a `null` name and none has the default name, and then writes nothing and changes no group |
| ClientHandler.HandleDisconnect | src/server/handlers/ClientHandler.java:151-162 | an online, bound user leaves presence, every group becomes `removeMember`'s result for that user with the group order kept, and then the offline notice, online list and group list go to the remaining users only; otherwise nothing changes and nothing is sent |
| ClientHandler.DisconnectTwiceIsOnce | src/server/handlers/ClientHandler.java:153 | a second teardown changes nothing and sends nothing |
| ClientHandler.Handle | src/server/handlers/ClientHandler.java:51-95 | each handled type goes to its own handler with the connection's username, stated kind by kind; any other type changes nothing and sends nothing; only LOGIN changes the username, only REGISTER/RESET_PASSWORD change accounts, only LOGIN/CREATE_GROUP/JOIN_GROUP change groups; every step keeps the stores well formed and never removes an account, a group or another user's presence |
| ChatServer.JoinDefaultGroup | src/server/ChatServer.java:277-278 | the lookup with `.get()`: without a default group it throws; otherwise the user is appended to one default group and every other group is unchanged |
| ChatServer.Admit | src/server/ChatServer.java:273-288 | the success branch: online first, then the default group (which may throw; otherwise only that group gains the user), then the reply and the three broadcasts in order |
| ChatServer.AdmitPreserves | src/server/ChatServer.java:273-278 | the monolithic login only adds its own account to presence and removes no account or group |
| ChatServer.HandleLoginWithAuth | src/server/ChatServer.java:243-292 | the same three refusals in the same order as the refactored login; a success with no default group throws after the user is online; otherwise only one default group changes, by gaining the user; a throwing login writes nothing and changes no group |
| ChatServer.HandleGroupChat | src/server/ChatServer.java:327-359 | an unknown id gets the one notice "群组 null 不存在！" to the requester; a known group fans out to its online members except the sender |
| ChatServer.SendOnlineUsers | src/server/ChatServer.java:362-368 | one ONLINE_USERS reply on the requester's stream listing exactly the online users, also before login |
| ChatServer.HandleGroupFile | src/server/ChatServer.java:455-481 | the group is resolved by id; a miss gets a notice, a hit fans out except to the sender |
| ChatServer.HandleShake | src/server/ChatServer.java:484-527 | an online user, then a group id (fan-out except to the sender), otherwise a "不存在" notice to the requester |
| ChatServer.HandleCreateGroup | src/server/ChatServer.java:529-550 | a null or empty name gets an error and creates nothing; otherwise one new group holding exactly the creator, the reply with id and name, then the group-list broadcast |
| ChatServer.HandleSearchGroup | src/server/ChatServer.java:555-566 | an exact lookup by `groupId`, answered with one found or not-found reply |
| ChatServer.HandleJoinGroup | src/server/ChatServer.java:571-595 | three outcomes: not found (no change), already a member (no change, no broadcast), or joined (the member is appended, then the group-list broadcast) |
| ChatServer.Handle | src/server/ChatServer.java:99-152 | the monolithic dispatch, routing each handled type kind by kind to the monolithic handler where it differs and to the shared handler otherwise, with the same guarantees as the refactored one |
| Divergence.OnlineUsersBeforeLogin | src/server/handlers/ClientHandler.java:72-74 | before login the refactored GET_ONLINE_USERS throws, while the monolithic one answers |
| Divergence.MissingGroupNotices | src/server/ChatServer.java:333-341 | for an unknown group the two versions send the same notice iff the requested id is "null" |
| Divergence.GroupFileById | src/server/handlers/MessageHandler.java:117-130 | a file sent to a group id that is not also a group name is reported missing by the refactored server and delivered by the monolithic one |
| Divergence.ShakeUnknownTarget | src/server/handlers/MessageHandler.java:157-171 | a shake to an unknown target is silent in the refactored server and answered with a notice in the monolithic one |
| Divergence.CreateWithEmptyName | src/server/ChatServer.java:529-535 | an empty name creates a group named "" in the refactored server and is refused in the monolithic one |
| Divergence.SearchByKeywordVsId | src/server/handlers/MessageHandler.java:197-219 | a search whose keyword and group id are a group's full name, which is not an id: the refactored keyword search finds that group, the monolithic exact-id lookup (ChatServer.java:555-566) reports none |
| Divergence.JoinWhenMember | src/server/ChatServer.java:581-585 | a member re-joining changes no group in either version; the refactored server reports success, the monolithic one "already joined" without a broadcast |
| ServerRun.FreshId | src/server/ChatServer.java:538 | the generated group id is not the id of any existing group |
| ServerRun.Start | src/server/ChatServer.java:29-39 | the started server has one default group with no members and no connections |
| ServerRun.Dispatch | src/server/ChatServer.java:99-152 | one request of either version keeps the stores well formed; a changed username is online on this connection |
| ServerRun.Apply | src/server/ChatServer.java:92-157 | a socket is accepted once; a request or a failed read on an ended or unknown connection changes nothing; a failed read ends the connection; other connections are untouched |
| ServerRun.SingleSession | src/server/handlers/ClientHandler.java:123-131 | under the invariant, two live connections never share an account |
| ServerRun.ApplyKeepsInv | src/server/handlers/ClientHandler.java:123-131 | every event keeps each live, logged-in connection as its account's presence entry |
| ServerRun.RunKeepsInv | src/server/ChatServer.java:35-40 | the invariant holds after any sequence of events |
| ServerRun.NoSharedAccount | src/server/ChatServer.java:264-275 | from server start, no interleaving of connections and requests leaves two live connections logged in to one account |
| ServerRun.ApplyGrows | src/server/managers/UserManager.java:24-56 | no event removes an account, a group or a known connection |
| ServerRun.RunGrows | src/server/managers/GroupManager.java:15-124 | over any run, accounts and groups are never lost |
| ServerRun.EndedStaysEnded | src/server/handlers/ClientHandler.java:97-99 | a connection that has ended stays ended, so its teardown runs at most once |
| ServerRun.FaultSkipsTeardown | src/server/handlers/ClientHandler.java:46-99 | a request that throws ends the connection without teardown, and the account it is logged in with stays online |

## Left out

- Sockets, `ObjectInputStream`/`ObjectOutputStream`, Java serialization, and closing
  streams and sockets: these are I/O. A channel is an opaque number.
- A `readObject()` that returns `null`: it ends the loop without teardown. The client
  never sends one, and it is not modelled as an event.
- Threads and races: each request is one atomic step. Unsynchronised writes to a shared
  stream and races between a snapshot and a concurrent add or remove are not modelled.
- An `IOException` in the middle of a broadcast, which delivers only part of it: this is
  a transport failure. Every write is modelled as delivered.
- A `null` `Message.type` (`switch` on `null` throws): the request kind is always one of
  the enum values.
- `System.out.println` logging.
- `formatFileSize` and the client code (Swing UI, client handler, managers, network
  layer): UI and file-chooser glue with floating-point formatting.
- The monolithic `handleShake` "用户 … 不在线，抖动发送失败！" branch: it runs only if the
  user goes offline between `containsKey` and `get`, which is a race.
- UUID generation: a fresh-id parameter with `requires newId !in groups`, supplied in
  the event model by `FreshId`.
- Hash-map iteration order: the model fixes one insertion order. Exact reply texts and
  lists built by iterating a map (search results, online list, group list) match Java's
  only up to a permutation, since `ConcurrentHashMap` iterates in hash order.
