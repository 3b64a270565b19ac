# Chat application: a verified model of the server's routing and the client's codecs

This project models the core of a small Java chat system. The server runs one
`ClientHandler` per connection. They share a `clients` list.

- A handler first reads a CONNECT and registers the requested username if no
  listed handler has it. It then dispatches each envelope it reads:
  - BROADCAST goes to every other running handler in the list.
  - PRIVATE goes to the first running handler in the list with that name, and the sender
    gets a confirmation.
  - USERNAME_UPDATE renames the handler.
  - DISCONNECT closes the connection.
- Membership changes send a notice to every running listed handler (a join
  notice skips the newcomer), then the roster string (`name,` per user) to
  all of them.
- The client turns its text field into a PRIVATE (`@user text`) or a BROADCAST.
  It splits the roster string back into its user list and dispatches incoming
  envelopes to its chat area.

The modules:

- `Options`: `Option`, which stands in for Java's nullable references.
- `JavaStrings`: `String.trim`, `indexOf` (also `List.indexOf`) and
  `split(",")`, with Java's exact edge cases. `trim` strips every char up to
  U+0020. `split` drops trailing empty strings but returns the input itself
  when the separator is absent.
- `Envelopes` (`Message.java`):
  - the six message types;
  - `Envelope`, the four values that travel on the wire;
  - the `Message` class with its constructor and setters.
- `Users` (`User.java`): the `User` class, its `equals`, its `hashCode` (Java
  32-bit `String.hashCode`) and its `toString`.
- `Routing`: the server state as a value, with one step function per handler
  operation.
  - `Room(handlers, clients, log)`. A handler is identified by its position
    in `handlers`, which stands in for the `ClientHandler` object reference.
  - `handlers[h]` holds that handler's `user` (its username, or `None`) and
    its `running` flag.
  - `clients` is the shared list, in insertion order.
  - `log` holds every write to any handler's output stream, in order, as
    (recipient, envelope).
  - Every loop over `clients` iterates a snapshot, as with
    `CopyOnWriteArrayList`.
- `RoutingLaws`: what the steps promise. It covers who receives what in each
  case, and the invariant `Consistent`: listed handlers are running and carry
  pairwise different usernames, and a running handler with a user is listed.
  Every step keeps `Consistent`. A finished `run` leaves its handler stopped
  and unlisted.
- `ClientHandler`: the class `Registry`, whose fields are the shared state.
  Each method is one `ClientHandler` method run by handler `self`, with the
  source's loops over `clients`. Each is proved to compute the matching step
  of `Routing`.
- `ChatClient`: the `@user text` parse, the roster parse, the incoming
  dispatch, the connect and disconnect envelopes, and the class `Client`.
  `Client` reduces the window to the state these change: the text field, the
  user list and its count, and the chat lines.
- `Protocol`: the two ends together. It holds the roster round trip, the name
  a CONNECT asks for, and what a typed line becomes at the other clients.

Behaviour kept as the code has it:

- A DISCONNECT closes the connection, and the `finally` of `run` closes it
  again. The second close sends the leave notice and the roster once more
  (`RoutingLaws.CloseTwiceRepeatsNotice`).
- USER_LIST and CONNECT envelopes read after the handshake fall to the
  `default` branch and are ignored. The connection stays open.
- The server relays client envelopes unchanged. It does not re-stamp the
  sender.
- Renaming to one's own current name is refused as "already taken".
- The roster string carries names faithfully only when they are non-empty,
  already trimmed and comma-free (`Protocol.RosterRoundTrip`). The server does
  not check this. A user named `a,b` shows up at every client as two users,
  `a` and `b` (`Protocol.CommaInNameSplitsRosterEntry`).

## Model

| member | source | states |
|---|---|---|
| JavaStrings.Trim | src/Client.java:611-612 | the result is no longer than the input; it is empty or neither of its ends is a char up to U+0020; an input with non-blank ends is returned unchanged |
| JavaStrings.TrimIsInfix | src/Client.java:611-612 | `trim` returns a slice of its input, and every char it cut off before or after that slice is up to U+0020 |
| JavaStrings.TrimBlankIff | src/Client.java:611-612 | `trim` gives the empty string iff every char of the input is up to U+0020 |
| JavaStrings.TrimKeepsChars | src/Client.java:611-612 | every char `trim` keeps comes from the input |
| JavaStrings.IndexOf | src/Client.java:621 | -1 exactly when the element is absent; otherwise a position holding it with no earlier occurrence |
| JavaStrings.JoinSplitAll | src/Client.java:594 | splitting at every separator loses nothing: the pieces joined with the separator give back the input |
| JavaStrings.SplitAllJoin | src/Client.java:594 | separator-free pieces joined with the separator split back into the same pieces |
| JavaStrings.DropTrailingEmpty | src/Client.java:594 | the result is a prefix of the pieces that ends in a non-empty piece (or is empty), and only empty pieces were dropped |
| JavaStrings.JavaSplit | src/Client.java:594 | no piece `split(",")` returns contains the separator |
| Envelopes.SixMessageTypes | src/Message.java:6-13 | `MessageType` has exactly six constants, listed once each in declaration order |
| Envelopes.Message.constructor | src/Message.java:21-27 | sender, recipient, content and type are stored as given; the timestamp is the clock reading |
| Envelopes.Message.Wire | src/Message.java:15-18 | the envelope an object is written as carries its sender, recipient, content and type (the timestamp is not part of it) |
| Envelopes.Message.SetSender | src/Message.java:31 | the sender becomes the value set; the other four fields keep their values |
| Envelopes.Message.SetRecipient | src/Message.java:34 | the recipient becomes the value set; the other four fields keep their values |
| Envelopes.Message.SetContent | src/Message.java:37 | the content becomes the value set; the other four fields keep their values |
| Envelopes.Message.SetType | src/Message.java:40 | the type becomes the value set; the other four fields keep their values |
| Envelopes.Message.SetTimestamp | src/Message.java:43 | the timestamp becomes the value set; the other four fields keep their values |
| Envelopes.Compose | src/Message.java:21-40 | a freshly built message reads back (and is written) with exactly the four values it was built from |
| Users.JavaHash | src/User.java:40-42 | `String.hashCode` lies in the 32-bit signed range |
| Users.Describe | src/User.java:27-29 | `toString` is the username followed by " (Online)" when online and " (Offline)" otherwise |
| Users.DescribeInjective | src/User.java:27-29 | the `toString` text determines both the username and the online flag |
| Users.User.constructor | src/User.java:10-14 | a new user has the given username, the clock reading as join time, and is online |
| Users.User.SetUsername | src/User.java:18 | the username becomes the value set; join time and online flag are unchanged |
| Users.User.SetJoinTime | src/User.java:21 | the join time becomes the value set; username and online flag are unchanged |
| Users.User.SetOnline | src/User.java:24 | the online flag becomes the value set; username and join time are unchanged |
| Users.User.Equals | src/User.java:32-37 | two users are equal iff their usernames are equal |
| Users.User.ToString | src/User.java:27-29 | a user's text starts with its username and ends in " (Online)" exactly when it is online, " (Offline)" exactly when not |
| Users.User.HashCode | src/User.java:40-42 | a user's hash is the 32-bit `String.hashCode` of its username |
| Users.EqualsIsReflexive | src/User.java:33 | every user equals itself |
| Users.EqualsIsSymmetric | src/User.java:32-37 | `a.equals(b)` iff `b.equals(a)` |
| Users.EqualUsersHashAlike | src/User.java:32-42 | equal users have equal hash codes |
| Routing.Deliver | src/ClientHandler.java:112-120 | one write of the same envelope per recipient, in recipient order |
| Routing.Taken | src/ClientHandler.java:163-172 | `isUsernameTaken(n)` holds iff `n` is among the names the roster lists |
| Routing.ListedIffNamed | src/ClientHandler.java:163-182 | some listed handler has a user named `n` iff `n` is among the roster's names |
| Routing.Names | src/ClientHandler.java:177-181 | the roster has at most one name per listed handler |
| Routing.JoinRoster | src/ClientHandler.java:177-182 | the roster text is empty iff there are no names, and otherwise ends in a comma |
| Routing.Recipients | src/ClientHandler.java:112-113 | every handler a broadcast writes to is listed, running and not the excluded sender, and there are at most as many as listed handlers |
| Routing.Remove | src/ClientHandler.java:218 | `List.remove` takes away exactly one occurrence of the handler, if any, and leaves the list alone when it is absent |
| Routing.Send | src/ClientHandler.java:198-205 | a write changes neither handlers nor list; it appends exactly one entry, `m` to `to`, when `to` is running and nothing otherwise |
| Routing.BroadcastStep | src/ClientHandler.java:110-122 | a broadcast changes neither handlers nor list; it only appends, at most one write per listed handler, each of `m` to a listed running handler other than the excluded sender |
| Routing.PublishRoster | src/ClientHandler.java:174-196 | publishing the roster changes neither handlers nor list; it only appends USER_LIST envelopes, each to a listed running handler |
| Routing.PrivateStep | src/ClientHandler.java:124-144 | a private message changes neither handlers nor list; it appends at most two writes, each either to the sender or of `m` to a handler named as its recipient |
| Routing.RenameStep | src/ClientHandler.java:146-161 | the list is kept; a taken name leaves every handler as it was; a free name becomes the requester's user and nothing else about any handler changes |
| Routing.CloseStep | src/ClientHandler.java:212-229 | the handler stops and keeps its user, no other handler changes; without a user nothing is written and the list is kept; with one it leaves the list exactly once |
| Routing.HandshakeStep | src/ClientHandler.java:30-54 | only the newcomer's entry can change; it is bound to the requested name iff the CONNECT is accepted, and otherwise keeps its user |
| Routing.HandleStep | src/ClientHandler.java:86-108 | only the handler's own entry can change and it stays bound to a user; USER_LIST and CONNECT change nothing |
| Routing.RunSpec | src/ClientHandler.java:27-84 | whatever is read, `run` ends with the handler stopped, and the number of handlers is unchanged |
| Routing.FindRecipient | src/ClientHandler.java:127-139 | a found handler is running and has the name, and no earlier listed handler is running with that name; when none is found, no listed running handler has the name |
| Routing.Serve | src/ClientHandler.java:59-77 | the read loop changes no handler but its own, keeps that one bound to a user, and keeps the number of handlers |
| RoutingLaws.RecipientsExactly | src/ClientHandler.java:110-122 | a broadcast writes to a handler iff it is listed, running and not the excluded sender (a null sender excludes no one) |
| RoutingLaws.RecipientsDistinct | src/ClientHandler.java:110-122 | a list without repeats gives a broadcast that writes to each handler at most once |
| RoutingLaws.ConsistentClientsDistinct | src/ClientHandler.java:35-45 | while usernames are unique, no handler is listed twice |
| RoutingLaws.NamesOfBound | src/ClientHandler.java:175-182 | when every listed handler has a user, the roster has one name per listed handler, each that handler's name |
| RoutingLaws.RosterNamesUnique | src/ClientHandler.java:175-182 | the roster of a consistent server lists every registered handler once, under pairwise different names |
| RoutingLaws.JoinRosterAppend | src/ClientHandler.java:177-181 | each appended name adds `name + ","` to the roster text |
| RoutingLaws.BroadcastReachesExactly | src/ClientHandler.java:110-122 | `broadcastMessage(m, s)` writes `m` unchanged once to each listed running handler other than `s`, and to no one else; handlers and list are unchanged |
| RoutingLaws.PrivateReachesOnlyRecipient | src/ClientHandler.java:124-144 | a private message reaches only the first running listed handler with the name, then the sender gets "Private message sent to"; with no such handler only the sender hears back, "is not online or doesn't exist" |
| RoutingLaws.OwnNameIsTaken | src/ClientHandler.java:147 | a registered handler's own name counts as taken |
| RoutingLaws.RenameRefusedWhenTaken | src/ClientHandler.java:146-151 | renaming to a taken name changes neither handlers nor list and writes one PRIVATE refusal, to the requester only |
| RoutingLaws.RenameApplies | src/ClientHandler.java:153-160 | renaming to a free name binds it; the rename notice and then the new roster go to every running listed handler, requester included |
| RoutingLaws.RenameSwapsRosterName | src/ClientHandler.java:153-160 | after a rename the roster lists the new name and not the old one |
| RoutingLaws.RenameKeepsConsistent | src/ClientHandler.java:146-161 | a rename keeps usernames unique and listed handlers running |
| RoutingLaws.ReboundNames | src/ClientHandler.java:153-154 | binding a listed handler to a free name keeps the invariant, makes the new name taken and frees the old one |
| RoutingLaws.RebindKeepsUnique | src/ClientHandler.java:153-154 | rebinding a listed handler to a name no listed handler has keeps names unique and leaves no one listed under the old name |
| RoutingLaws.RemoveKeepsUnique | src/ClientHandler.java:217-219 | removing a listed handler keeps names unique and leaves no one listed under its name |
| RoutingLaws.RemoveShape | src/ClientHandler.java:218 | `List.remove` drops exactly the one occurrence of a listed handler |
| RoutingLaws.CloseUnregisters | src/ClientHandler.java:212-229 | closing a registered handler stops it and unlists it; the leave notice and then the new roster go to the remaining running handlers |
| RoutingLaws.CloseFreesName | src/ClientHandler.java:215-219 | once a registered handler is closed its name is no longer taken |
| RoutingLaws.RemovedNameIsFree | src/ClientHandler.java:215-219 | stopping a registered handler and removing it from the list frees its name |
| RoutingLaws.NotListedIsFree | src/ClientHandler.java:163-172 | a name no listed handler has is not taken |
| RoutingLaws.CloseTwiceRepeatsNotice | src/ClientHandler.java:101-104 | a second close leaves handlers and list as they are but sends the leave notice and the roster again |
| RoutingLaws.CloseUnboundIsQuiet | src/ClientHandler.java:212-215 | closing a handler without a user only clears its `running` flag and writes nothing |
| RoutingLaws.CloseKeepsConsistent | src/ClientHandler.java:212-229 | closing keeps the invariant |
| RoutingLaws.HandshakeIgnoresOthers | src/ClientHandler.java:30-31 | a first envelope that is not CONNECT (or a null object) registers nothing and writes nothing |
| RoutingLaws.HandshakeRejectsTaken | src/ClientHandler.java:35-38 | any CONNECT envelope (whatever its sender and recipient) whose content is a taken name gets exactly one PRIVATE "Username already taken" from "Server" to the newcomer, which stops; the list is unchanged and no one else receives anything |
| RoutingLaws.HandshakeAdmitsFree | src/ClientHandler.java:42-54 | a CONNECT for a free name appends the handler; it gets the CONNECT confirmation, every other running listed handler gets the join notice, then every running listed handler, newcomer included, gets the roster |
| RoutingLaws.HandshakeExtendsRoster | src/ClientHandler.java:42-54 | the roster after an admission is the previous roster plus the new name |
| RoutingLaws.AdmittedListConsistent | src/ClientHandler.java:42-45 | binding a fresh handler to a free name and appending it keeps the invariant |
| RoutingLaws.RejectKeepsConsistent | src/ClientHandler.java:35-38 | the refusal and close of a newcomer keep the invariant |
| RoutingLaws.HandshakeKeepsConsistent | src/ClientHandler.java:30-54 | the handshake keeps the invariant |
| RoutingLaws.HandleKeepsConsistent | src/ClientHandler.java:86-108 | handling any envelope keeps the invariant |
| RoutingLaws.ServeKeepsConsistent | src/ClientHandler.java:59-77 | the read loop keeps the invariant |
| RoutingLaws.RunEndsClosed | src/ClientHandler.java:27-84 | whatever a fresh handler reads, `run` ends with it stopped and unlisted and the invariant intact |
| RoutingLaws.ClosedIsUnlisted | src/ClientHandler.java:212-219 | after a close the handler is neither running nor listed |
| ClientHandler.Registry.constructor | src/Server.java:19 | the shared list starts empty, with no handlers and no writes |
| ClientHandler.Registry.NewHandler | src/ClientHandler.java:13-16 | a new handler is running, has no user and is not listed; the invariant is kept |
| ClientHandler.Registry.SendMessage | src/ClientHandler.java:198-205 | a write to a handler that is not running is dropped; otherwise it is appended |
| ClientHandler.Registry.BroadcastMessage | src/ClientHandler.java:110-122 | the loop computes the broadcast step, so `RoutingLaws.BroadcastReachesExactly` describes its writes |
| ClientHandler.Registry.IsUsernameTaken | src/ClientHandler.java:163-172 | true iff some listed handler has a user with that name, iff the name is on the roster |
| ClientHandler.Registry.BuildUserList | src/ClientHandler.java:175-182 | the StringBuilder loop yields `name + ","` for each listed handler with a user, in list order |
| ClientHandler.Registry.UpdateUserList | src/ClientHandler.java:174-196 | the roster message goes to every running listed handler |
| ClientHandler.Registry.SendPrivateMessage | src/ClientHandler.java:124-144 | the early-return loop computes the private step of `RoutingLaws.PrivateReachesOnlyRecipient` |
| ClientHandler.Registry.UpdateUsername | src/ClientHandler.java:146-161 | computes the rename step of `RoutingLaws.RenameRefusedWhenTaken` and `RoutingLaws.RenameApplies` |
| ClientHandler.Registry.CloseConnection | src/ClientHandler.java:212-229 | computes the close step of `RoutingLaws.CloseUnregisters`, and keeps the invariant |
| ClientHandler.Registry.Admit | src/ClientHandler.java:42-52 | the accepting branch binds the name, appends the handler, then confirms, announces and publishes the roster in that order |
| ClientHandler.Registry.Handshake | src/ClientHandler.java:30-54 | reports whether the handler was admitted and computes the handshake step; for a fresh handler it keeps the invariant |
| ClientHandler.Registry.HandleMessage | src/ClientHandler.java:86-108 | computes the dispatch: BROADCAST excludes the sender, PRIVATE, USERNAME_UPDATE and DISCONNECT go to their steps, the rest is ignored; for a listed handler it keeps the invariant |
| ClientHandler.Registry.ReadLoop | src/ClientHandler.java:59-77 | the loop computes the read loop of `Routing.Serve` |
| ClientHandler.Registry.Run | src/ClientHandler.java:27-84 | handshake, read loop while running, and the final close; afterwards the invariant holds and the handler is stopped and unlisted |
| ChatClient.ParseInput | src/Client.java:608-636 | blank input sends nothing; `@` with no space, or a space right after it, is malformed; otherwise `@` text is a PRIVATE whose recipient is non-empty and space-free and for which `"@" + recipient + " " + content` is the trimmed text; any other text is a BROADCAST to "all" with the trimmed text; the sender is always the client's username |
| ChatClient.SplitAtFirstSpace | src/Client.java:619-624 | cutting a trimmed `@` text at its first space, found past position 1, gives a space-free recipient and a non-empty content that reassemble into the text |
| ChatClient.Prefill | src/Client.java:375 | the prefill is `@`, the user's name, then one space |
| ChatClient.Echo | src/Client.java:617-642 | the echo is an outgoing bubble from "You", private iff the envelope is PRIVATE; its text is the content, preceded by "To " + recipient + ": " for a PRIVATE |
| ChatClient.PrefillRoundTrip | src/Client.java:372-377 | for a non-empty, space-free `u` and a non-empty `m` whose last char is above U+0020, the prefill `"@" + u + " "` followed by `m` parses to a PRIVATE to `u` with content `m` |
| ChatClient.KeepNames | src/Client.java:595-599 | the loop keeps at most one name per part |
| ChatClient.KeepNamesExactly | src/Client.java:595-599 | a name is kept iff some non-blank part trims to it |
| ChatClient.KeptNamesAreWellFormed | src/Client.java:595-599 | when no part has a comma, every kept name is non-empty, trimmed and comma-free |
| ChatClient.ParseUserList | src/Client.java:591-600 | every name the client lists is non-empty, trimmed and comma-free |
| ChatClient.Dispatch | src/Client.java:566-584 | BROADCAST and PRIVATE show an incoming bubble with the sender and content, marked private iff PRIVATE; USER_LIST replaces the roster; CONNECT and DISCONNECT show a notice; USERNAME_UPDATE does nothing |
| ChatClient.ConnectEnvelope | src/Client.java:439 | the CONNECT carries the typed username as content |
| ChatClient.DisconnectEnvelope | src/Client.java:466 | the DISCONNECT carries the client's username as sender |
| ChatClient.Client.constructor | src/Client.java:61-64 | a new client is disconnected with an empty list and the welcome notice |
| ChatClient.Client.ConnectToServer | src/Client.java:430-454 | a null or blank username, or an unreachable server, sends nothing; otherwise the CONNECT is written, the client is connected and shows "Connecting to server..." |
| ChatClient.Client.CloseConnection | src/Client.java:477-520 | disconnected, with the list cleared, a count of 0 and the notice "Disconnected from server." |
| ChatClient.Client.DisconnectFromServer | src/Client.java:462-475 | when connected, a DISCONNECT is written and the connection closed; otherwise nothing changes |
| ChatClient.Client.SendMessage | src/Client.java:608-644 | when connected and the field parses to an envelope, it is written, echoed as an outgoing "You" bubble and the field is cleared; in every other case nothing changes |
| ChatClient.Client.Submit | src/Client.java:638-644 | for a parsed envelope: it is written, echoed and the field cleared; for anything else nothing changes |
| ChatClient.Client.SelectUser | src/Client.java:372-377 | a double-click on another user's entry prefills `"@" + user + " "`; on one's own entry or none nothing changes |
| ChatClient.Client.UpdateUserList | src/Client.java:591-605 | the list is the parsed roster, and the count shown is its size |
| ChatClient.Client.HandleIncomingMessage | src/Client.java:566-584 | applies the dispatch of the envelope to the chat lines or the user list |
| Protocol.RosterIsJoin | src/ClientHandler.java:175-182 | the roster text is the names joined by commas, followed by a trailing comma |
| Protocol.KeepWellFormed | src/Client.java:595-599 | well-formed names pass the client's filter unchanged |
| Protocol.SplitRoster | src/Client.java:594 | `split(",")` of a roster string gives back its names |
| Protocol.RosterRoundTrip | src/Client.java:591-600 | the client's list parsed from the server's roster string is the server's list of names, for non-empty, trimmed, comma-free names |
| Protocol.CommaInNameSplitsRosterEntry | src/ClientHandler.java:179 | the roster entry of the name `a,b` is parsed as two users, `a` and `b` |
| Protocol.ClientsSeeRegisteredNames | src/ClientHandler.java:184-194 | when every registered name is non-empty, trimmed and comma-free, after a roster message every client lists exactly the registered names, one per registered handler |
| Protocol.ConnectRequestsTypedName | src/ClientHandler.java:31-35 | the client's CONNECT is admitted iff no listed handler has the typed name |
| Protocol.TypedBroadcastArrives | src/Client.java:635 | a public line typed by a registered client reaches every other registered client, with sender and trimmed text intact, as an incoming public bubble; it is not echoed back by the server |
| Protocol.PrivateToListedNameArrives | src/ClientHandler.java:124-144 | a PRIVATE to a listed name reaches a handler with that name, then the sender gets the confirmation, and nothing else is written |
| Protocol.PrefilledPrivateArrives | src/Client.java:619-627 | a private line to a registered user reaches a handler with that name as an incoming private bubble, and the sender alone gets the confirmation |

## Left out

- src/Server.java is not part of this model: socket `accept`, the thread pool, `System.exit` and the shutdown hook. Only its choice of a `CopyOnWriteArrayList` shows, in the snapshot iteration.
- Sockets, Java object serialization and stream closing: a write is an entry in the log, and what a client reads is given as a sequence of envelopes.
- Write failures: an `IOException` in `sendMessage` that closes the target's connection (src/ClientHandler.java:206-208), and the client's close after a failed send (src/Client.java:646-650), are not modelled. Every write to a running handler succeeds.
- Concurrency: the handler threads, `synchronized`, the client's listener thread and the race between the check at src/ClientHandler.java:35 and the add at :43-45. Each handler step is atomic.
- Timestamps and clocks: the timestamp is not part of `Envelope`; the clock readings of `Message` and `User` are parameters; `Message.toString` and the `HH:mm` formatting are not modelled.
- The Swing surface of the client: layout, CSS, HTML insertion, dialogs other than the username dialog, the emoji popup, the status label and the enabling of buttons. The host and port dialogs and `Integer.parseInt` are not modelled; `ConnectToServer` starts from the username dialog.
- `processEmojis`: it depends on `HashMap` iteration order.
- The client's reaction to the server closing the stream (src/Client.java:532-537) belongs to the listener thread, which is not modelled; `CloseConnection` is the step it ends with.
- A null `type` in `handleMessage`, a null username or content, and a `Message` read as another class: every envelope has one of the six types and its strings are present. A null object read by the server is `None`. When the first object read is null, the source throws a NullPointerException at `connectMessage.getType()` that its `catch` does not catch; its `finally` closes the handler and the exception leaves `run`. The model ends in the same state: `HandshakeIgnoresOthers` registers and writes nothing, then `RunSpec` closes the handler.
- Users.User.Equals: only compares against `User` objects or null. The `getClass` test for other classes is not modelled.
- Users.JavaHash: hashes one Unicode scalar value per char. For a char above U+FFFF, Java hashes its two UTF-16 surrogates instead, so the two hashes differ.
- Routing.Serve: states only which handler entries can change. What the read loop does is given by its definition and by `RoutingLaws.ServeKeepsConsistent`.
- Routing.RunSpec: states only that the handler ends stopped. Its effect on the list and the invariant is stated by `RoutingLaws.RunEndsClosed`.
- Routing.Names: bounds the roster's length only. Which names it lists is stated by `Routing.Taken`, `Routing.ListedIffNamed` and `RoutingLaws.NamesOfBound`.
- Routing.PublishRoster: states the USER_LIST kind but not the roster text. The text is stated by `RoutingLaws.RenameApplies`, `RoutingLaws.CloseUnregisters` and `RoutingLaws.HandshakeAdmitsFree`.
- Routing.RenameStep: does not state that the log only grows. What it writes is stated by the `RoutingLaws` lemmas about it.
- Routing.CloseStep: does not state that the log only grows. What it writes is stated by the `RoutingLaws` lemmas about it.
- Routing.HandshakeStep: does not state that the log only grows. What it writes is stated by the `RoutingLaws` lemmas about it.
- Routing.HandleStep: does not state that the log only grows. What it writes is stated by the `RoutingLaws` lemmas about it.
- On the server the `User` object is represented by its username. Its join time and online flag are never read there.
- The getters `getUser` and `isRunning` are field reads (`Routing.UserOf`, `Routing.IsRunning`); `getUsername` (the bound name, or "unknown" before the handshake) only feeds the error log, which is not modelled.
