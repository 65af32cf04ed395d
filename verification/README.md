# chatserv protocol core, in Dafny

A model of the line-based chat server (`src/ChatServer.java`) together with its session
(`src/User.java`), room (`src/Room.java`) and message codec (`src/Message.java`).

Clients send newline-terminated lines. A line starting with `/` is a command:
`/nick`, `/join`, `/leave`, `/bye` or `/priv`. Any other non-empty line is public text for
the sender's room. The server answers with wire lines such as `OK`, `ERROR`,
`MESSAGE nick text`, `NEWNICK old new`, `JOINED nick`, `LEFT nick`, `BYE` and
`PRIVATE nick text`. A session moves between the states INIT (no nickname), OUTSIDE
(named, in no room) and INSIDE (in a room).

The model is functional:

- The server state (`ChatServer.Server`) has three maps. Sessions are keyed by connection.
  The other two are the source's two registries: nickname to session, and room name to room.
- A room's members are a set of connection ids. The broadcast order is recomputed from the
  current nicknames whenever a room is iterated (`Rooms.InNicknameOrder`).
- Every handler is a pure function. It returns the next state and the writes it makes, in
  order, as a sequence of `Delivery(to, message)`.
- The regular expressions are written out by hand (`Patterns`). This covers Java's
  leftmost-match `find()`, whole-string `matches()`, the greedy `[^ .]+` group and the
  `(.*)` group, which stops at line terminators.
- `String.trim`, `String.compareTo` and `String.split("\n")` are modelled in `Text`. Like
  the Java original, `split` drops trailing empty pieces.

Modules, one per file:

| file | module | models |
|---|---|---|
| text.dfy | Wrappers, Text | Option; trim, compareTo, split("\n"), the two character classes |
| patterns.dfy | Patterns | the keyword + group patterns: `find()` and `matches()` |
| codec.dfy | Codec | Message, its wire and display renderings, `parse_string` |
| codec_properties.dfy | CodecProperties | round trips; the PRIVATE misread; a corrected, anchored decoder |
| session.dfy | Session | User, its constructor, setters, `compareTo`, buffer operations |
| room.dfy | Rooms | Room, `join_user` and `left_user`, nickname-ordered iteration |
| server.dfy | ChatServer | the handlers and `close_client` |
| commands.dfy | Commands | classification of a line into a command |
| commands_properties.dfy | CommandProperties | what typical and atypical lines classify as |
| input.dfy | Input | `processInput`: buffering, gating on '\n', splitting, dispatch |
| invariant.dfy | Invariant | the registry invariant and its preservation by every step |
| server_properties.dfy | ServerProperties | who hears what |

The invariant (`Invariant.Inv`) has six parts:

- `SessionsKeyed`: each session is stored under its own connection.
- `NicksSound`: each registered nickname is a token and belongs to a live session that holds it.
- `NicksComplete`: an INIT session has no nickname, and every other session is registered
  under its nickname.
- `RoomsSound`: every registered room is non-empty and stored under its own name.
- `MembersInside`: every member of a room is an INSIDE session whose room is that room.
- `InsideMember`: every INSIDE session is a member of its room.

It holds initially and is preserved by connecting, by every handler, by teardown and by a
whole read (`Invariant.ReceivePreservesInv`).

## Model

| member | source | states |
|---|---|---|
| Text.Trim | src/ChatServer.java:244 | the result has no blank at either end and is the infix of the input left after dropping blanks (chars <= ' ') from both ends |
| Text.TrimOfTrimmed | src/ChatServer.java:284 | trimming a line that has no blank at either end leaves it unchanged |
| Text.CompareTo | src/User.java:45 | String.compareTo is zero exactly when the strings are equal |
| Text.CompareToAntisymmetric | src/User.java:43-46 | swapping the arguments of compareTo negates the result |
| Text.CompareToTransitive | src/User.java:43-46 | "compares below" is transitive, so the nickname order is a strict order |
| Text.SplitNewline | src/ChatServer.java:239 | no piece of split("\n") contains a newline |
| Text.SplitNewlineCovers | src/ChatServer.java:239 | for a buffer ending in '\n', the pieces, each followed by '\n', spell a prefix of the buffer; everything after that prefix is '\n' (the dropped empty pieces) |
| Patterns.MatchAt | src/Message.java:18-29 | a match found at a position satisfies the reference definition: the keyword is there, each group is a maximal run of its class, and the groups are separated by the space the pattern needs |
| Patterns.MatchAtComplete | src/Message.java:18-29 | conversely, any match the reference definition allows at a position is the one MatchAt returns, so matches are unique |
| Patterns.FindFrom | src/Message.java:99 | find() returns the leftmost position with a match, and reports none only when no position has one |
| Patterns.FindLeftmost | src/ChatServer.java:246 | a match at i with no match before i is exactly what find() returns |
| Patterns.MatchWhole | src/Message.java:91 | Pattern.matches succeeds exactly when some match starts at 0 and consumes the whole string, and then it returns that match |
| Patterns.NoSpaceNoMatch | src/Message.java:121 | a pattern whose keyword ends in a space is never found in a string without a space |
| Codec.Bare | src/Message.java:41-46 | the one-argument constructor sets both tokens to "" |
| Codec.WithToken | src/Message.java:54-59 | the two-argument constructor keeps token1 and sets token2 to "" |
| Codec.Render | src/Message.java:162-245 | toString ends with exactly one appended "\n", after the wire form or the display sentence |
| Codec.Parse | src/Message.java:83-137 | parse_string yields OK exactly for "OK" and BYE exactly for "BYE". MESSAGE, NEWNICK, JOINED, LEFT and PRIVATE are decided by the first of their patterns found, in that order, and the message carries that match's groups as its tokens. ERROR, with no tokens, comes exactly when the line is neither "OK" nor "BYE" and none of the five patterns is found (so the exact word "ERROR" is included) |
| CodecProperties.WireRoundTrip | src/Message.java:91-136 | decoding the wire line of OK, BYE, JOINED, LEFT, NEWNICK or MESSAGE, with tokens in `[^ .]+` and text without line terminators, gives back the message |
| CodecProperties.WireInjective | src/Message.java:167-242 | two such messages with the same wire line are equal |
| CodecProperties.ErrorLosesItsText | src/Message.java:178-186 | ERROR's wire line is "ERROR\n" whatever its tokens, it decodes to an ERROR with no text, and only the display sentence shows the text |
| CodecProperties.PrivateFromJoinedMisread | src/Message.java:111-130 | a PRIVATE line from the nickname "JOINED" decodes as a JOINED notice for the first word of the text |
| CodecProperties.PrivateTextWithLeftMisread | src/Message.java:111-130 | the PRIVATE line `PRIVATE bob I LEFT early` decodes as the notice `LEFT early`, because LEFT is searched for before PRIVATE |
| CodecProperties.ParseAnchored | src/Message.java:91-136 | the anchored decoder keeps the decoded-token guarantees of parse_string |
| CodecProperties.AnchoredRoundTrip | src/Message.java:91-136 | with every pattern matched against the whole line, every wire line decodes back to its message, PRIVATE included |
| Session.NewUser | src/User.java:18-33 | a fresh session is INIT, with nickname "", no room and an empty buffer, on its socket |
| Session.Compare | src/User.java:43-46 | compareTo is zero exactly for equal nicknames, and swapping the sessions negates it |
| Session.SetNickname | src/User.java:61-65 | set_nickname changes the nickname and no other field |
| Session.SetState | src/User.java:79-83 | set_state changes the state and no other field |
| Session.SetRoom | src/User.java:97-101 | set_room changes the room and no other field |
| Session.AddToBuffer | src/User.java:112-116 | the buffer becomes the old buffer followed by the new input |
| Session.AdvanceBuffer | src/User.java:124-128 | given idx at most the buffer's length, the old buffer is its first idx chars followed by the new buffer |
| Session.AddThenAdvance | src/User.java:112-128 | appending input and then dropping the old buffer leaves exactly the input |
| Rooms.NewRoom | src/Room.java:17-21 | a new room has the given name and no members |
| Rooms.JoinUser | src/Room.java:35-39 | the members become the old members plus the user; the name is kept; re-adding a member changes nothing |
| Rooms.LeftUser | src/Room.java:44-48 | the members become the old members minus the user; the name is kept; removing a non-member changes nothing |
| Rooms.PrecedesTotal | src/User.java:43-46 | of two distinct sessions exactly one precedes the other |
| Rooms.PrecedesTransitive | src/User.java:43-46 | the member order is transitive |
| Rooms.FirstExists | src/Room.java:9 | every non-empty member set has a first member in nickname order |
| Rooms.InNicknameOrder | src/Room.java:9 | iterating a room lists every member exactly once, in ascending nickname order |
| ChatServer.Broadcast | src/ChatServer.java:444-447 | a broadcast writes the message once to each given member, in nickname order, and to nobody else |
| ChatServer.PublicMessage | src/ChatServer.java:439-452 | INSIDE: MESSAGE nick text to every member of the sender's room, sender included; otherwise "You are not in a room."; the state never changes |
| ChatServer.NickCommand | src/ChatServer.java:466-502 | OK exactly when the nickname is free or already the sender's own. On success INIT becomes OUTSIDE, the old key is dropped, the new one maps to the sender, and an INSIDE sender's other room members get NEWNICK old new. On failure there is one error and no change |
| ChatServer.Reregister | src/ChatServer.java:494-495 | after the rename the registry holds the new nickname for the sender, and every other key except the old nickname as before |
| ChatServer.Depart | src/ChatServer.java:570-582 | the session leaves its room first; LEFT then goes to the remaining members; nothing but the rooms changes |
| ChatServer.Vacate | src/ChatServer.java:570-582 | the room loses the session and is dropped from the registry once empty; other rooms are untouched |
| ChatServer.LeaveCommand | src/ChatServer.java:564-586 | not INSIDE: "You are not in a room." and no change. INSIDE: LEFT to the remaining members, then OK; the sender becomes OUTSIDE and keeps its room field |
| ChatServer.Occupy | src/ChatServer.java:532-541 | the room exists afterwards, created under that name when absent, with the session added; other rooms are untouched |
| ChatServer.DepartThenReturn | src/ChatServer.java:526-541 | leaving a room and then joining the same room gives the old members plus the session |
| ChatServer.JoinCommand | src/ChatServer.java:516-551 | INIT: "You don't have a nickname." and no change. Otherwise: all that leave writes first (if INSIDE), then JOINED nick to every member of the target room including the joiner, then OK; the sender is INSIDE that room |
| ChatServer.PrivateCommand | src/ChatServer.java:617-632 | INIT: "You don't have a nickname."; unknown target: "<target>: No such nickname online."; otherwise OK to the sender and PRIVATE nick text to the target's holder only; no change |
| ChatServer.Teardown | src/ChatServer.java:159-184 | working from the connection's session record alone, whether or not it is still registered: an INSIDE session departs with LEFT to the rest of its room, the record's nickname key is removed, the connection's session is gone, and no other session changes |
| ChatServer.CloseClient | src/ChatServer.java:159-184 | on a live connection: an INSIDE session departs with LEFT to the rest; the nickname key is removed, the session is gone, and no other session changes |
| ChatServer.TeardownIsLeaveWithoutOk | src/ChatServer.java:159-184 | for an INSIDE session teardown changes the rooms exactly as leave does, and writes what leave writes minus the final OK |
| ChatServer.ByeCommand | src/ChatServer.java:597-603 | BYE to the sender, then exactly the teardown |
| Commands.Body | src/ChatServer.java:244 | the command text is trimmed and shorter than the line |
| Commands.Classify | src/ChatServer.java:242-285 | an empty line is no command; a line not starting with '/' is public text after trim. For a '/' line the first rule that applies to its trimmed body wins, in the source's order: nick if its pattern is found, then join if found, then leave or bye if the body is exactly that word, then priv if found, then slash-public if the body starts with '/'. Each rule holds exactly when every earlier one fails and its own applies, and a found command carries its match's groups. Unknown comes exactly when none applies |
| CommandProperties.NickRoundTrip | src/ChatServer.java:246-249 | "/nick n" is a nick command for n |
| CommandProperties.JoinRoundTrip | src/ChatServer.java:250-253 | "/join r" is a join command for r |
| CommandProperties.PrivRoundTrip | src/ChatServer.java:262-271 | "/priv t x" is a private message to t with text x, when neither "nick " nor "join " occurs in it |
| CommandProperties.PublicRoundTrip | src/ChatServer.java:282-285 | a trimmed line not starting with '/' is public text, unchanged |
| CommandProperties.DoubleSlashNick | src/ChatServer.java:244-249 | "//nick n" is still a nick command, because find() is unanchored |
| CommandProperties.PrivHijackedByJoin | src/ChatServer.java:250-271 | "/priv bob join lobby" is dispatched as a join to "lobby", because join is tried before priv |
| Input.Dispatch | src/ChatServer.java:246-279 | only bye removes the sender; no other session appears, and no buffer changes |
| Input.UnknownLineErrors | src/ChatServer.java:246-279 | a '/' line that no rule classifies gets the single reply ERROR "Unknown command." and changes no state |
| Input.HandleLine | src/ChatServer.java:242-285 | an empty line does nothing; the sender survives unless the line starts with '/' and its trimmed remainder is exactly "bye" (so "/bye ", "/ bye" and "/bye\r" also end the session) |
| Input.RunLines | src/ChatServer.java:239-289 | the first line's handler runs first and its writes open the batch's writes; a bye on it ends the batch; each handled line advances the sender's buffer by its length plus one; other sessions' buffers are untouched |
| Input.Receive | src/ChatServer.java:207-291 | an empty read closes the connection. A read not ending in '\n' only buffers it. After a read ending in '\n' only newlines stay buffered |
| Input.ReceiveRunsLines | src/ChatServer.java:216-239 | on an idle connection a read ending in '\n' is exactly the loop over the lines split("\n") gives |
| Input.ReceiveOneLine | src/ChatServer.java:207-291 | one complete line arriving on an idle connection gives exactly the writes of that line's handler; the state is the handler's, with the buffer emptied unless the line was a bye |
| Input.ReceiveTwoLines | src/ChatServer.java:239-289 | two complete lines in one read are handled in order: the first line's writes, then those of the second line handled in the state the first left |
| Input.Connect | src/ChatServer.java:111 | a new connection gets a fresh INIT session and nothing else changes |
| Input.ChunkingIrrelevant | src/ChatServer.java:233-237 | a read that does not end a line, followed by another read, has the same effect as the two read at once |
| Invariant.InitialInv | src/ChatServer.java:43-44 | the empty registries satisfy the invariant |
| Invariant.ConnectPreservesInv | src/ChatServer.java:111 | a new connection keeps the invariant |
| Invariant.NickAcceptedMeans | src/ChatServer.java:466-473 | under the invariant a rename is accepted exactly when the nickname is unregistered or registered to the sender |
| Invariant.NickPreservesInv | src/ChatServer.java:466-502 | renaming keeps the invariant |
| Invariant.LeavePreservesInv | src/ChatServer.java:564-586 | leaving keeps the invariant |
| Invariant.JoinPreservesInv | src/ChatServer.java:516-551 | joining keeps the invariant |
| Invariant.CloseClientPreservesInv | src/ChatServer.java:159-184 | teardown keeps the invariant |
| Invariant.DispatchPreservesInv | src/ChatServer.java:246-279 | every command keeps the invariant |
| Invariant.RunLinesPreservesInv | src/ChatServer.java:239-289 | a batch of lines keeps the invariant |
| Invariant.ReceivePreservesInv | src/ChatServer.java:207-291 | a whole read keeps the invariant |
| ServerProperties.MembersHaveDistinctNicknames | src/ChatServer.java:469-472 | under the invariant no two members of a room share a nickname |
| ServerProperties.MemberOrderIsNicknameOrder | src/User.java:43-46 | so between members the order is decided by compareTo on nicknames alone |
| ServerProperties.SenderHearsOwnMessage | src/ChatServer.java:439-447 | public text reaches its own sender too |
| ServerProperties.JoinerHearsOwnJoined | src/ChatServer.java:539-546 | the joiner receives its own JOINED |
| ServerProperties.SameNickRename | src/ChatServer.java:466-491 | renaming to one's own nickname while INSIDE changes nothing, yet every other member gets NEWNICK n n |
| ServerProperties.SameNickChangesNothing | src/ChatServer.java:466-497 | renaming a named session to its own nickname leaves the state unchanged |
| ServerProperties.RenameSpeaksToSenderOnce | src/ChatServer.java:485-496 | a rename writes nothing to the sender except its final reply |
| ServerProperties.LeaverNotToldLeft | src/ChatServer.java:570-577 | leave never sends LEFT to the session that leaves |
| ServerProperties.LastLeaverDropsRoom | src/ChatServer.java:579-582 | the last member to leave removes the room from the registry |
| ServerProperties.RejoinKeepsMembers | src/ChatServer.java:526-541 | joining the room one is in leaves its member set as it was |
| ServerProperties.PrivateReachesHolder | src/ChatServer.java:623-627 | under the invariant a private message goes to the live session that holds the target nickname |
| ServerProperties.SecondTeardownResendsLeft | src/ChatServer.java:159-184 | close_client is not idempotent: a second teardown from the same session record, after the first left a room others still hold, changes no state but writes LEFT to every remaining member again |

## Left out

- The selector loop, accept and registration, socket reads and writes, and the UTF-8 decoder
  and encoder. A read is a string parameter of `Input.Receive`. A write is an entry in the
  returned deliveries. A new connection is `Input.Connect` with a fresh id.
- IOException paths. Writes are infallible here. In the source, a failed write mid-broadcast
  aborts the handler, and the catch in `main` then tears down the sender
  (src/ChatServer.java:131-136). Closing the socket itself is not modelled. Teardown removes
  the session.
- Lines after `/bye` in the same read. The model stops handling the batch once the session is
  gone. In the source the loop goes on with the closed session, and close_client has left
  that session's state and room field as they were. Public text after `/bye` from an INSIDE
  sender still reaches the room's other members as MESSAGE (src/ChatServer.java:439-447):
  nothing is written to the closed channel and there is no second teardown. A command that
  replies to the sender (OK or ERROR, as `/nick`, `/join`, `/leave` and `/priv` do) writes
  to the closed channel. That write fails, and the catch in `main`
  (src/ChatServer.java:131-136) runs close_client a second time.
- The second teardown itself. The source's close_client is not idempotent: run again on the
  same session record it re-sends LEFT to the members still in the room.
  `ServerProperties.SecondTeardownResendsLeft` proves this of `ChatServer.Teardown`, but the
  model's handling of a read never performs a second teardown.
- The TreeSet stale key. A member who renames while INSIDE changes its sort key in place. The
  source then iterates in the old order, and `left_user` may miss the member. The model
  orders members by current nickname and always finds them. This is recorded in room.dfy.
- Rooms.InNicknameOrder: it breaks nickname ties by connection id where a TreeSet would keep
  only one of the tied sessions. `ServerProperties.MembersHaveDistinctNicknames` shows that
  ties cannot occur under the invariant.
- Rooms by reference. In the source a session's room field is the `Room` object itself
  (src/ChatServer.java:162, 441, 482, 570), never looked up by name. The model stores the
  room's name and finds the room through the room registry. `ChatServer.Members` gives the
  empty set when the name is not registered. The two differ only for an INSIDE session whose
  room is no longer registered: the source would still use that room's own member set, and
  the model would see no members. The invariant (every INSIDE session is a member of its
  registered room) rules this state out.
- Java strings are UTF-16 code units and Dafny chars are Unicode scalar values. Both agree
  below U+10000. Surrogate pairs are not modelled.
- ChatClient.java: its Swing UI and blocking reads. Its one piece of logic is
  `parse_string(...).toString(true)`, which `Codec.Parse` and `Codec.Render` cover.
- Console logging.
- The general regular-expression engine. Only the patterns the program compiles are written
  out. For those shapes the first group is always the maximal run, because backtracking
  cannot find another match.

## Findings

| source | as written | input that shows it | evidently intended | confidence | as-written member | corrected member |
|---|---|---|---|---|---|---|
| src/Message.java:111-130 | parse_string finds JOINED and LEFT anywhere in the line and tries them before PRIVATE | the wire line `PRIVATE JOINED hello`, a private message from the nickname "JOINED", decodes as `JOINED hello`; likewise `PRIVATE bob I LEFT early` decodes as `LEFT early` (`CodecProperties.PrivateTextWithLeftMisread`). Any private line whose nickname or text holds `JOINED x`, `LEFT x`, `MESSAGE a b` or `NEWNICK a b` is misread the same way | each wire line decodes to the message it renders: patterns matched from the start of the line | not executed | CodecProperties.PrivateFromJoinedMisread | CodecProperties.AnchoredRoundTrip |
