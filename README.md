# Chat relay state, modelled in Dafny

This project models the in-memory core of a socket.io chat server
(`backend/server.js`). The server keeps three process-wide stores:

- `users`: a JavaScript `Map` from socket id to `{id, username, joinedAt}`.
- `messages`: the global history, at most 100 entries.
- `privateChats`: a `Map` from chat id to that chat's message log.

One socket handler per command reads and changes these stores, and decides
which sockets receive each event it emits. The handlers are `connection`,
`send-message`, `start-private-chat`, `send-private-message` and
`disconnect`.

Modules, leaves first:

- `ChatIds`: the chat id `[a, b].sort().join('-')`. This covers JavaScript's
  default string order, the sort of a pair and `join`.
- `Usernames`: `generateUsername`, with the three `Math.random()` results as
  parameters. It also has a parser that recovers the adjective, noun and
  number from a name.
- `OrderedMap`: a JavaScript `Map` as a value. It holds the keys in insertion
  order next to a Dafny `map`, with `set`, `get`, `delete` and
  `Array.from(m.values())`.
- `History`: the push-then-shift bound on the global history.
- `PrivateChats`: the chat logs and the membership of the socket.io rooms.
- `Relay`: the `ChatServer` class. It holds the four stores as fields and has
  one method per handler. Node runs each handler to completion, so each
  method is one atomic step. Each method returns the list of emissions it
  makes, in order. An emission is a recipient set and an event.

Fan-out is stated as follows:

- `socket.emit` goes to `{id}`.
- `socket.broadcast.emit` goes to every connected socket outside the room
  named after the caller's own id. That is everyone but the caller, unless
  some chat id equals the caller's id; then that chat's members are skipped
  too (`Relay.BroadcastSkipsOnlyCaller` shows this cannot happen when socket
  ids share one length).
- `io.emit` goes to every connected socket.
- `io.to(room).emit` goes to the room's connected members. socket.io also
  puts every socket in a room named after its own id, so the connected socket
  whose id equals `room` receives it too.

The connected sockets are exactly the registered ones. The connection handler
registers a socket before any of its other handlers can run, and `disconnect`
removes it.

Where the code does less than its event names suggest, the model follows the code:

- `send-private-message` does not check that the chat exists or that the
  sender belongs to it. It only checks that the sender is registered
  (backend/server.js:115-116). It creates a missing log through `|| []`
  (backend/server.js:127-129). `ChatServer.SendPrivateMessage` states this.
- A second connect with an id that is already registered overwrites the entry
  (`users.set`, backend/server.js:38). The entry keeps its place in the user
  list. Nothing treats this as an error.
- A socket may start a chat with itself. The chat id is then `a-a`
  (`ChatIds.ChatIdSelf`).
- `send-private-message` sends to whatever room `data.chatId` names
  (backend/server.js:131). A `chatId` equal to a connected socket's id reaches
  that socket even if it never joined a chat, because of socket.io's own-id
  room. `ChatServer.SendPrivateMessage` states this.
- The user list keeps `Map` insertion order (`OrderedMap.SetNewValues`,
  `OrderedMap.SetPresentValues`).

## Model

| member | source | states |
|---|---|---|
| ChatIds.LexIrreflexive | backend/server.js:95 | no string sorts strictly before itself, so `sort()` leaves a pair of equal ids as it is |
| ChatIds.LexTrichotomy | backend/server.js:95 | the string order `sort()` uses is total and asymmetric: two strings are equal or exactly one is smaller |
| ChatIds.SortPair | backend/server.js:95 | `[a, b].sort()` is a two-element permutation of `a, b` in ascending order |
| ChatIds.Join | backend/server.js:95 | `join` of no parts is empty, of one part is that part, of two parts puts the separator between them |
| ChatIds.ChatId | backend/server.js:95 | the chat id is one socket id, a dash, then the other, so it is one character longer than the two ids together |
| ChatIds.ChatIdShape | backend/server.js:95 | the chat id is the smaller socket id, a dash, then the larger one |
| ChatIds.ChatIdCommutative | backend/server.js:95 | swapping the caller's id and the target's id gives the same chat id |
| ChatIds.ChatIdSelf | backend/server.js:95 | a chat of a socket with itself has id `a-a` |
| ChatIds.ChatIdInjective | backend/server.js:95 | for socket ids of one length, equal chat ids mean the same unordered pair of sockets |
| ChatIds.ChatIdCollision | backend/server.js:95 | ids of different lengths can give two different pairs the same chat id (`a-b`,`c` and `a`,`b-c`) |
| Usernames.Draw | backend/server.js:27-29 | `Math.floor(Math.random() * n)` is an index below `n` |
| Usernames.AdjectivesPrefixFree | backend/server.js:25 | no adjective is a prefix of another, so a name's adjective is read back unambiguously |
| Usernames.NounsPrefixFree | backend/server.js:26 | no noun is a prefix of another, so a name's noun is read back unambiguously |
| Usernames.DecimalRoundTrip | backend/server.js:29-30 | the decimal form of the number parses back to the number |
| Usernames.DecimalStringOfParse | backend/server.js:29-30 | a numeral without leading zeros is exactly how its value prints |
| Usernames.ParseComposeName | backend/server.js:30 | a name built from an adjective, a noun and a number parses back to those three picks |
| Usernames.ParseNameSound | backend/server.js:24-31 | the parser accepts exactly the strings `generateUsername` can produce, and what it returns rebuilds the string |
| Usernames.ComposeNameInjective | backend/server.js:30 | different picks never give the same name |
| Usernames.GenerateUsername | backend/server.js:24-31 | the result is one of the 10 adjectives, then one of the 10 nouns, then the decimal form of a number in [0, 1000) |
| Usernames.GeneratedNameRecordsDraws | backend/server.js:24-31 | the generated name records exactly the adjective, noun and number that the three draws picked |
| OrderedMap.Get | backend/server.js:67-68 | `users.get(id)` is defined exactly for registered ids and returns the stored record |
| OrderedMap.Set | backend/server.js:38-42 | `users.set`: the id maps to the new record and every other entry is unchanged; a new id goes last, a present one keeps its place |
| OrderedMap.Delete | backend/server.js:138 | `users.delete`: the id is gone, every other entry stays; deleting an absent id changes nothing |
| OrderedMap.WithoutKeepsOrder | backend/server.js:138 | deleting a key keeps the relative order of all other keys |
| OrderedMap.Values | backend/server.js:54 | `Array.from(users.values())` lists one record per registered id, in insertion order |
| OrderedMap.ValuesAreEntries | backend/server.js:54 | the users list holds exactly the stored records |
| OrderedMap.SetNewValues | backend/server.js:38-42 | registering a new id appends its record to the end of the users list |
| OrderedMap.SetPresentValues | backend/server.js:38-42 | re-registering an id replaces its record where it stands in the users list |
| OrderedMap.ReplayKeys | backend/server.js:37-138 | after any run of connects (`set`) and disconnects (`delete`), the registered ids are exactly those connected and not disconnected since |
| History.KeepLast | backend/server.js:80-83 | keeping the last `n` gives `min(len, n)` elements, the tail of the input in order |
| History.Append | backend/server.js:78-83 | after a send the history holds 1 to 100 messages and ends with the new one; below the limit nothing is dropped |
| History.AppendBounded | backend/server.js:78-83 | a send keeps the history at 100 at most and puts the new message last; a full history drops exactly its oldest message, a non-full one drops nothing |
| History.PushShiftIsAppend | backend/server.js:78-83 | `push` then one `shift` when the length passes 100 is the same as keeping the last 100 |
| History.AppendAllKeepsLast | backend/server.js:78-83 | after any run of sends the history is exactly the last 100 of everything sent, in order |
| History.HundredAndFifty | backend/server.js:78-83 | 150 sends from an empty history leave the last 100, in order |
| PrivateChats.EnsureLog | backend/server.js:97-99 | the chat gets an empty log only if it had none; every existing log is kept |
| PrivateChats.AppendLog | backend/server.js:127-129 | the message goes to the end of the chat's log, which is created if missing; every other log is unchanged |
| PrivateChats.JoinRoom | backend/server.js:102-103 | `join` adds the socket to that room's members only |
| PrivateChats.LeaveAll | backend/server.js:135 | when a socket disconnects it is in no room any more, and every other socket's memberships stay |
| PrivateChats.OpenRoom | backend/server.js:97-103 | the chat has a log (an existing one untouched), both sockets are members of its room, no other room changes |
| PrivateChats.OpenRoomRooms | backend/server.js:102-103 | opening a chat adds exactly the two sockets to that one room |
| PrivateChats.OpenChat | backend/server.js:95-103 | for the chat id of the two sockets: its log exists (an existing one and every other log kept, a new one empty), both sockets join its room, and no other room changes |
| PrivateChats.OpenChatIdempotent | backend/server.js:95-103 | starting the same chat again, from either side, changes neither the logs nor the rooms |
| PrivateChats.ChatIdEnds | backend/server.js:95 | both sockets of a chat are ends of its id: one is its first characters, the other its last |
| PrivateChats.JoinKeepsNames | backend/server.js:102-103 | joining a socket whose id is an end of the room's name keeps every room holding only ends of its own name |
| PrivateChats.OpenChatKeepsNames | backend/server.js:95-103 | starting a chat joins only the two ends of its id, so every room still holds only ends of its name |
| PrivateChats.LeaveAllKeepsNames | backend/server.js:135 | leaving every room on disconnect adds no member anywhere, so the same holds afterwards |
| PrivateChats.OnlyThePairInRoom | backend/server.js:95-103 | when room members are ends of room names and ids share one length, room `ChatId(a, b)` holds no socket but `a` and `b` |
| PrivateChats.ReplayKeepsNames | backend/server.js:95-138 | after any run of chat starts and disconnects, every room still holds only ends of its name |
| PrivateChats.OnlyPairsAfterReplay | backend/server.js:95-138 | from no rooms, after any run of chat starts and disconnects, the room of `ChatId(a, b)` holds no same-length socket but `a` and `b` |
| Relay.ChatServer.Everyone | backend/server.js:63 | `io.emit` reaches exactly the sockets that `users.get` finds |
| Relay.ChatServer.RoomRecipients | backend/server.js:131 | `io.to(c)` reaches only connected sockets: every connected member of room `c`, the connected socket whose id is `c`, and nobody else |
| Relay.ChatServer.UserList | backend/server.js:63 | the users list has exactly one entry per connected socket (as many entries as sockets, no socket twice), and each entry is the record stored under its own id |
| Relay.ChatServer.constructor | backend/server.js:19-21 | the server starts with no users, no history, no chat logs and no rooms |
| Relay.ChatServer.Connect | backend/server.js:33-63 | the id maps to a record with the generated name and every other entry is unchanged; the caller gets `user-assigned`, then the history, then the users list; the sockets outside the caller's own-id room get `user-joined`; everyone gets the new users list |
| Relay.ChatServer.SendMessage | backend/server.js:66-86 | from an unregistered socket nothing changes and nothing is sent; otherwise the message, by the sender's name, is appended under the 100 bound and `new-message` goes to everyone |
| Relay.ChatServer.StartPrivateChat | backend/server.js:89-111 | unless both sockets are registered nothing changes; otherwise the log exists (an existing one kept), both sockets join the room, and `private-chat-started` with the chat id, both records and the log goes to the room's connected members, both participants among them |
| Relay.ChatServer.SendPrivateMessage | backend/server.js:114-132 | from an unregistered socket nothing changes; otherwise exactly one message, tagged with the chat id and the sender's name, goes to the end of that chat's log (created if missing), the history and other logs are unchanged, and `new-private-message` goes to that room's connected members and to the connected socket whose id equals the chat id, and to nobody else |
| Relay.PrivateEventsReachOnlyThePair | backend/server.js:105-131 | with socket ids of one length, `private-chat-started` and `new-private-message` to `ChatId(a, b)` reach no socket but `a` and `b` |
| Relay.BroadcastSkipsOnlyCaller | backend/server.js:57 | with socket ids of one length, `socket.broadcast.emit` reaches every connected socket but the caller |
| Relay.ChatServer.Disconnect | backend/server.js:135-150 | the socket first leaves every room; a registered id is removed and no other entry changes; `user-left` goes to the connected sockets outside the leaver's own-id room, then the users list to all; an unknown id changes no other store and sends nothing |

## Left out

- Express, `http.createServer`, the socket.io server and its CORS options, `app.use` and `server.listen` (backend/server.js:1-16, 153-156) are framework calls. socket.io's `emit`, `broadcast`, `to(room)` and `join` are modelled as recipient sets and a membership map.
- socket.io's rooms are library state. The model keeps only the membership the handlers create (`join`, and leaving every room on disconnect) and adds each socket's own-id room when it computes the recipients of `io.to`.
- `Math.random()` draws are real parameters in [0, 1). Floating-point rounding of `Math.random() * n` is not modelled; exact reals are used.
- `Date.now()` and `new Date()` readings are integer parameters (milliseconds). Each reading is a separate parameter, because the source reads the clock separately for each field. Message ids are not assumed unique.
- The `console.log` calls only produce output.
- The React client (frontend/src/App.js) is not part of this model. It only mirrors server events into view state.
- Concurrency: each handler runs to completion in Node's single thread, so each is one atomic method.
- JavaScript compares strings by UTF-16 code units. The model compares Dafny characters, which are Unicode scalar values. The two orders agree on characters of the Basic Multilingual Plane, and socket.io ids are ASCII.
- The payload fields `data.text`, `data.chatId` and `data.targetUserId` can be any JSON value in the source. The model takes them as strings, so a missing field is not modelled.
- Socket ids are any strings in the model. socket.io makes them all one length; the privacy and broadcast lemmas take that as a premise rather than the handlers assuming it.
- The fact that every room holds only ends of its name (`PrivateChats.MembersNameRooms`) is proved over runs of room changes (`PrivateChats.ReplayKeepsNames`), not carried in `ChatServer.Valid()`. The handlers change `rooms` only through `OpenChat` and `LeaveAll`, which are those steps.
- Every handler assumes its payload is an object. A missing or `null` payload makes `data.text` or `data.targetUserId` throw an uncaught TypeError (backend/server.js:73, 91, 121). socket.io 3 and later (which `io.sockets.sockets.get` at backend/server.js:103 requires) runs listeners from a `process.nextTick` callback, and the server installs no `uncaughtException` handler. So the exception ends the Node process, and every connection and all three stores are lost. The model has no such case: its methods always take the payload fields.
- Events are values. The source emits the live `messages` array and the live log array by reference, but socket.io serialises them at the moment of the emit, so a value snapshot is what clients receive.
