/**
 * The relay state of backend/server.js and its socket handlers. Node runs each
 * handler to completion, so each one is a single method of `ChatServer`; each
 * returns the events it emits, in order, with the set of sockets each goes to.
 */
module Relay {
  import opened ChatIds
  import opened Usernames
  import opened History
  import opened PrivateChats
  import OrderedMap

  /** A `users` entry: `{id, username, joinedAt}`. */
  datatype User = User(id: SocketId, username: string, joinedAt: int)

  /** `type: 'global'`, or `type: 'private'` with the message's `chatId`. */
  datatype Kind = Global | Private(chatId: string)

  /** A chat message; `id` is a `Date.now()` reading and `timestamp` a `new Date()` one. */
  datatype Message = Message(id: int, username: string, text: string, timestamp: int, kind: Kind)

  /** The events the server emits, by their socket.io event names. */
  datatype Event =
    | UserAssigned(id: SocketId, username: string)                     // 'user-assigned'
    | MessageHistory(history: seq<Message>)                            // 'message-history'
    | UsersList(list: seq<User>)                                       // 'users-list'
    | UserJoined(joined: string, joinedAt: int)                        // 'user-joined'
    | UserLeft(left: string, leftAt: int)                              // 'user-left'
    | NewMessage(message: Message)                                     // 'new-message'
    | PrivateChatStarted(chatId: string, participants: seq<User>, log: seq<Message>) // 'private-chat-started'
    | NewPrivateMessage(privateMessage: Message)                       // 'new-private-message'

  /** A `users` entry stored under socket id `s`: it carries `s` and a generated name. */
  ghost predicate RegisteredAs(u: User, s: SocketId)
  {
    u.id == s && IsUsername(u.username)
  }

  /** One emit: the event and the sockets it reaches. */
  datatype Emission = Emission(to: set<SocketId>, event: Event)

  class ChatServer {
    /** `users`: socket id to user record, in insertion order. */
    var users: OrderedMap.OMap<User>
    /** `messages`: the global history. */
    var messages: seq<Message>
    /** `privateChats`: chat id to that chat's log. */
    var privateChats: map<string, seq<Message>>
    /** The socket.io rooms the handlers have joined sockets to. */
    var rooms: map<string, set<SocketId>>

    /**
     * Each user is stored under its own id and has a generated name; the
     * history holds at most 100 global messages; each chat log holds only
     * messages tagged with that chat's id; every room has a log.
     */
    ghost predicate Valid()
      reads this
    {
      && OrderedMap.Valid(users)
      && (forall s :: s in users.entries ==> RegisteredAs(users.entries[s], s))
      && |messages| <= HistoryLimit
      && (forall i :: 0 <= i < |messages| ==>
            messages[i].kind == Global && IsUsername(messages[i].username))
      && (forall c :: c in privateChats ==> forall i :: 0 <= i < |privateChats[c]| ==>
            privateChats[c][i].kind == Private(c) && IsUsername(privateChats[c][i].username))
      && rooms.Keys <= privateChats.Keys
    }

    /** Every connected socket: each is registered by the connection handler. */
    function Everyone(): (r: set<SocketId>)
      reads this
      ensures forall s :: s in r <==> OrderedMap.Get(users, s).Some?
    {
      users.entries.Keys
    }

    /**
     * The sockets `io.to(c)` reaches: the connected members of room `c`, and
     * the connected socket whose id is `c`, since socket.io puts every socket
     * in a room named after its own id.
     */
    function RoomRecipients(c: string): (r: set<SocketId>)
      reads this
      ensures r <= Everyone()
      ensures c in Everyone() ==> c in r
      ensures Members(rooms, c) * Everyone() <= r
      ensures r - {c} <= Members(rooms, c)
    {
      (Members(rooms, c) + {c}) * Everyone()
    }

    /** `Array.from(users.values())`: one record per connected socket, each stored under its own id. */
    function UserList(): (r: seq<User>)
      reads this
      requires Valid()
      ensures |r| == |Everyone()|
      ensures forall i :: 0 <= i < |r| ==> r[i].id in Everyone() && users.entries[r[i].id] == r[i]
      ensures forall i, j :: 0 <= i < j < |r| ==> r[i].id != r[j].id
    {
      OrderedMap.Values(users)
    }

    /** The server as it starts: every store empty. */
    constructor ()
      ensures Valid()
      ensures users.entries == map[] && messages == [] && privateChats == map[] && rooms == map[]
    {
      users := OrderedMap.Empty();
      messages := [];
      privateChats := map[];
      rooms := map[];
    }

    /**
     * The 'connection' handler: register the socket under a generated name,
     * send it its identity, the history and the user list, tell the sockets
     * outside its own-id room (everyone else, when ids share one length)
     * that it joined and send everyone the new user list.
     */
    method Connect(id: SocketId, r1: real, r2: real, r3: real, joinedAt: int, noticeAt: int)
      returns (out: seq<Emission>)
      requires Valid()
      requires 0.0 <= r1 < 1.0 && 0.0 <= r2 < 1.0 && 0.0 <= r3 < 1.0
      modifies this
      ensures Valid()
      ensures var name := GenerateUsername(r1, r2, r3);
        && users == OrderedMap.Set(old(users), id, User(id, name, joinedAt))
        && out == [
             Emission({id}, UserAssigned(id, name)),
             Emission({id}, MessageHistory(messages)),
             Emission({id}, UsersList(UserList())),
             Emission(Everyone() - RoomRecipients(id), UserJoined(name, noticeAt)),
             Emission(Everyone(), UsersList(UserList()))]
      ensures users.entries == old(users.entries)[id := User(id, GenerateUsername(r1, r2, r3), joinedAt)]
      ensures messages == old(messages) && privateChats == old(privateChats) && rooms == old(rooms)
    {
      var username := GenerateUsername(r1, r2, r3);
      var user := User(id, username, joinedAt);
      assert RegisteredAs(user, id);
      users := OrderedMap.Set(users, id, user);
      assert users.entries == old(users.entries)[id := user];
      var list := OrderedMap.Values(users);
      out := [
        Emission({id}, UserAssigned(id, username)),
        Emission({id}, MessageHistory(messages)),
        Emission({id}, UsersList(list)),
        Emission(Everyone() - RoomRecipients(id), UserJoined(username, noticeAt)),
        Emission(Everyone(), UsersList(list))];
    }

    /**
     * 'send-message': a registered sender's text is added to the global
     * history (which keeps its last 100 messages) and sent to everyone; from
     * an unregistered socket nothing happens.
     */
    method SendMessage(id: SocketId, text: string, now: int, at: int) returns (out: seq<Emission>)
      requires Valid()
      modifies this
      ensures Valid()
      ensures users == old(users) && privateChats == old(privateChats) && rooms == old(rooms)
      ensures id !in users.entries ==> messages == old(messages) && out == []
      ensures id in users.entries ==>
        var m := Message(now, users.entries[id].username, text, at, Global);
        && messages == Append(old(messages), m)
        && out == [Emission(Everyone(), NewMessage(m))]
    {
      var user := OrderedMap.Get(users, id);
      if user.None? {
        return [];
      }
      var message := Message(now, user.value.username, text, at, Global);
      AppendBounded(messages, message);
      messages := messages + [message];
      if |messages| > HistoryLimit {
        messages := messages[1..];
      }
      out := [Emission(Everyone(), NewMessage(message))];
    }

    /**
     * 'start-private-chat': when both sockets are registered, make sure the
     * chat's log exists, join both to its room and send the room the chat id,
     * both user records and the log; otherwise nothing happens.
     */
    method StartPrivateChat(id: SocketId, targetId: SocketId) returns (out: seq<Emission>)
      requires Valid()
      modifies this
      ensures Valid()
      ensures users == old(users) && messages == old(messages)
      ensures id !in users.entries || targetId !in users.entries ==>
        privateChats == old(privateChats) && rooms == old(rooms) && out == []
      ensures id in users.entries && targetId in users.entries ==>
        var c := ChatId(id, targetId);
        && Stores(privateChats, rooms) == OpenChat(Stores(old(privateChats), old(rooms)), id, targetId)
        && out == [Emission(RoomRecipients(c),
                     PrivateChatStarted(c, [users.entries[id], users.entries[targetId]], privateChats[c]))]
        && {id, targetId} <= out[0].to
    {
      var currentUser := OrderedMap.Get(users, id);
      var targetUser := OrderedMap.Get(users, targetId);
      if currentUser.None? || targetUser.None? {
        return [];
      }
      var chatId := ChatId(id, targetId);
      if chatId !in privateChats {
        privateChats := privateChats[chatId := []];
      }
      rooms := JoinRoom(rooms, chatId, id);
      rooms := JoinRoom(rooms, chatId, targetId);
      out := [Emission(RoomRecipients(chatId),
                PrivateChatStarted(chatId, [currentUser.value, targetUser.value], privateChats[chatId]))];
    }

    /**
     * 'send-private-message': a registered sender's text goes to the end of
     * the given chat's log (created if missing) and to the sockets in that
     * chat's room; from an unregistered socket nothing happens.
     */
    method SendPrivateMessage(id: SocketId, chatId: string, text: string, now: int, at: int)
      returns (out: seq<Emission>)
      requires Valid()
      modifies this
      ensures Valid()
      ensures users == old(users) && messages == old(messages) && rooms == old(rooms)
      ensures id !in users.entries ==> privateChats == old(privateChats) && out == []
      ensures id in users.entries ==>
        var m := Message(now, users.entries[id].username, text, at, Private(chatId));
        && privateChats == AppendLog(old(privateChats), chatId, m)
        && out == [Emission(RoomRecipients(chatId), NewPrivateMessage(m))]
        && out[0].to <= Members(rooms, chatId) + {chatId}
        && (chatId in Everyone() ==> chatId in out[0].to)
    {
      var user := OrderedMap.Get(users, id);
      if user.None? {
        return [];
      }
      var message := Message(now, user.value.username, text, at, Private(chatId));
      var recipients := RoomRecipients(chatId);
      var chatMessages := if chatId in privateChats then privateChats[chatId] else [];
      chatMessages := chatMessages + [message];
      privateChats := privateChats[chatId := chatMessages];
      out := [Emission(recipients, NewPrivateMessage(message))];
    }

    /**
     * 'disconnect': socket.io first takes the socket out of every room; then a
     * registered socket is removed, the sockets outside its own-id room are
     * told it left and everyone gets the new user list; for an unknown socket
     * nothing else changes and nothing is sent.
     */
    method Disconnect(id: SocketId, at: int) returns (out: seq<Emission>)
      requires Valid()
      modifies this
      ensures Valid()
      ensures messages == old(messages) && privateChats == old(privateChats)
      ensures rooms == LeaveAll(old(rooms), id)
      ensures users == OrderedMap.Delete(old(users), id)
      ensures users.entries == old(users.entries) - {id}
      ensures id !in old(users.entries) ==> users == old(users) && out == []
      ensures id !in Everyone()
      ensures id in old(users.entries) ==>
        out == [
             Emission(Everyone() - RoomRecipients(id), UserLeft(old(users.entries[id]).username, at)),
             Emission(Everyone(), UsersList(UserList()))]
    {
      var user := OrderedMap.Get(users, id);
      rooms := LeaveAll(rooms, id);
      if user.None? {
        return [];
      }
      users := OrderedMap.Delete(users, id);
      assert users.entries == old(users.entries) - {id};
      var others := Everyone() - RoomRecipients(id);
      var list := OrderedMap.Values(users);
      out := [Emission(others, UserLeft(user.value.username, at)), Emission(Everyone(), UsersList(list))];
    }
  }

  /**
   * With socket ids of one length, as socket.io's are, the events sent to a
   * private chat's room reach its two sockets and nobody else: the room holds
   * no one else, and no socket is named like a chat id.
   */
  lemma PrivateEventsReachOnlyThePair(srv: ChatServer, a: SocketId, b: SocketId)
    requires MembersNameRooms(srv.rooms)
    requires |a| == |b| && forall s :: s in srv.Everyone() ==> |s| == |a|
    ensures srv.RoomRecipients(ChatId(a, b)) <= {a, b}
  {
    var c := ChatId(a, b);
    forall s | s in srv.RoomRecipients(c) ensures s == a || s == b {
      assert |s| == |a| < |c|;
      OnlyThePairInRoom(srv.rooms, a, b, s);
    }
  }

  /**
   * With socket ids of one length, no other socket shares a socket's own-id
   * room, so `socket.broadcast.emit` reaches every connected socket but the
   * caller.
   */
  lemma BroadcastSkipsOnlyCaller(srv: ChatServer, id: SocketId)
    requires MembersNameRooms(srv.rooms)
    requires forall s :: s in srv.Everyone() ==> |s| == |id|
    ensures srv.Everyone() - srv.RoomRecipients(id) == srv.Everyone() - {id}
  {
    forall s | s in srv.RoomRecipients(id) ensures s == id {
      if s in Members(srv.rooms, id) {
        FullLengthEnd(s, id);
      }
    }
  }
}
