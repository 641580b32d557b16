/**
 * The private-chat stores of backend/server.js: `privateChats`, a map from
 * chat id to that chat's log, and the membership of the socket.io room of the
 * same name that `socket.join(chatId)` adds to.
 */
module PrivateChats {
  import opened ChatIds

  /** `if (!privateChats.has(c)) privateChats.set(c, [])`: a log for `c`, an existing one kept. */
  function EnsureLog<M>(chats: map<string, seq<M>>, c: string): (r: map<string, seq<M>>)
    ensures r.Keys == chats.Keys + {c}
    ensures c !in chats ==> r[c] == []
    ensures forall k :: k in chats ==> r[k] == chats[k]
  {
    if c in chats then chats else chats[c := []]
  }

  /**
   * `(privateChats.get(c) || []).push(m)` stored back under `c`: `m` goes to the
   * end of `c`'s log, which is created if missing; every other log stays.
   */
  function AppendLog<M>(chats: map<string, seq<M>>, c: string, m: M): (r: map<string, seq<M>>)
    ensures r.Keys == chats.Keys + {c}
    ensures c in chats ==> r[c] == chats[c] + [m]
    ensures c !in chats ==> r[c] == [m]
    ensures forall k :: k in chats && k != c ==> r[k] == chats[k]
  {
    var log := if c in chats then chats[c] else [];
    chats[c := log + [m]]
  }

  /** The sockets that have joined room `c`. */
  function Members(rooms: map<string, set<SocketId>>, c: string): set<SocketId>
  {
    if c in rooms then rooms[c] else {}
  }

  /** `socket.join(c)`: `s` is now a member of room `c`; no other room changes. */
  function JoinRoom(rooms: map<string, set<SocketId>>, c: string, s: SocketId): (r: map<string, set<SocketId>>)
    ensures r.Keys == rooms.Keys + {c}
    ensures Members(r, c) == Members(rooms, c) + {s}
    ensures forall k :: k in rooms && k != c ==> r[k] == rooms[k]
  {
    rooms[c := Members(rooms, c) + {s}]
  }

  /**
   * socket.io drops a socket from every room when it disconnects: `s` is in no
   * room afterwards and every other membership stays.
   */
  function LeaveAll(rooms: map<string, set<SocketId>>, s: SocketId): (r: map<string, set<SocketId>>)
    ensures r.Keys == rooms.Keys
    ensures forall c :: Members(r, c) == Members(rooms, c) - {s}
  {
    map c | c in rooms :: rooms[c] - {s}
  }

  /** The two stores together. */
  datatype Stores<M> = Stores(chats: map<string, seq<M>>, rooms: map<string, set<SocketId>>)

  /** Makes sure room `c` has a log and that `a` and `b` have joined it. */
  function OpenRoom<M>(st: Stores<M>, c: string, a: SocketId, b: SocketId): (r: Stores<M>)
    ensures r.chats.Keys == st.chats.Keys + {c} && c in r.rooms
    ensures forall k :: k in st.chats ==> r.chats[k] == st.chats[k]
    ensures c !in st.chats ==> r.chats[c] == []
    ensures Members(r.rooms, c) == Members(st.rooms, c) + {a, b}
    ensures forall k :: k != c ==> Members(r.rooms, k) == Members(st.rooms, k)
  {
    Stores(EnsureLog(st.chats, c), JoinRoom(JoinRoom(st.rooms, c, a), c, b))
  }

  /**
   * What `start-private-chat` does to the stores once both sockets are known:
   * the log of `ChatId(a, b)` exists (an existing one untouched) and both
   * sockets have joined its room.
   */
  function OpenChat<M>(st: Stores<M>, a: SocketId, b: SocketId): (r: Stores<M>)
    ensures var c := ChatId(a, b);
      && r.chats.Keys == st.chats.Keys + {c}
      && (forall k :: k in st.chats ==> r.chats[k] == st.chats[k])
      && (c !in st.chats ==> r.chats[c] == [])
      && Members(r.rooms, c) == Members(st.rooms, c) + {a, b}
      && (forall k :: k != c ==> Members(r.rooms, k) == Members(st.rooms, k))
  {
    OpenRoom(st, ChatId(a, b), a, b)
  }

  /** The rooms after `OpenRoom`: room `c` gains `a` and `b`, nothing else changes. */
  lemma OpenRoomRooms<M>(st: Stores<M>, c: string, a: SocketId, b: SocketId)
    ensures OpenRoom(st, c, a, b).rooms == st.rooms[c := Members(st.rooms, c) + {a, b}]
  {
  }

  /**
   * Opening a chat again, by either participant, changes nothing: the log is
   * not reset and the room keeps the same members.
   */
  lemma OpenChatIdempotent<M>(st: Stores<M>, a: SocketId, b: SocketId)
    ensures OpenChat(OpenChat(st, a, b), a, b) == OpenChat(st, a, b)
    ensures OpenChat(OpenChat(st, a, b), b, a) == OpenChat(st, a, b)
  {
    ChatIdCommutative(a, b);
    var c := ChatId(a, b);
    var once := OpenRoom(st, c, a, b);
    OpenRoomRooms(st, c, a, b);
    OpenRoomRooms(once, c, a, b);
    OpenRoomRooms(once, c, b, a);
    assert Members(once.rooms, c) + {a, b} == Members(once.rooms, c) + {b, a} == Members(once.rooms, c);
    assert OpenRoom(once, c, a, b).chats == once.chats;
  }

  // ---- who can be in a room ----

  /** `s` is the first or the last `|s|` characters of `c`. */
  predicate EndOf(s: string, c: string)
  {
    |s| <= |c| && (c[..|s|] == s || c[|c| - |s|..] == s)
  }

  /**
   * Every member of a room is one end of the room's name. `start-private-chat`
   * is the only handler that joins sockets to rooms, and it joins exactly the
   * two sockets whose ids the room's name is built from.
   */
  predicate MembersNameRooms(rooms: map<string, set<SocketId>>)
  {
    forall c, s :: c in rooms && s in rooms[c] ==> EndOf(s, c)
  }

  /** Both sockets of a chat are ends of its id. */
  lemma ChatIdEnds(a: SocketId, b: SocketId)
    ensures EndOf(a, ChatId(a, b)) && EndOf(b, ChatId(a, b))
  {
    var c := ChatId(a, b);
    if c == a + "-" + b {
      assert c[..|a|] == a && c[|c| - |b|..] == b;
    } else {
      assert c[..|b|] == b && c[|c| - |a|..] == a;
    }
  }

  /** Joining an end of a room's name to that room keeps every member an end of its room's name. */
  lemma JoinKeepsNames(rooms: map<string, set<SocketId>>, c: string, s: SocketId)
    requires MembersNameRooms(rooms) && EndOf(s, c)
    ensures MembersNameRooms(JoinRoom(rooms, c, s))
  {
    var r := JoinRoom(rooms, c, s);
    forall k, t | k in r && t in r[k] ensures EndOf(t, k) {
      assert t in Members(r, k);
    }
  }

  /** Opening a chat joins only the two ends of its id. */
  lemma OpenChatKeepsNames<M>(st: Stores<M>, a: SocketId, b: SocketId)
    requires MembersNameRooms(st.rooms)
    ensures MembersNameRooms(OpenChat(st, a, b).rooms)
  {
    var c := ChatId(a, b);
    ChatIdEnds(a, b);
    JoinKeepsNames(st.rooms, c, a);
    JoinKeepsNames(JoinRoom(st.rooms, c, a), c, b);
    assert OpenChat(st, a, b).rooms == JoinRoom(JoinRoom(st.rooms, c, a), c, b);
  }

  /** An end of `c` as long as `c` is `c` itself. */
  lemma FullLengthEnd(s: string, c: string)
    requires EndOf(s, c) && |s| == |c|
    ensures s == c
  {
    assert c[..|c|] == c[|c| - |c|..] == c;
  }

  /** Leaving rooms never adds a member. */
  lemma LeaveAllKeepsNames(rooms: map<string, set<SocketId>>, s: SocketId)
    requires MembersNameRooms(rooms)
    ensures MembersNameRooms(LeaveAll(rooms, s))
  {
    var r := LeaveAll(rooms, s);
    forall k, t | k in r && t in r[k] ensures EndOf(t, k) {
      assert t in Members(r, k);
    }
  }

  /**
   * When socket ids all have one length, as socket.io's do, the room of
   * `ChatId(a, b)` holds no socket but `a` and `b`.
   */
  lemma OnlyThePairInRoom(rooms: map<string, set<SocketId>>, a: SocketId, b: SocketId, s: SocketId)
    requires MembersNameRooms(rooms)
    requires |a| == |b| == |s|
    requires s in Members(rooms, ChatId(a, b))
    ensures s == a || s == b
  {
    var c := ChatId(a, b);
    assert EndOf(s, c);
    if c == a + "-" + b {
      assert c[..|a|] == a && c[|c| - |b|..] == b;
    } else {
      assert c[..|b|] == b && c[|c| - |a|..] == a;
    }
  }

  /** The room changes the handlers make: `start-private-chat` and leaving on disconnect. */
  datatype RoomStep = Open(a: SocketId, b: SocketId) | Leave(s: SocketId)

  function ApplyStep<M>(st: Stores<M>, e: RoomStep): Stores<M>
  {
    match e
    case Open(a, b) => OpenChat(st, a, b)
    case Leave(s) => Stores(st.chats, LeaveAll(st.rooms, s))
  }

  function ReplayRooms<M>(st: Stores<M>, es: seq<RoomStep>): Stores<M>
    decreases |es|
  {
    if es == [] then st else ReplayRooms(ApplyStep(st, es[0]), es[1..])
  }

  /** After any run of opens and leaves from no rooms, every member still names its room. */
  lemma {:induction false} ReplayKeepsNames<M>(st: Stores<M>, es: seq<RoomStep>)
    requires MembersNameRooms(st.rooms)
    ensures MembersNameRooms(ReplayRooms(st, es).rooms)
    decreases |es|
  {
    if es != [] {
      StepKeepsNames(st, es[0]);
      ReplayKeepsNames(ApplyStep(st, es[0]), es[1..]);
    }
  }

  lemma StepKeepsNames<M>(st: Stores<M>, e: RoomStep)
    requires MembersNameRooms(st.rooms)
    ensures MembersNameRooms(ApplyStep(st, e).rooms)
  {
    match e
    case Open(a, b) => OpenChatKeepsNames(st, a, b);
    case Leave(s) => LeaveAllKeepsNames(st.rooms, s);
  }

  /**
   * Starting from no rooms, whatever chats are opened and sockets leave, a
   * room `ChatId(a, b)` holds no socket of the same id length but `a` and `b`.
   */
  lemma OnlyPairsAfterReplay<M>(chats: map<string, seq<M>>, es: seq<RoomStep>, a: SocketId, b: SocketId)
    requires |a| == |b|
    ensures forall s :: s in Members(ReplayRooms(Stores(chats, map[]), es).rooms, ChatId(a, b)) && |s| == |a| ==>
      s == a || s == b
  {
    var rooms := ReplayRooms(Stores(chats, map[]), es).rooms;
    ReplayKeepsNames(Stores(chats, map[]), es);
    forall s | s in Members(rooms, ChatId(a, b)) && |s| == |a| ensures s == a || s == b {
      OnlyThePairInRoom(rooms, a, b, s);
    }
  }
}
