/**
 * The private-chat identifier of backend/server.js: the two socket ids are put
 * in an array, sorted with JavaScript's default `sort()` (which compares strings
 * code unit by code unit) and joined with "-".
 */
module ChatIds {

  type SocketId = string

  /** Strict lexicographic order on strings, as JavaScript's `<` on strings. */
  predicate LexLess(a: string, b: string)
  {
    |b| > 0 && (|a| == 0 || a[0] < b[0] || (a[0] == b[0] && LexLess(a[1..], b[1..])))
  }

  /** Two distinct strings are ordered one way or the other, and never both ways. */
  lemma {:induction false} LexTrichotomy(a: string, b: string)
    ensures a == b || LexLess(a, b) || LexLess(b, a)
    ensures !(LexLess(a, b) && LexLess(b, a))
  {
    if |a| > 0 && |b| > 0 && a[0] == b[0] {
      LexTrichotomy(a[1..], b[1..]);
      if a[1..] == b[1..] {
        assert a == [a[0]] + a[1..] && b == [b[0]] + b[1..];
      }
    }
  }

  /** No string sorts strictly before itself: the asymmetry of `LexTrichotomy` with `b := a`. */
  lemma LexIrreflexive(a: string)
    ensures !LexLess(a, a)
  {
    LexTrichotomy(a, a);
  }

  /** `[a, b].sort()`: the pair in ascending order (a first when they are equal). */
  function SortPair(a: SocketId, b: SocketId): (p: seq<SocketId>)
    ensures |p| == 2 && multiset(p) == multiset{a, b}
    ensures !LexLess(p[1], p[0])
  {
    if LexLess(b, a) then
      LexTrichotomy(a, b);
      [b, a]
    else [a, b]
  }

  /** `parts.join(sep)`. */
  function Join(parts: seq<string>, sep: string): (s: string)
    ensures |parts| == 0 ==> s == ""
    ensures |parts| == 1 ==> s == parts[0]
    ensures |parts| == 2 ==> s == parts[0] + sep + parts[1]
    decreases |parts|
  {
    if |parts| == 0 then ""
    else if |parts| == 1 then parts[0]
    else parts[0] + sep + Join(parts[1..], sep)
  }

  /** `[a, b].sort().join('-')`, the key of a private chat and the name of its room. */
  function ChatId(a: SocketId, b: SocketId): (c: string)
    ensures c == a + "-" + b || c == b + "-" + a
    ensures |c| == |a| + |b| + 1
  {
    Join(SortPair(a, b), "-")
  }

  /** The id is the smaller socket id, a dash, then the larger one. */
  lemma ChatIdShape(a: SocketId, b: SocketId)
    ensures LexLess(b, a) ==> ChatId(a, b) == b + "-" + a
    ensures !LexLess(b, a) ==> ChatId(a, b) == a + "-" + b
  {
  }

  /** Both participants derive the same id, whichever of them starts the chat. */
  lemma ChatIdCommutative(a: SocketId, b: SocketId)
    ensures ChatId(a, b) == ChatId(b, a)
  {
    LexTrichotomy(a, b);
    ChatIdShape(a, b);
    ChatIdShape(b, a);
  }

  /** A socket may start a chat with itself; its id is `a-a`. */
  lemma ChatIdSelf(a: SocketId)
    ensures ChatId(a, a) == a + "-" + a
  {
  }

  /**
   * Socket ids of one length (socket.io draws them all of one fixed length)
   * give distinct pairs distinct chat ids: the id names the unordered pair.
   */
  lemma ChatIdInjective(a: SocketId, b: SocketId, c: SocketId, d: SocketId)
    requires |a| == |b| == |c| == |d|
    requires ChatId(a, b) == ChatId(c, d)
    ensures multiset{a, b} == multiset{c, d}
  {
    var p, q := SortPair(a, b), SortPair(c, d);
    assert p[1..] == [p[1]] && q[1..] == [q[1]];
    assert |p[0]| == |q[0]| by {
      assert p[0] == a || p[0] == b;
      assert q[0] == c || q[0] == d;
    }
    DashSplit(p[0], p[1], q[0], q[1]);
    assert p == q;
  }

  lemma DashSplit(x: string, y: string, u: string, v: string)
    requires |x| == |u| && x + "-" + y == u + "-" + v
    ensures x == u && y == v
  {
    var s := x + "-" + y;
    assert x == s[..|x|] && u == s[..|u|];
    assert y == s[|x| + 1..] && v == (u + "-" + v)[|u| + 1..];
  }

  /** Without equal lengths two different pairs can share an id. */
  lemma ChatIdCollision()
    ensures ChatId("a-b", "c") == ChatId("a", "b-c") == "a-b-c"
  {
  }
}
