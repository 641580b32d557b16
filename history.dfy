/**
 * The global chat history of backend/server.js: `messages.push(m)`, then one
 * `messages.shift()` when the array has grown past 100 entries.
 */
module History {

  /** The most messages the global history keeps. */
  const HistoryLimit: nat := 100

  /** The last `n` elements of `s`, or all of `s` when it has fewer. */
  function KeepLast<T>(s: seq<T>, n: nat): (r: seq<T>)
    ensures |r| == if |s| <= n then |s| else n
    ensures forall i :: 0 <= i < |r| ==> r[i] == s[|s| - |r| + i]
  {
    if |s| <= n then s else s[|s| - n..]
  }

  /** The history after one more message: push, then drop the oldest if over the limit. */
  function Append<T>(h: seq<T>, m: T): (r: seq<T>)
    ensures 0 < |r| <= HistoryLimit && r[|r| - 1] == m
    ensures |h| < HistoryLimit ==> r == h + [m]
  {
    KeepLast(h + [m], HistoryLimit)
  }

  /**
   * Appending to a history within the limit keeps it within the limit, puts the
   * new message last, and drops the oldest message exactly when the history was full.
   */
  lemma AppendBounded<T>(h: seq<T>, m: T)
    requires |h| <= HistoryLimit
    ensures |Append(h, m)| <= HistoryLimit
    ensures Append(h, m)[|Append(h, m)| - 1] == m
    ensures |h| < HistoryLimit ==> Append(h, m) == h + [m]
    ensures |h| == HistoryLimit ==> Append(h, m) == h[1..] + [m]
  {
  }

  /** `push` followed by one `shift` when the length passed the limit is `Append`. */
  lemma PushShiftIsAppend<T>(h: seq<T>, m: T)
    requires |h| <= HistoryLimit
    ensures (if |h + [m]| > HistoryLimit then (h + [m])[1..] else h + [m]) == Append(h, m)
  {
  }

  /** The history after a run of messages, one `Append` each. */
  function AppendAll<T>(h: seq<T>, ms: seq<T>): seq<T>
    decreases |ms|
  {
    if ms == [] then h else AppendAll(Append(h, ms[0]), ms[1..])
  }

  /** Trimming early and trimming once at the end leave the same last 100. */
  lemma KeepLastTwice<T>(s: seq<T>, t: seq<T>)
    ensures KeepLast(KeepLast(s, HistoryLimit) + t, HistoryLimit) == KeepLast(s + t, HistoryLimit)
  {
  }

  /**
   * However many messages are sent, the history holds exactly the last 100 of
   * everything sent (old history included), in the order they were sent.
   */
  lemma {:induction false} AppendAllKeepsLast<T>(h: seq<T>, ms: seq<T>)
    requires |h| <= HistoryLimit
    ensures AppendAll(h, ms) == KeepLast(h + ms, HistoryLimit)
    decreases |ms|
  {
    if ms != [] {
      AppendAllKeepsLast(Append(h, ms[0]), ms[1..]);
      AppendThenRest(h, ms[0], ms[1..]);
      assert [ms[0]] + ms[1..] == ms;
    }
  }

  /** Keeping the last 100 after one `Append` and then more messages is keeping the last 100 once. */
  lemma AppendThenRest<T>(h: seq<T>, m: T, t: seq<T>)
    ensures KeepLast(Append(h, m) + t, HistoryLimit) == KeepLast(h + ([m] + t), HistoryLimit)
  {
    KeepLastTwice(h + [m], t);
    assert h + [m] + t == h + ([m] + t);
  }

  /** 150 messages sent from an empty history leave the last 100 of them, in order. */
  lemma HundredAndFifty<T>(ms: seq<T>)
    requires |ms| == 150
    ensures AppendAll([], ms) == ms[50..]
  {
    AppendAllKeepsLast([], ms);
    assert [] + ms == ms;
  }
}
