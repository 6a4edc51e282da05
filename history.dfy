/**
 * The bounded conversation history both room variants keep: append at the
 * back, and when that makes it longer than the capacity drop the front item.
 */
module History {

  import opened Common

  /** Capacity of the history (MAX_HISTORY_SIZE in the mixnet room, MAX_HISTORY_ITEMS in the proxy room). */
  const MAX_HISTORY_SIZE: nat := 100

  /** The last `n` items of `s`, in order (all of `s` when it is shorter). */
  function LastN<T>(s: seq<T>, n: nat): (r: seq<T>)
    ensures |r| == if |s| <= n then |s| else n
  {
    if |s| <= n then s else s[|s| - n..]
  }

  /** The history after one `add_history_item(item)`: push at the back, pop one from the front if too long. */
  function Appended(h: seq<HistoryItem>, item: HistoryItem): (r: seq<HistoryItem>)
    ensures |h| <= MAX_HISTORY_SIZE ==> |r| <= MAX_HISTORY_SIZE
    ensures |h| <= MAX_HISTORY_SIZE ==> r == LastN(h + [item], MAX_HISTORY_SIZE)
    ensures r != [] && r[|r| - 1] == item
  {
    var grown := h + [item];
    if |grown| > MAX_HISTORY_SIZE then grown[1..] else grown
  }

  /** The history after appending `items` one by one, in order. */
  function AppendedAll(h: seq<HistoryItem>, items: seq<HistoryItem>): seq<HistoryItem>
    decreases |items|
  {
    if items == [] then h else AppendedAll(Appended(h, items[0]), items[1..])
  }

  /** Keeping the last `n` items, then adding more and keeping the last `n` again, is keeping the last `n` of everything. */
  lemma LastNOfLastN<T>(s: seq<T>, t: seq<T>, n: nat)
    ensures LastN(LastN(s, n) + t, n) == LastN(s + t, n)
  {
    if |s| > n {
      var k := |s| - n;
      assert s + t == s[..k] + (s[k..] + t);
      assert (s + t)[k..] == s[k..] + t;
      if |s[k..] + t| > n {
        assert (s + t)[|s + t| - n..] == (s[k..] + t)[|s[k..] + t| - n..];
      }
    }
  }

  /**
   * However many items are appended to a history within capacity, the result
   * is the last MAX_HISTORY_SIZE items of the whole sequence, in insertion order.
   */
  lemma {:induction false} AppendedAllKeepsLast(h: seq<HistoryItem>, items: seq<HistoryItem>)
    requires |h| <= MAX_HISTORY_SIZE
    ensures AppendedAll(h, items) == LastN(h + items, MAX_HISTORY_SIZE)
    decreases |items|
  {
    if items == [] {
      assert h + items == h;
    } else {
      var x, rest := items[0], items[1..];
      var h1 := Appended(h, x);
      calc {
        AppendedAll(h, items);
        AppendedAll(h1, rest);
        { AppendedAllKeepsLast(h1, rest); }
        LastN(h1 + rest, MAX_HISTORY_SIZE);
        LastN(LastN(h + [x], MAX_HISTORY_SIZE) + rest, MAX_HISTORY_SIZE);
        { LastNOfLastN(h + [x], rest, MAX_HISTORY_SIZE); }
        LastN(h + [x] + rest, MAX_HISTORY_SIZE);
        { assert h + [x] + rest == h + items; }
        LastN(h + items, MAX_HISTORY_SIZE);
      }
    }
  }

  /**
   * After at least MAX_HISTORY_SIZE appends, the history holds exactly the last
   * MAX_HISTORY_SIZE appended items, whatever it held before.
   */
  lemma FullAfterManyAppends(h: seq<HistoryItem>, items: seq<HistoryItem>)
    requires |h| <= MAX_HISTORY_SIZE
    requires |items| >= MAX_HISTORY_SIZE
    ensures |AppendedAll(h, items)| == MAX_HISTORY_SIZE
    ensures AppendedAll(h, items) == items[|items| - MAX_HISTORY_SIZE..]
  {
    AppendedAllKeepsLast(h, items);
    assert (h + items)[|h + items| - MAX_HISTORY_SIZE..] == items[|items| - MAX_HISTORY_SIZE..];
  }
}
