/**
 * Listing the keys of a hash map. Iteration order of a hash map is
 * unspecified, so a listing is any sequence that holds every key exactly once.
 */
module Enumeration {

  /** `s` lists the set `keys`: every key appears, nothing else does, and no entry repeats. */
  ghost predicate Enumerates<K(!new)>(s: seq<K>, keys: set<K>)
  {
    && (forall i, j :: 0 <= i < j < |s| ==> s[i] != s[j])
    && (forall k :: k in s <==> k in keys)
  }

  /** A listing has exactly one entry per key. */
  lemma {:induction false} EnumerationLength<K(!new)>(s: seq<K>, keys: set<K>)
    requires Enumerates(s, keys)
    ensures |s| == |keys|
    decreases |s|
  {
    if s != [] {
      var rest := keys - {s[0]};
      forall k ensures k in s[1..] <==> k in rest {
        if k in s[1..] {
          var j :| 1 <= j < |s| && s[j] == k;
          assert s[0] != s[j];
        }
      }
      assert Enumerates(s[1..], rest);
      EnumerationLength(s[1..], rest);
    } else {
      assert forall k :: k !in keys;
      assert keys == {};
    }
  }

  /** The only listing of a one-element set is that element alone. */
  lemma EnumeratesSingleton<K(!new)>(s: seq<K>, x: K)
    requires Enumerates(s, {x})
    ensures s == [x]
  {
    EnumerationLength(s, {x});
    assert s[0] in {x};
  }

  /** The keys of `m`, in some order: `m.keys().cloned().collect()`. */
  method Keys<K(!new), V>(m: map<K, V>) returns (s: seq<K>)
    ensures Enumerates(s, m.Keys)
  {
    s := [];
    var remaining := m.Keys;
    while remaining != {}
      invariant remaining <= m.Keys
      invariant forall i, j :: 0 <= i < j < |s| ==> s[i] != s[j]
      invariant forall k :: k in s <==> k in m.Keys - remaining
      decreases remaining
    {
      var k :| k in remaining;
      assert k !in s;
      s := s + [k];
      remaining := remaining - {k};
    }
  }
}
