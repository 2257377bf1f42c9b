/**
 * The part of Python's `collections.Counter` that `boxes_metrics` in metrics.py relies
 * on, over frame numbers: building a counter from a list, `subtract`, which may drive
 * counts to zero or below, and `elements`, which repeats each key as often as its
 * count says and skips keys whose count is not positive. Like every Python dict, the
 * counter remembers the order in which its keys first appeared.
 */
module FrameCounter {

  function CountIn(m: map<int, int>, k: int): int
  {
    if k in m then m[k] else 0
  }

  class Counter {
    /** Signed count per key; a missing key counts zero. */
    var counts: map<int, int>
    /** The keys of `counts`, in insertion order. */
    var order: seq<int>

    ghost predicate Valid()
      reads this
    {
      && (forall i, j :: 0 <= i < j < |order| ==> order[i] != order[j])
      && (forall k :: k in counts <==> k in order)
    }

    function Get(k: int): int
      reads this
    {
      CountIn(counts, k)
    }

    /** `Counter(items)`: each key counted as often as it occurs in `items`. */
    constructor (items: seq<int>)
      ensures Valid()
      ensures forall k :: Get(k) == multiset(items)[k]
    {
      var m: map<int, int> := map[];
      var keys: seq<int> := [];
      for i := 0 to |items|
        invariant forall a, b :: 0 <= a < b < |keys| ==> keys[a] != keys[b]
        invariant forall k :: k in m <==> k in keys
        invariant forall k :: CountIn(m, k) == multiset(items[..i])[k]
      {
        assert items[..i + 1] == items[..i] + [items[i]];
        if items[i] !in m {
          keys := keys + [items[i]];
        }
        m := m[items[i] := CountIn(m, items[i]) + 1];
      }
      assert items[..|items|] == items;
      counts := m;
      order := keys;
    }

    /** `subtract(items)`: one off a key's count for each time it occurs in `items`. */
    method Subtract(items: seq<int>)
      requires Valid()
      modifies this
      ensures Valid()
      ensures forall k :: Get(k) == old(Get(k)) - multiset(items)[k]
    {
      for i := 0 to |items|
        invariant Valid()
        invariant forall k :: Get(k) == old(Get(k)) - multiset(items[..i])[k]
      {
        assert items[..i + 1] == items[..i] + [items[i]];
        if items[i] !in counts {
          order := order + [items[i]];
        }
        counts := counts[items[i] := Get(items[i]) - 1];
      }
      assert items[..|items|] == items;
    }

    /**
     * `list(elements())`: every key, in insertion order, repeated as often as its count
     * says; keys whose count is zero or less contribute nothing.
     */
    method Elements() returns (elems: seq<int>)
      requires Valid()
      ensures forall k :: multiset(elems)[k] == if Get(k) > 0 then Get(k) else 0
    {
      elems := [];
      for i := 0 to |order|
        invariant forall k :: multiset(elems)[k] == if k in order[..i] && Get(k) > 0 then Get(k) else 0
      {
        var key := order[i];
        var n := Get(key);
        ghost var before := elems;
        var j := 0;
        while j < n
          invariant 0 <= j && (j <= n || j == 0)
          invariant forall k :: multiset(elems)[k] == multiset(before)[k] + (if k == key then j else 0)
        {
          elems := elems + [key];
          j := j + 1;
        }
        assert order[..i + 1] == order[..i] + [key];
        assert key !in order[..i];
      }
      assert order[..|order|] == order;
    }
  }
}
