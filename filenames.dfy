/**
 * `get_boxes_speeds_filenames` of metrics.py: the names in the data folder are sorted
 * into the boxes files and the speeds files. A name containing "boxes.csv" is a boxes
 * file, whatever else it contains; otherwise a name containing "speeds.csv" is a speeds
 * file; every other name is dropped. The directory listing is a parameter here.
 */
module Filenames {

  /** Python's `pattern in name` for strings: `pattern` occurs at some position of `name`. */
  predicate Contains(name: string, pattern: string)
  {
    pattern <= name || (name != [] && Contains(name[1..], pattern))
  }

  /** `pattern` occurs in `name` starting at position i. */
  predicate OccursAt(name: string, pattern: string, i: int)
  {
    0 <= i && i + |pattern| <= |name| && name[i..i + |pattern|] == pattern
  }

  /** `Contains` agrees with the direct reading: `pattern` occurs at some position of `name`. */
  lemma {:induction false} ContainsIffOccurs(name: string, pattern: string)
    ensures Contains(name, pattern) <==> exists i :: OccursAt(name, pattern, i)
  {
    if pattern <= name {
      assert OccursAt(name, pattern, 0);
    }
    if name != [] {
      ContainsIffOccurs(name[1..], pattern);
      if exists i :: OccursAt(name[1..], pattern, i) {
        var i :| OccursAt(name[1..], pattern, i);
        assert name[i + 1..i + 1 + |pattern|] == name[1..][i..i + |pattern|];
        assert OccursAt(name, pattern, i + 1);
      }
      if exists i :: OccursAt(name, pattern, i) {
        var i :| OccursAt(name, pattern, i);
        if i > 0 {
          assert name[1..][i - 1..i - 1 + |pattern|] == name[i..i + |pattern|];
          assert OccursAt(name[1..], pattern, i - 1);
        } else {
          assert pattern <= name;
        }
      }
    } else {
      if exists i :: OccursAt(name, pattern, i) {
        var i :| OccursAt(name, pattern, i);
        assert pattern == [];
      }
    }
  }

  datatype Destination = BoxesList | SpeedsList | Dropped

  /** The `if` / `elif` of the loop body, for one name. */
  function Route(name: string): (d: Destination)
    ensures d == BoxesList <==> exists i :: OccursAt(name, "boxes.csv", i)
    ensures d == SpeedsList <==> (forall i :: !OccursAt(name, "boxes.csv", i)) && exists i :: OccursAt(name, "speeds.csv", i)
  {
    ContainsIffOccurs(name, "boxes.csv");
    ContainsIffOccurs(name, "speeds.csv");
    if Contains(name, "boxes.csv") then BoxesList
    else if Contains(name, "speeds.csv") then SpeedsList
    else Dropped
  }

  /** The names routed to `d`, in listing order. */
  function Routed(names: seq<string>, d: Destination): (r: seq<string>)
    ensures |r| <= |names|
  {
    if names == [] then []
    else Routed(names[..|names| - 1], d) + (if Route(names[|names| - 1]) == d then [names[|names| - 1]] else [])
  }

  /** The loop: each name appended to at most one of the two lists. */
  method GetBoxesSpeedsFilenames(filenames: seq<string>) returns (boxesFilenames: seq<string>, speedsFilenames: seq<string>)
    ensures boxesFilenames == Routed(filenames, BoxesList)
    ensures speedsFilenames == Routed(filenames, SpeedsList)
  {
    boxesFilenames, speedsFilenames := [], [];
    for i := 0 to |filenames|
      invariant boxesFilenames == Routed(filenames[..i], BoxesList)
      invariant speedsFilenames == Routed(filenames[..i], SpeedsList)
    {
      var filename := filenames[i];
      assert filenames[..i + 1][..i] == filenames[..i];
      if Contains(filename, "boxes.csv") {
        boxesFilenames := boxesFilenames + [filename];
      } else if Contains(filename, "speeds.csv") {
        speedsFilenames := speedsFilenames + [filename];
      }
    }
    assert filenames[..|filenames|] == filenames;
  }

  /** A name is in a list exactly when it was listed and routed there. */
  lemma {:induction false} RoutedMembership(names: seq<string>, d: Destination, name: string)
    ensures name in Routed(names, d) <==> name in names && Route(name) == d
  {
    if names != [] {
      RoutedMembership(names[..|names| - 1], d, name);
      assert names == names[..|names| - 1] + [names[|names| - 1]];
    }
  }

  /**
   * A name containing "boxes.csv" goes to the boxes list and not to the speeds list,
   * even when it also contains "speeds.csv"; a name containing neither is dropped.
   */
  lemma BoxesBeforeSpeeds(names: seq<string>, name: string)
    requires name in names
    ensures Contains(name, "boxes.csv") ==> name in Routed(names, BoxesList) && name !in Routed(names, SpeedsList)
    ensures !Contains(name, "boxes.csv") && Contains(name, "speeds.csv") ==> name in Routed(names, SpeedsList) && name !in Routed(names, BoxesList)
    ensures !Contains(name, "boxes.csv") && !Contains(name, "speeds.csv") ==> name !in Routed(names, BoxesList) && name !in Routed(names, SpeedsList)
  {
    RoutedMembership(names, BoxesList, name);
    RoutedMembership(names, SpeedsList, name);
  }

  /**
   * Every listed name lands in at most one list: counted with multiplicity, the two
   * lists together never hold a name more often than the listing does, and the names
   * dropped make up the rest.
   */
  lemma {:induction false} RoutedPartition(names: seq<string>)
    ensures multiset(Routed(names, BoxesList)) + multiset(Routed(names, SpeedsList)) + multiset(Routed(names, Dropped))
      == multiset(names)
  {
    forall x {
      RoutedPartitionAt(names, x);
    }
  }

  /** The partition, counted for one name. */
  lemma {:induction false} RoutedPartitionAt(names: seq<string>, x: string)
    ensures multiset(Routed(names, BoxesList))[x] + multiset(Routed(names, SpeedsList))[x] + multiset(Routed(names, Dropped))[x]
      == multiset(names)[x]
  {
    if names != [] {
      var init := names[..|names| - 1];
      var last := names[|names| - 1];
      RoutedPartitionAt(init, x);
      MultisetSnoc(names);
      RoutedCountStep(names, BoxesList, x);
      RoutedCountStep(names, SpeedsList, x);
      RoutedCountStep(names, Dropped, x);
    }
  }

  /** Extending the listing by one name adds it, once, to the count of its own list only. */
  lemma RoutedCountStep(names: seq<string>, d: Destination, x: string)
    requires names != []
    ensures var last := names[|names| - 1];
      multiset(Routed(names, d))[x]
        == multiset(Routed(names[..|names| - 1], d))[x] + (if Route(last) == d && last == x then 1 else 0)
  {
  }

  /** Splitting off the last entry of a sequence splits off one occurrence of it. */
  lemma MultisetSnoc<T>(s: seq<T>)
    requires s != []
    ensures multiset(s) == multiset(s[..|s| - 1]) + multiset{s[|s| - 1]}
  {
    assert s == s[..|s| - 1] + [s[|s| - 1]];
  }

  /**
   * Each list keeps the relative order of the listing: entry k of the list is the entry
   * of the listing at position `RoutedPositions(names, d)[k]`, and those positions increase.
   */
  function RoutedPositions(names: seq<string>, d: Destination): (p: seq<nat>)
    ensures |p| == |Routed(names, d)|
    ensures forall k :: 0 <= k < |p| ==> p[k] < |names| && names[p[k]] == Routed(names, d)[k]
    ensures forall k, l :: 0 <= k < l < |p| ==> p[k] < p[l]
  {
    if names == [] then []
    else
      var init := names[..|names| - 1];
      var p := RoutedPositions(init, d);
      assert forall k :: 0 <= k < |p| ==> names[p[k]] == init[p[k]];
      if Route(names[|names| - 1]) == d then p + [|names| - 1] else p
  }
}
