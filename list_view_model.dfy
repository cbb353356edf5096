/** A sectioned list as a view model exposes it, and the bounds-checked
    lookup of one item by index path (the subscript of `ListViewModel`). */
module ListViewModel {

  datatype Option<+T> = None | Some(value: T)

  /** A Foundation `IndexPath`: any number of integer components. */
  type IndexPath = seq<int>

  /** One section of the list; the order of `items` is the on-screen order. */
  datatype Section<T> = Section(items: seq<T>)

  /** `IndexPath.section`: Foundation only defines it on two-component paths. */
  function SectionOf(index: IndexPath): int
    requires |index| == 2
  {
    index[0]
  }

  /** `IndexPath.item`: Foundation only defines it on two-component paths. */
  function ItemOf(index: IndexPath): int
    requires |index| == 2
  {
    index[1]
  }

  /** The inputs on which the subscript does not trap. The guard has no lower
      bound: a negative section passes `sections.count > section` and then
      indexes `sections`; a negative item in an existing section passes
      `items.count > item` and then indexes `items`. */
  predicate NeverTraps<T>(sections: seq<Section<T>>, index: IndexPath)
  {
    |index| == 2 ==>
      0 <= index[0] &&
      (index[0] < |sections| && index[1] < |sections[index[0]].items| ==> 0 <= index[1])
  }

  /** A path that addresses an existing item: two components, both in range. */
  predicate Addresses<T>(sections: seq<Section<T>>, index: IndexPath)
  {
    |index| == 2 &&
    0 <= index[0] < |sections| &&
    0 <= index[1] < |sections[index[0]].items|
  }

  /** `subscript(index:)`: the addressed item, or nothing. The guard reads the
      section and item components only after the count test has passed, which
      is what lets `SectionOf` and `ItemOf` be called here. */
  function Lookup<T>(sections: seq<Section<T>>, index: IndexPath): (r: Option<T>)
    requires NeverTraps(sections, index)
    ensures r.Some? <==> Addresses(sections, index)
    ensures r.Some? ==> r.value == sections[index[0]].items[index[1]]
    ensures |index| != 2 ==> r == None
    ensures |index| == 2 && index[0] >= |sections| ==> r == None
    ensures |index| == 2 && 0 <= index[0] < |sections| && index[1] >= |sections[index[0]].items| ==> r == None
  {
    if |index| == 2 &&
       |sections| > SectionOf(index) &&
       |sections[SectionOf(index)].items| > ItemOf(index)
    then Some(sections[SectionOf(index)].items[ItemOf(index)])
    else None
  }

  /** Paths whose components are all non-negative never make the subscript trap. */
  lemma NonNegativeNeverTraps<T>(sections: seq<Section<T>>, index: IndexPath)
    requires forall k :: 0 <= k < |index| ==> 0 <= index[k]
    ensures NeverTraps(sections, index)
  {
  }

  /** All items in on-screen order: section after section. */
  function Flatten<T>(sections: seq<Section<T>>): (flat: seq<T>)
  {
    if sections == [] then [] else sections[0].items + Flatten(sections[1..])
  }

  /** The number of items in the sections before section `s`. */
  function Offset<T>(sections: seq<Section<T>>, s: nat): (n: nat)
    requires s <= |sections|
  {
    if s == 0 then 0 else |sections[0].items| + Offset(sections[1..], s - 1)
  }

  /** The item found at (section, item) is the one at position
      Offset(section) + item of the flattened list: the lookup agrees with the
      on-screen order of sections and items. */
  lemma {:induction false} LookupIsFlatPosition<T>(sections: seq<Section<T>>, s: nat, i: nat)
    requires s < |sections| && i < |sections[s].items|
    ensures Offset(sections, s) + i < |Flatten(sections)|
    ensures Lookup(sections, [s, i]) == Some(Flatten(sections)[Offset(sections, s) + i])
  {
    if s == 0 {
      assert Flatten(sections)[i] == sections[0].items[i];
    } else {
      LookupIsFlatPosition(sections[1..], s - 1, i);
      assert Lookup(sections[1..], [s - 1, i]) == Some(sections[s].items[i]);
      var k := Offset(sections[1..], s - 1) + i;
      assert Flatten(sections)[|sections[0].items| + k] == Flatten(sections[1..])[k];
    }
  }

  /** Conversely, every position of the flattened list is addressed by some
      in-range (section, item) path: no on-screen item is out of the lookup's reach. */
  lemma {:induction false} FlatPositionIsAddressed<T>(sections: seq<Section<T>>, k: nat)
    requires k < |Flatten(sections)|
    ensures exists s: nat, i: nat :: s < |sections| && i < |sections[s].items| &&
                                   Offset(sections, s) + i == k &&
                                   Lookup(sections, [s, i]) == Some(Flatten(sections)[k])
  {
    if k < |sections[0].items| {
      LookupIsFlatPosition(sections, 0, k);
    } else {
      var k' := k - |sections[0].items|;
      FlatPositionIsAddressed(sections[1..], k');
      var s: nat, i: nat :| s < |sections[1..]| && i < |sections[1..][s].items| &&
                            Offset(sections[1..], s) + i == k' &&
                            Lookup(sections[1..], [s, i]) == Some(Flatten(sections[1..])[k']);
      LookupIsFlatPosition(sections, s + 1, i);
    }
  }
}
