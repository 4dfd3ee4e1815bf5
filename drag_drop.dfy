/**
  The drag-and-drop answer page. The page keeps `currentSelections`, an object
  from the text of each placed item to the value of the drop zone holding it,
  and mirrors it into a hidden form input as JSON after every drop. The object
  is the sequence of its members in JavaScript's enumeration order (a key that
  is deleted and set again moves to the end); its meaning as a map is
  `Selections()`.
 */
module DragDrop {
  import opened Wrappers
  import opened Json

  /**
    The one key a plain object never records: assigning to it runs the setter
    inherited from `Object.prototype`, which ignores a string value, so no
    member is added and neither `Object.keys`, `delete` nor `JSON.stringify`
    ever sees it.
   */
  const ProtoKey: string := "__proto__"

  /** Where an item is dropped: back on the source container, or on a zone. */
  datatype Target = SourceContainer | Zone(value: string)

  /** No two members share a key, as in any JavaScript object. */
  predicate KeysDistinct(ms: seq<Member>) {
    forall i, j :: 0 <= i < j < |ms| ==> ms[i].key != ms[j].key
  }

  /** No two items sit on the same zone. */
  predicate ValuesDistinct(ms: seq<Member>) {
    forall i, j :: 0 <= i < j < |ms| ==> ms[i].value != ms[j].value
  }

  /** A map is injective: every zone holds at most one item. */
  predicate Injective(m: map<string, string>) {
    forall k, l :: k in m && l in m && k != l ==> m[k] != m[l]
  }

  /** The object read as a map; a later member for a key wins. */
  function AsMap(ms: seq<Member>): map<string, string> {
    if ms == [] then map[]
    else AsMap(ms[..|ms| - 1])[ms[|ms| - 1].key := ms[|ms| - 1].value]
  }

  /** The members whose key is not `key`, in their order (`delete object[key]`). */
  function Without(ms: seq<Member>, key: string): seq<Member> {
    if ms == [] then []
    else Without(ms[..|ms| - 1], key) + (if ms[|ms| - 1].key == key then [] else [ms[|ms| - 1]])
  }

  /** The map has a key for every member, and every entry of the map is a member. */
  lemma {:induction false} AsMapMembers(ms: seq<Member>)
    ensures forall x :: x in ms ==> x.key in AsMap(ms)
    ensures forall k :: k in AsMap(ms) ==> Member(k, AsMap(ms)[k]) in ms
  {
    if ms != [] {
      var init, last := ms[..|ms| - 1], ms[|ms| - 1];
      assert ms == init + [last];
      AsMapMembers(init);
    }
  }

  /** Deleting a key keeps exactly the members with another key. */
  lemma {:induction false} WithoutMembers(ms: seq<Member>, key: string)
    ensures forall x :: x in Without(ms, key) <==> x in ms && x.key != key
  {
    if ms != [] {
      var init, last := ms[..|ms| - 1], ms[|ms| - 1];
      assert ms == init + [last];
      WithoutMembers(init, key);
    }
  }

  /** The item whose member has value `v`, if there is one: the occupant of zone `v`. */
  function Holder(ms: seq<Member>, v: string): (h: Option<string>)
    ensures h.Some? ==> Member(h.value, v) in ms
    ensures h.None? ==> forall x :: x in ms ==> x.value != v
  {
    if ms == [] then None
    else if ms[0].value == v then Some(ms[0].key)
    else
      var h := Holder(ms[1..], v);
      assert forall x :: x in ms ==> x == ms[0] || x in ms[1..];
      h
  }

  /**
    What a drop does to the selections, read as a map: the dragged item loses
    its entry; on a zone, whichever item held that zone loses its entry too and
    the dragged item is recorded on the zone, unless its text is `ProtoKey`.
   */
  function DropSelections(m: map<string, string>, item: string, target: Target): map<string, string> {
    var rest := m - {item};
    match target
    case SourceContainer => rest
    case Zone(v) =>
      var vacated := map k | k in rest && rest[k] != v :: rest[k];
      if item == ProtoKey then vacated else vacated[item := v]
  }

  /** Appending a member extends the map with it. */
  lemma AsMapSnoc(ms: seq<Member>, x: Member)
    ensures AsMap(ms + [x]) == AsMap(ms)[x.key := x.value]
  {
    assert (ms + [x])[..|ms|] == ms;
  }

  /** With distinct keys, every member is what the map says about its key. */
  lemma {:induction false} AsMapValue(ms: seq<Member>)
    requires KeysDistinct(ms)
    ensures forall x :: x in ms ==> x.key in AsMap(ms) && AsMap(ms)[x.key] == x.value
  {
    if ms != [] {
      var init, last := ms[..|ms| - 1], ms[|ms| - 1];
      assert ms == init + [last];
      AsMapValue(init);
      AsMapSnoc(init, last);
      forall x | x in ms
        ensures AsMap(ms)[x.key] == x.value
      {
        if x != last {
          var i :| 0 <= i < |ms| && ms[i] == x;
          assert i < |ms| - 1;
          assert x in init;
        }
      }
    }
  }

  /** Deleting one key and setting another can be done in either order. */
  lemma RemoveCommutes(m: map<string, string>, k: string, v: string, key: string)
    requires k != key
    ensures (m - {key})[k := v] == m[k := v] - {key}
  {
  }

  /** Deleting a key undoes setting it. */
  lemma RemoveOverwrites(m: map<string, string>, key: string, v: string)
    ensures m[key := v] - {key} == m - {key}
  {
  }

  /** Read as maps, deleting a key's members deletes the key. */
  lemma {:induction false} AsMapWithout(ms: seq<Member>, key: string)
    ensures AsMap(Without(ms, key)) == AsMap(ms) - {key}
  {
    if ms != [] {
      var init, last := ms[..|ms| - 1], ms[|ms| - 1];
      AsMapWithout(init, key);
      assert ms == init + [last];
      AsMapSnoc(init, last);
      if last.key != key {
        assert Without(ms, key) == Without(init, key) + [last];
        AsMapSnoc(Without(init, key), last);
        RemoveCommutes(AsMap(init), last.key, last.value, key);
      } else {
        assert Without(ms, key) == Without(init, key);
        RemoveOverwrites(AsMap(init), key, last.value);
      }
    }
  }

  /** Appending keeps the keys distinct when the new key is new. */
  lemma KeysDistinctSnoc(ms: seq<Member>, x: Member)
    requires KeysDistinct(ms)
    requires forall y :: y in ms ==> y.key != x.key
    ensures KeysDistinct(ms + [x])
  {
    forall i, j | 0 <= i < j < |ms + [x]|
      ensures (ms + [x])[i].key != (ms + [x])[j].key
    {
      if j == |ms| {
        assert (ms + [x])[i] in ms;
      }
    }
  }

  /** Appending keeps the zones distinct when the new zone is free. */
  lemma ValuesDistinctSnoc(ms: seq<Member>, x: Member)
    requires ValuesDistinct(ms)
    requires forall y :: y in ms ==> y.value != x.value
    ensures ValuesDistinct(ms + [x])
  {
    forall i, j | 0 <= i < j < |ms + [x]|
      ensures (ms + [x])[i].value != (ms + [x])[j].value
    {
      if j == |ms| {
        assert (ms + [x])[i] in ms;
      }
    }
  }

  /** Deleting members keeps keys and zones distinct. */
  lemma {:induction false} WithoutDistinct(ms: seq<Member>, key: string)
    requires KeysDistinct(ms) && ValuesDistinct(ms)
    ensures KeysDistinct(Without(ms, key)) && ValuesDistinct(Without(ms, key))
  {
    if ms != [] {
      var init, last := ms[..|ms| - 1], ms[|ms| - 1];
      assert KeysDistinct(init) && ValuesDistinct(init);
      WithoutDistinct(init, key);
      WithoutMembers(init, key);
      if last.key != key {
        forall y | y in Without(init, key)
          ensures y.key != last.key && y.value != last.value
        {
          var i :| 0 <= i < |init| && init[i] == y;
        }
        KeysDistinctSnoc(Without(init, key), last);
        ValuesDistinctSnoc(Without(init, key), last);
      }
    }
  }

  /** With distinct zones, the holder of a zone is the only member on it. */
  lemma HolderUnique(ms: seq<Member>, v: string, x: Member)
    requires ValuesDistinct(ms)
    requires x in ms && x.value == v
    ensures Holder(ms, v) == Some(x.key)
  {
    var h := Holder(ms, v);
    assert Member(h.value, v) in ms;
    var i :| 0 <= i < |ms| && ms[i] == x;
    var j :| 0 <= j < |ms| && ms[j] == Member(h.value, v);
    assert i == j;
  }

  /** With distinct keys and zones, the map view of the object is injective. */
  lemma AsMapInjective(ms: seq<Member>)
    requires KeysDistinct(ms) && ValuesDistinct(ms)
    ensures Injective(AsMap(ms))
  {
    var m := AsMap(ms);
    AsMapMembers(ms);
    forall k, l | k in m && l in m && k != l
      ensures m[k] != m[l]
    {
      var i :| 0 <= i < |ms| && ms[i] == Member(k, m[k]);
      var j :| 0 <= j < |ms| && ms[j] == Member(l, m[l]);
    }
  }

  /** A drop leaves every other item where it was, except the zone's previous occupant. */
  lemma DropKeepsOthers(m: map<string, string>, item: string, target: Target, k: string)
    requires k in m && k != item
    requires target.Zone? ==> m[k] != target.value
    ensures k in DropSelections(m, item, target) && DropSelections(m, item, target)[k] == m[k]
  {
  }

  /**
    A drop records the dragged item on the zone, or nowhere when it goes back
    to the source or its text is `ProtoKey`.
   */
  lemma DropPlacesItem(m: map<string, string>, item: string, target: Target)
    ensures target.SourceContainer? ==> item !in DropSelections(m, item, target)
    ensures target.SourceContainer? ==> forall k :: k in DropSelections(m, item, target) ==> k in m && DropSelections(m, item, target)[k] == m[k]
    ensures target.Zone? && item != ProtoKey ==>
      item in DropSelections(m, item, target) && DropSelections(m, item, target)[item] == target.value
    ensures target.Zone? && item == ProtoKey ==> item !in DropSelections(m, item, target)
  {
  }

  /** After a drop on a zone, the dragged item is the only item on it, and nothing new appears. */
  lemma DropOnZone(m: map<string, string>, item: string, v: string)
    ensures forall k :: k in DropSelections(m, item, Zone(v)) && DropSelections(m, item, Zone(v))[k] == v ==> k == item
    ensures forall k :: k in DropSelections(m, item, Zone(v)) ==> k == item || (k in m && DropSelections(m, item, Zone(v))[k] == m[k])
  {
  }

  /** Every zone still holds at most one item after a drop. */
  lemma DropKeepsInjective(m: map<string, string>, item: string, target: Target)
    requires Injective(m)
    ensures Injective(DropSelections(m, item, target))
  {
  }

  /** Dropping the same item on the same target twice is the same as once. */
  lemma DropIdempotent(m: map<string, string>, item: string, target: Target)
    ensures DropSelections(DropSelections(m, item, target), item, target) == DropSelections(m, item, target)
  {
    var once := DropSelections(m, item, target);
    var twice := DropSelections(once, item, target);
    assert forall k :: k in twice <==> k in once;
  }

  /** The page's state: the selections object and the hidden input's value. */
  class Board {
    var selections: seq<Member>
    var hiddenInput: string

    /** One member per item, one item per zone, and the input mirrors the object. */
    ghost predicate Valid()
      reads this
    {
      KeysDistinct(selections) && ValuesDistinct(selections) && hiddenInput == Stringify(selections)
    }

    /** Which zone each placed item is on. */
    function Selections(): map<string, string>
      reads this
    {
      AsMap(selections)
    }

    /** The page loads with no selections and writes them once: the input holds `{}`. */
    constructor ()
      ensures Valid()
      ensures selections == [] && hiddenInput == "{}"
    {
      selections := [];
      new;
      UpdateHiddenInput();
    }

    /** `updateHiddenInput`: the input is set to the object written as JSON. */
    method UpdateHiddenInput()
      modifies this`hiddenInput
      ensures hiddenInput == Stringify(selections)
    {
      hiddenInput := Stringify(selections);
    }

    /** `delete currentSelections[key]`, keeping the other members in order. */
    method DeleteKey(key: string)
      modifies this`selections
      ensures selections == Without(old(selections), key)
    {
      var kept: seq<Member> := [];
      var i := 0;
      while i < |selections|
        invariant 0 <= i <= |selections|
        invariant kept == Without(selections[..i], key)
      {
        assert selections[..i + 1][..i] == selections[..i];
        if selections[i].key != key {
          kept := kept + [selections[i]];
        }
        i := i + 1;
      }
      assert selections[..i] == selections;
      selections := kept;
    }

    /**
      The drop handler. `dragged` is the dropped item's text, or `None` when the
      dragged element is not found, in which case nothing changes. The item's
      entry is deleted; on a zone, the zone's occupant, when it is another item,
      is sent back and its entry deleted, and the item is recorded on the zone
      (an assignment that records nothing for `ProtoKey`). The input is then
      rewritten.
     */
    method Drop(dragged: Option<string>, target: Target)
      modifies this
      ensures dragged.None? ==> selections == old(selections) && hiddenInput == old(hiddenInput)
      ensures dragged.Some? ==> selections == DropResult(old(selections), dragged.value, target)
      ensures dragged.Some? ==> hiddenInput == Stringify(selections)
      ensures old(Valid()) ==> Valid()
      ensures old(Valid()) && dragged.Some? ==>
        Selections() == DropSelections(old(Selections()), dragged.value, target)
    {
      if dragged.None? {
        return;
      }
      var item := dragged.value;
      var before := selections;
      DeleteKey(item);
      match target {
        case SourceContainer =>
        case Zone(v) =>
          var occupant := Holder(before, v);
          if occupant.Some? && occupant.value != item {
            DeleteKey(occupant.value);
          }
          if item != ProtoKey {
            selections := selections + [Member(item, v)];
          }
      }
      UpdateHiddenInput();
      if KeysDistinct(before) && ValuesDistinct(before) {
        DropCorrect(before, item, target, selections);
      }
    }

    /**
      The submit handler: when nothing is selected and the input is still
      empty, the input is set to `{}`; otherwise nothing changes.
     */
    method Submit()
      modifies this`hiddenInput
      ensures old(|selections| == 0 && hiddenInput == "") ==> hiddenInput == "{}"
      ensures old(|selections| != 0 || hiddenInput != "") ==> hiddenInput == old(hiddenInput)
      ensures old(Valid()) ==> Valid() && hiddenInput == old(hiddenInput)
    {
      if |selections| == 0 && hiddenInput == "" {
        hiddenInput := Stringify([]);
      }
    }
  }

  /** No two items are ever recorded against the same zone. */
  lemma SelectionsInjective(b: Board)
    requires b.Valid()
    ensures Injective(b.Selections())
  {
    AsMapInjective(b.selections);
  }

  /** What the page submits decodes to exactly the selections it holds. */
  lemma HiddenInputDecodes(b: Board)
    requires b.Valid()
    ensures Parse(b.hiddenInput) == Some(b.selections)
  {
    RoundTrip(b.selections);
  }

  /** The object once the dragged item and the zone's other occupant have lost their entries. */
  function Vacate(ms: seq<Member>, item: string, v: string): seq<Member> {
    var rest := Without(ms, item);
    var occupant := Holder(ms, v);
    if occupant.Some? && occupant.value != item then Without(rest, occupant.value) else rest
  }

  /** The object after a drop, as the handler builds it from the object before. */
  function DropResult(ms: seq<Member>, item: string, target: Target): seq<Member> {
    match target
    case SourceContainer => Without(ms, item)
    case Zone(v) => Vacate(ms, item, v) + (if item == ProtoKey then [] else [Member(item, v)])
  }

  /** Vacating keeps one member per item and one item per zone. */
  lemma VacateDistinct(ms: seq<Member>, item: string, v: string)
    requires KeysDistinct(ms) && ValuesDistinct(ms)
    ensures KeysDistinct(Vacate(ms, item, v)) && ValuesDistinct(Vacate(ms, item, v))
  {
    WithoutDistinct(ms, item);
    var occupant := Holder(ms, v);
    if occupant.Some? && occupant.value != item {
      WithoutDistinct(Without(ms, item), occupant.value);
    }
  }

  /** After vacating, neither the dragged item nor any item on the zone is left. */
  lemma VacateFrees(ms: seq<Member>, item: string, v: string)
    requires ValuesDistinct(ms)
    ensures forall y :: y in Vacate(ms, item, v) ==> y.key != item && y.value != v
  {
    var rest := Without(ms, item);
    var occupant := Holder(ms, v);
    WithoutMembers(ms, item);
    if occupant.Some? && occupant.value != item {
      WithoutMembers(rest, occupant.value);
    }
    forall y | y in Vacate(ms, item, v)
      ensures y.key != item && y.value != v
    {
      if y.value == v {
        HolderUnique(ms, v, y);
      }
    }
  }

  /** Read as a map, the keys on zone `v` are exactly its holder. */
  lemma ZoneHolder(ms: seq<Member>, v: string)
    requires KeysDistinct(ms) && ValuesDistinct(ms)
    ensures forall k :: k in AsMap(ms) && AsMap(ms)[k] == v <==> Holder(ms, v) == Some(k)
  {
    AsMapMembers(ms);
    AsMapValue(ms);
    forall k | k in AsMap(ms) && AsMap(ms)[k] == v
      ensures Holder(ms, v) == Some(k)
    {
      HolderUnique(ms, v, Member(k, v));
    }
  }

  /** Read as a map, vacating deletes the dragged item and every key on the zone. */
  lemma VacateMap(ms: seq<Member>, item: string, v: string)
    requires KeysDistinct(ms) && ValuesDistinct(ms)
    ensures AsMap(Vacate(ms, item, v)) == (map k | k in AsMap(ms) - {item} && (AsMap(ms) - {item})[k] != v :: (AsMap(ms) - {item})[k])
  {
    var m := AsMap(ms);
    var rest := Without(ms, item);
    var occupant := Holder(ms, v);
    AsMapWithout(ms, item);
    ZoneHolder(ms, v);
    if occupant.Some? && occupant.value != item {
      AsMapWithout(rest, occupant.value);
      assert AsMap(Vacate(ms, item, v)) == m - {item} - {occupant.value};
    } else {
      assert AsMap(Vacate(ms, item, v)) == m - {item};
    }
  }

  /**
    The handler's object keeps one member per item and one item per zone, and
    read as a map it is the drop's specification applied to the map before.
   */
  lemma DropCorrect(ms: seq<Member>, item: string, target: Target, result: seq<Member>)
    requires KeysDistinct(ms) && ValuesDistinct(ms)
    requires result == DropResult(ms, item, target)
    ensures KeysDistinct(result) && ValuesDistinct(result)
    ensures AsMap(result) == DropSelections(AsMap(ms), item, target)
  {
    match target {
      case SourceContainer =>
        WithoutDistinct(ms, item);
        AsMapWithout(ms, item);
      case Zone(v) =>
        var kept := Vacate(ms, item, v);
        VacateDistinct(ms, item, v);
        VacateFrees(ms, item, v);
        VacateMap(ms, item, v);
        if item == ProtoKey {
          assert result == kept;
        } else {
          KeysDistinctSnoc(kept, Member(item, v));
          ValuesDistinctSnoc(kept, Member(item, v));
          AsMapSnoc(kept, Member(item, v));
        }
    }
  }
}
