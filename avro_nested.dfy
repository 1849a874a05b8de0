/** The builders that the Avro reader fills while it decodes nested values
    (`io::avro::read::nested`): a list builder over a child builder, with
    an offsets buffer and a validity bitmap that is only materialised once a
    null is pushed, and a dictionary builder whose keys grow against a
    dictionary of UTF-8 values fixed at construction. */
module AvroNested {
  import opened Common

  // ---------------------------------------------------------------------
  // Offsets and the lazily materialised validity bitmap

  /** The integer width `O` of a list's offsets: `i32` for `List`, `i64` for
      `LargeList`. */
  datatype OffsetWidth = I32 | I64

  /** The largest offset of the width, the bound of `O::from_usize`. */
  function OffsetMax(w: OffsetWidth): (m: nat)
    ensures m >= I32_MAX
  {
    match w
    case I32 => I32_MAX
    case I64 => I64_MAX
  }

  /** The logical type `ListArray::<O>::get_child_field` accepts for the
      width: `List` for `i32` offsets, `LargeList` for `i64` offsets. */
  predicate IsListTypeOf(w: OffsetWidth, t: DataType)
  {
    match w
    case I32 => t.List?
    case I64 => t.LargeList?
  }

  /** The validity bitmap a builder holds after the valid (`true`) and null
      (`false`) pushes `slots`: absent while no null was pushed, and exactly
      the pushed sequence from the first null on. */
  function LazyValidity(slots: seq<bool>): Option<seq<bool>>
  {
    if forall i :: 0 <= i < |slots| ==> slots[i] then None else Some(slots)
  }

  /** Slot `i` of a validity bitmap is valid; an absent bitmap makes every
      slot valid. */
  predicate IsValidIn(validity: Option<seq<bool>>, i: nat)
    requires validity.Some? ==> i < |validity.value|
  {
    validity.None? || validity.value[i]
  }

  /** Reading the lazy bitmap back gives the pushed sequence, slot by slot. */
  lemma LazyValidityReadsBack(slots: seq<bool>)
    ensures var v := LazyValidity(slots);
      && (v.Some? ==> |v.value| == |slots|)
      && forall i :: 0 <= i < |slots| ==> (IsValidIn(v, i) <==> slots[i])
  {
  }

  /** The lazy bitmap is kept by the steps of `try_push_valid` and
      `push_null`: a valid push extends a present bitmap by `true` and leaves
      an absent one absent; a null push extends a present bitmap by `false`
      and otherwise materialises `true` for every earlier slot followed by
      `false` (`init_validity`). */
  lemma LazyValidityStep(slots: seq<bool>)
    ensures LazyValidity(slots + [true]) ==
      if LazyValidity(slots).Some? then Some(LazyValidity(slots).value + [true]) else None
    ensures LazyValidity(slots + [false]) ==
      if LazyValidity(slots).Some? then Some(LazyValidity(slots).value + [false])
      else Some(seq(|slots|, _ => true) + [false])
  {
    var t, f := slots + [true], slots + [false];
    assert forall i :: 0 <= i < |slots| ==> t[i] == slots[i] && f[i] == slots[i];
    assert !f[|slots|];
    if LazyValidity(slots).None? {
      assert slots == seq(|slots|, _ => true);
    }
  }

  /** Offsets whose neighbours are in order are in order throughout. */
  lemma {:induction false} AdjacentOrderedIsSorted(offsets: seq<int>, i: nat, j: nat)
    requires forall k :: 0 <= k < |offsets| - 1 ==> offsets[k] <= offsets[k + 1]
    requires i <= j < |offsets|
    ensures offsets[i] <= offsets[j]
    decreases j - i
  {
    if i < j {
      AdjacentOrderedIsSorted(offsets, i + 1, j);
    }
  }

  // ---------------------------------------------------------------------
  // Frozen arrays

  /** A frozen list array (`ListArray::from_data`): slot `i` is
      `values[offsets[i]..offsets[i + 1]]`, or null. */
  datatype ListArray = ListArray(dataType: DataType, offsets: seq<int>, values: seq<Option<int>>, validity: Option<seq<bool>>)
  {
    predicate WellFormed()
    {
      && |offsets| >= 1 && offsets[0] == 0
      && (forall k :: 0 <= k < |offsets| - 1 ==> offsets[k] <= offsets[k + 1])
      && offsets[|offsets| - 1] <= |values|
      && (validity.Some? ==> |validity.value| == |offsets| - 1)
    }

    function Len(): nat
      requires WellFormed()
    {
      |offsets| - 1
    }

    /** Slot `i`: its run of child values, or `None` for a null slot. */
    function Get(i: nat): Option<seq<Option<int>>>
      requires WellFormed() && i < Len()
    {
      AdjacentOrderedIsSorted(offsets, 0, i);
      AdjacentOrderedIsSorted(offsets, i + 1, |offsets| - 1);
      if IsValidIn(validity, i) then Some(values[offsets[i]..offsets[i + 1]]) else None
    }
  }

  // ---------------------------------------------------------------------
  // The child builder

  /** The child builder a list builder owns (`Box<dyn MutableArray>`),
      here a builder of optional integers: the list builder reads its
      length and freezes it. */
  class MutableValues {
    const dataType: DataType
    var items: seq<Option<int>>

    constructor (dataType: DataType)
      ensures this.dataType == dataType && items == []
    {
      this.dataType := dataType;
      items := [];
    }

    method Push(item: Option<int>)
      modifies this
      ensures items == old(items) + [item]
    {
      items := items + [item];
    }

    /** `as_arc`: the values move out and the builder is left empty. */
    method AsArc() returns (frozen: seq<Option<int>>)
      modifies this
      ensures frozen == old(items) && items == []
    {
      frozen := items;
      items := [];
    }
  }

  // ---------------------------------------------------------------------
  // The list builder

  /** `DynMutableListArray<O>`. The ghost `slots` records the pushes, `true`
      for `try_push_valid` and `false` for `push_null`. */
  class DynMutableListArray {
    const width: OffsetWidth
    const dataType: DataType
    const values: MutableValues
    var offsets: seq<int>
    var validity: Option<seq<bool>>
    ghost var slots: seq<bool>

    /** One offset per push plus the leading `0`, in order, bounded by the
        child's length and the width; a null slot is an empty run; the
        bitmap is the lazy bitmap of the pushes. */
    ghost predicate Valid()
      reads this, values
    {
      && |offsets| == |slots| + 1
      && offsets[0] == 0
      && (forall k :: 0 <= k < |offsets| - 1 ==> offsets[k] <= offsets[k + 1])
      && (forall k :: 0 <= k < |slots| ==> !slots[k] ==> offsets[k + 1] == offsets[k])
      && offsets[|slots|] <= |values.items|
      && offsets[|slots|] <= OffsetMax(width)
      && validity == LazyValidity(slots)
    }

    /** `new_from`: the child must be empty (`assert_eq!`) and the data type
        a list type of the offsets' width (`get_child_field`); the capacity
        only reserves memory. */
    constructor NewFrom(values: MutableValues, dataType: DataType, width: OffsetWidth, capacity: nat)
      requires |values.items| == 0
      requires IsListTypeOf(width, dataType)
      ensures Valid()
      ensures this.values == values && this.dataType == dataType && this.width == width
      ensures offsets == [0] && validity == None && slots == []
    {
      this.width := width;
      this.dataType := dataType;
      this.values := values;
      offsets := [0];
      validity := None;
      slots := [];
    }

    /** `len()`: the number of pushes. */
    function Len(): (n: nat)
      reads this, values
      requires Valid()
      ensures n == |slots| && n + 1 == |offsets|
    {
      |offsets| - 1
    }

    /** `last_offset()`: the largest offset so far, which the child's
        length reaches. */
    function LastOffset(): (last: int)
      reads this, values
      requires Valid()
      ensures 0 <= last <= |values.items|
      ensures forall k :: 0 <= k < |offsets| ==> offsets[k] <= last
      ensures last in offsets
    {
      var n := |offsets| - 1;
      assert forall k :: 0 <= k < |offsets| ==> offsets[k] <= offsets[n] by {
        forall k | 0 <= k < |offsets| {
          AdjacentOrderedIsSorted(offsets, k, n);
        }
      }
      AdjacentOrderedIsSorted(offsets, 0, n);
      offsets[n]
    }

    /** `validity()`: absent while every push was valid, otherwise one bit
        per push, equal to the pushes. */
    function Validity(): (v: Option<seq<bool>>)
      reads this, values
      requires Valid()
      ensures v.None? <==> forall k :: 0 <= k < |slots| ==> slots[k]
      ensures v.Some? ==> |v.value| == Len() && forall k :: 0 <= k < |slots| ==> (v.value[k] <==> slots[k])
    {
      validity
    }

    /** `mut_values()` followed by a push into the child: the offsets stay
        where they are, so the child may grow without breaking the
        invariant. */
    method PushChildValue(v: Option<int>)
      requires Valid()
      modifies values
      ensures Valid()
      ensures values.items == old(values.items) + [v]
    {
      values.Push(v);
    }

    /** `try_push_valid`: a child length that `O` cannot represent is
        `KeyOverflowError` and changes nothing; otherwise that length is
        the new offset and a present bitmap gets `true`. */
    method TryPushValid() returns (r: Result<()>)
      requires Valid()
      modifies this
      ensures Valid()
      ensures |values.items| > OffsetMax(width) ==>
        r == Err(KeyOverflowError) && offsets == old(offsets) && validity == old(validity) && slots == old(slots)
      ensures |values.items| <= OffsetMax(width) ==>
        && r == Ok(())
        && offsets == old(offsets) + [|values.items|]
        && slots == old(slots) + [true]
        && validity == if old(validity).Some? then Some(old(validity).value + [true]) else None
    {
      var size := |values.items|;
      if size > OffsetMax(width) {
        return Err(KeyOverflowError);
      }
      // The source asserts `size >= last_offset`; `Valid()` guarantees it.
      assert size >= offsets[|offsets| - 1];
      LazyValidityStep(slots);
      offsets := offsets + [size];
      slots := slots + [true];
      if validity.Some? {
        validity := Some(validity.value + [true]);
      }
      r := Ok(());
    }

    /** `push_null`: the last offset again, so the slot is an empty run; a
        present bitmap gets `false`, an absent one is materialised. */
    method PushNull()
      requires Valid()
      modifies this
      ensures Valid()
      ensures offsets == old(offsets) + [old(offsets)[|old(offsets)| - 1]]
      ensures slots == old(slots) + [false]
      ensures validity == Some(
        (if old(validity).Some? then old(validity).value else seq(|old(slots)|, _ => true)) + [false])
    {
      LazyValidityStep(slots);
      var last := LastOffset();
      offsets := offsets + [last];
      slots := slots + [false];
      match validity
      case Some(v) =>
        validity := Some(v + [false]);
      case None =>
        InitValidity();
    }

    /** `init_validity`: `true` for every slot, then the last one set to
        `false`. */
    method InitValidity()
      requires |offsets| >= 2
      modifies this
      ensures offsets == old(offsets) && slots == old(slots)
      ensures validity == Some(seq(|offsets| - 2, _ => true) + [false])
    {
      var len := |offsets| - 1;
      var bits := seq(len, _ => true);
      bits := bits[len - 1 := false];
      assert bits == seq(len - 1, _ => true) + [false];
      validity := Some(bits);
    }

    /** `as_box`: the offsets and the bitmap move out with the frozen child
        into a list array whose slots read back the pushes; the builder is
        left without offsets. */
    method AsBox() returns (a: ListArray)
      requires Valid()
      modifies this, values
      ensures a == ListArray(dataType, old(offsets), old(values.items), old(validity))
      ensures a.WellFormed() && a.Len() == |old(slots)|
      ensures forall k :: 0 <= k < a.Len() ==> (a.Get(k).Some? <==> old(slots)[k])
      ensures offsets == [] && validity == None && values.items == []
    {
      LazyValidityReadsBack(slots);
      var frozenOffsets, frozenValidity := offsets, validity;
      offsets, validity := [], None;
      var frozenValues := values.AsArc();
      a := ListArray(dataType, frozenOffsets, frozenValues, frozenValidity);
    }
  }

  /** Pushing `1, 2, 3` into the child around the pushes
      `[valid, valid, null, valid]` gives offsets `[0, 1, 2, 2, 3]` and
      validity `[true, true, false, true]`. */
  method ListScenario() returns (a: ListArray)
    ensures a == ListArray(List(Primitive(Int32)), [0, 1, 2, 2, 3], [Some(1), Some(2), Some(3)], Some([true, true, false, true]))
  {
    var list := ListScenarioPushes();
    a := list.AsBox();
  }

  /** The pushes of the scenario, before the builder is frozen. */
  method ListScenarioPushes() returns (list: DynMutableListArray)
    ensures fresh(list) && fresh(list.values) && list.Valid()
    ensures list.dataType == List(Primitive(Int32))
    ensures list.offsets == [0, 1, 2, 2, 3] && list.validity == Some([true, true, false, true])
    ensures list.values.items == [Some(1), Some(2), Some(3)]
  {
    list := ListScenarioValidPushes();
    list.PushNull();
    assert seq(2, _ => true) + [false] == [true, true, false];
    list.PushChildValue(Some(3));
    var r := list.TryPushValid();
    assert [true, true, false] + [true] == [true, true, false, true];
  }

  /** The first two pushes of the scenario, both valid: no bitmap yet. */
  method ListScenarioValidPushes() returns (list: DynMutableListArray)
    ensures fresh(list) && fresh(list.values) && list.Valid()
    ensures list.dataType == List(Primitive(Int32)) && list.width == I32
    ensures list.offsets == [0, 1, 2] && list.slots == [true, true] && list.validity == None
    ensures list.values.items == [Some(1), Some(2)]
  {
    var child := new MutableValues(Primitive(Int32));
    list := new DynMutableListArray.NewFrom(child, List(Primitive(Int32)), I32, 4);
    list.PushChildValue(Some(1));
    var r := list.TryPushValid();
    list.PushChildValue(Some(2));
    r := list.TryPushValid();
  }

  /** The array of the scenario reads back `[[1], [2], null, [3]]`. */
  lemma ListScenarioReadsBack(a: ListArray)
    requires a == ListArray(List(Primitive(Int32)), [0, 1, 2, 2, 3], [Some(1), Some(2), Some(3)], Some([true, true, false, true]))
    ensures a.WellFormed() && a.Len() == 4
    ensures a.Get(0) == Some([Some(1)]) && a.Get(1) == Some([Some(2)])
    ensures a.Get(2) == None && a.Get(3) == Some([Some(3)])
  {
    assert a.WellFormed();
    assert a.values[0..1] == [Some(1)] && a.values[1..2] == [Some(2)] && a.values[2..3] == [Some(3)];
  }

  // ---------------------------------------------------------------------
  // The dictionary builder

  /** A frozen `Utf8Array<i32>`, reduced to its data type and its slots. */
  datatype Utf8Array = Utf8Array(dataType: DataType, items: seq<Option<string>>)

  /** A frozen dictionary array (`DictionaryArray::from_data`): optional
      `i32` keys into the dictionary `values`. */
  datatype DictionaryArray = DictionaryArray(keys: seq<Option<i32>>, values: Utf8Array)
  {
    function DataType(): DataType
    {
      Dictionary(Int32, values.dataType)
    }

    predicate KeysInRange()
    {
      forall i :: 0 <= i < |keys| && keys[i].Some? ==> 0 <= keys[i].value < |values.items|
    }

    /** Slot `i`: null for a null key, otherwise the dictionary entry the
        key points at. */
    function Get(i: nat): Option<string>
      requires KeysInRange() && i < |keys|
    {
      match keys[i]
      case None => None
      case Some(k) => values.items[k]
    }
  }

  /** `FixedItemsUtf8Dictionary`. */
  class FixedItemsUtf8Dictionary {
    const values: Utf8Array
    const dataType: DataType := Dictionary(Int32, values.dataType)
    var keys: seq<Option<i32>>

    /** `with_capacity`: the dictionary is fixed here; the capacity only
        reserves memory. */
    constructor WithCapacity(values: Utf8Array, capacity: nat)
      ensures dataType == Dictionary(Int32, values.dataType)
      ensures this.values == values && keys == []
    {
      this.values := values;
      keys := [];
    }

    /** `push_valid`: the key, unchecked against the dictionary. */
    method PushValid(key: i32)
      modifies this
      ensures keys == old(keys) + [Some(key)]
    {
      keys := keys + [Some(key)];
    }

    /** `push_null`. */
    method PushNull()
      modifies this
      ensures keys == old(keys) + [None]
    {
      keys := keys + [None];
    }

    /** `len()`: the number of keys pushed, which the validity, when
        present, matches. */
    function Len(): (n: nat)
      reads this
      ensures n == |keys|
      ensures Validity().Some? ==> |Validity().value| == n
    {
      |keys|
    }

    /** `validity()`: the keys' own bitmap, which (as every mutable
        primitive array's) is absent until a null key is pushed and then
        marks each key present or null. */
    function Validity(): (v: Option<seq<bool>>)
      reads this
      ensures v.Some? <==> exists i :: 0 <= i < |keys| && keys[i].None?
      ensures v.Some? ==> |v.value| == |keys| && forall i :: 0 <= i < |keys| ==> (v.value[i] <==> keys[i].Some?)
    {
      var ks := keys;
      var present := seq(|ks|, i requires 0 <= i < |ks| => ks[i].Some?);
      assert forall i :: 0 <= i < |ks| ==> (present[i] <==> ks[i].Some?);
      LazyValidity(present)
    }

    /** `as_box`: the keys move out and the unchanged dictionary is shared
        with the frozen array, whose type is the builder's. */
    method AsBox() returns (a: DictionaryArray)
      modifies this
      ensures a == DictionaryArray(old(keys), values)
      ensures a.DataType() == dataType
      ensures keys == []
    {
      a := DictionaryArray(keys, values);
      keys := [];
    }
  }

  /** Keys `1, null, 0` against the dictionary `["a", "b"]` read back as
      `"b", null, "a"`, with validity `[true, false, true]`. */
  method DictionaryScenario() returns (a: DictionaryArray, validity: Option<seq<bool>>)
    ensures a.DataType() == Dictionary(Int32, Utf8)
    ensures validity == Some([true, false, true])
    ensures a.KeysInRange() && |a.keys| == 3
    ensures a.Get(0) == Some("b") && a.Get(1) == None && a.Get(2) == Some("a")
  {
    var d := DictionaryScenarioPushes();
    validity := d.Validity();
    assert d.keys[1].None?;
    var bits := validity.value;
    assert bits[0] && !bits[1] && bits[2];
    assert bits == [true, false, true];
    a := d.AsBox();
    assert a.values.items[0] == Some("a") && a.values.items[1] == Some("b");
  }

  /** The pushes of the dictionary scenario, before the builder is
      frozen. */
  method DictionaryScenarioPushes() returns (d: FixedItemsUtf8Dictionary)
    ensures fresh(d)
    ensures d.values == Utf8Array(Utf8, [Some("a"), Some("b")]) && d.dataType == Dictionary(Int32, Utf8)
    ensures d.keys == [Some(1), None, Some(0)]
  {
    d := new FixedItemsUtf8Dictionary.WithCapacity(Utf8Array(Utf8, [Some("a"), Some("b")]), 3);
    d.PushValid(1);
    d.PushNull();
    d.PushValid(0);
  }
}
