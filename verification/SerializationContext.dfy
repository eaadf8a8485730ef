/** The mutable reference tables, as both sides use them. */
module SerializationContexts {
  import opened Words
  import opened Items
  import opened Encoder
  import opened Equality

  /** `T` is what an object table entry holds: a copied item when encoding, a pointer when decoding. */
  class SerializationContext<T> {
    var strings: seq<Text>
    var traits: seq<Traits>
    var objects: seq<T>

    /** The tables as a value. */
    function Value(): Tables<T>
      reads this
    {
      Tables(strings, traits, objects)
    }

    constructor ()
      ensures Value() == Tables([], [], [])
    {
      strings, traits, objects := [], [], [];
    }

    method Clear()
      modifies this
      ensures Value() == Tables([], [], [])
    {
      strings, traits, objects := [], [], [];
    }

    method AddString(str: Text)
      modifies this
      ensures Value() == Encoder.AddString(old(Value()), str)
    {
      if str == [] {
        return;
      }
      strings := strings + [str];
    }

    method AddTraits(entry: Traits)
      modifies this
      ensures Value() == Encoder.AddTraits(old(Value()), entry)
    {
      traits := traits + [entry];
    }

    method AddObject(entry: T)
      modifies this
      ensures Value() == Encoder.AddObject(old(Value()), entry)
    {
      objects := objects + [entry];
    }

    /** `vector::at` on the strings: `None` when the index is out of range. */
    method GetString(index: int) returns (r: Option<Text>)
      ensures r.Some? <==> 0 <= index < |strings|
      ensures r.Some? ==> r.value == strings[index]
    {
      if 0 <= index < |strings| {
        r := Some(strings[index]);
      } else {
        r := None;
      }
    }

    method GetTraits(index: int) returns (r: Option<Traits>)
      ensures r.Some? <==> 0 <= index < |traits|
      ensures r.Some? ==> r.value == traits[index]
    {
      if 0 <= index < |traits| {
        r := Some(traits[index]);
      } else {
        r := None;
      }
    }

    /** `getIndex(const std::string&)`: the position of the first match, or -1. */
    method IndexOfString(str: Text) returns (index: int)
      ensures index == -1 ==> FirstIndex(strings, str) == |strings|
      ensures index != -1 ==> 0 <= index < |strings| && index == FirstIndex(strings, str)
    {
      index := 0;
      while index < |strings|
        invariant 0 <= index <= |strings|
        invariant forall j :: 0 <= j < index ==> strings[j] != str
      {
        if strings[index] == str {
          return;
        }
        index := index + 1;
      }
      index := -1;
    }

    /** `getIndex(const AmfObjectTraits&)`. */
    method IndexOfTraits(entry: Traits) returns (index: int)
      ensures index == -1 ==> FirstIndex(traits, entry) == |traits|
      ensures index != -1 ==> 0 <= index < |traits| && index == FirstIndex(traits, entry)
    {
      index := 0;
      while index < |traits|
        invariant 0 <= index <= |traits|
        invariant forall j :: 0 <= j < index ==> traits[j] != entry
      {
        if traits[index] == entry {
          return;
        }
        index := index + 1;
      }
      index := -1;
    }
  }

  /**
    The templated `getIndex`: the first entry of the same class that compares equal, or -1, or
    an exception from the comparison. An externalizable object is not even found by its copy.
   */
  method IndexOfObject(ctx: SerializationContext<Item>, obj: Item) returns (r: Option<int>)
    ensures External(obj) ==> r.None? || r.value == -1
    ensures !External(obj) ==> (r.None? <==> LookupRaises(ctx.Value(), obj, Compress))
    ensures r.Some? && r.value == -1 && !External(obj) ==> FirstEqual(ctx.objects, obj) == |ctx.objects|
    ensures r.Some? && r.value != -1 ==> 0 <= r.value < |ctx.objects| && r.value == FirstEqual(ctx.objects, obj)
  {
    hide Eq, Raises, External, FirstEqual, LookupRaises;
    for index := 0 to |ctx.objects|
      invariant forall j :: 0 <= j < index ==> !Eq(ctx.objects[j], obj) && !Raises(ctx.objects[j], obj)
    {
      if Raises(ctx.objects[index], obj) || (External(obj) && Eq(ctx.objects[index], obj)) {
        SearchStops(ctx.Value(), obj, index);
        return None;
      }
      if Eq(ctx.objects[index], obj) {
        SearchStops(ctx.Value(), obj, index);
        return Some(index);
      }
    }
    SearchEnds(ctx.Value(), obj);
    return Some(-1);
  }

  /** The first entry the object equals or throws with decides the search. */
  lemma SearchStops(c: Context, obj: Item, k: nat)
    requires k < |c.objects| && forall j :: 0 <= j < k ==> !Eq(c.objects[j], obj) && !Raises(c.objects[j], obj)
    ensures Raises(c.objects[k], obj) ==> LookupRaises(c, obj, Compress)
    ensures Eq(c.objects[k], obj) ==> FirstEqual(c.objects, obj) == k && !LookupRaises(c, obj, Compress)
  {
    hide Eq, Raises;
    RaisesNotEq(c.objects[k], obj);
    var r := FirstEqual(c.objects, obj);
    if Raises(c.objects[k], obj) { assert k < r; }
  }

  lemma SearchEnds(c: Context, obj: Item)
    requires forall j :: 0 <= j < |c.objects| ==> !Eq(c.objects[j], obj) && !Raises(c.objects[j], obj)
    ensures FirstEqual(c.objects, obj) == |c.objects| && !LookupRaises(c, obj, Compress)
  {
    hide Eq, Raises;
  }
}
