/** `AmfObject` and `AmfObjectTraits` as they are built up by their callers. */
module AmfObjects {
  import opened Words
  import opened Names
  import opened Items

  class AmfObject {
    /** Which object this is. */
    const node: nat
    var traits: Traits
    var sealedProperties: Props<Item>
    var dynamicProperties: Props<Item>

    constructor (className: Text, dynamic: bool, externalizable: bool, node: nat)
      ensures InStep() && Value() == Object(Traits(className, dynamic, externalizable, []), NO_PROPS, NO_PROPS, node)
    {
      this.node, traits := node, Traits(className, dynamic, externalizable, []);
      sealedProperties, dynamicProperties := NO_PROPS, NO_PROPS;
    }

    function Value(): Item
      reads this
    {
      Object(traits, sealedProperties, dynamicProperties, node)
    }

    /** No attribute is named twice, and the attributes are exactly the sealed properties there are. */
    ghost predicate InStep()
      reads this
    {
      && (forall i, j :: 0 <= i < j < |traits.attributes| ==> traits.attributes[i] != traits.attributes[j])
      && (forall n :: n in traits.attributes <==> n in sealedProperties.names)
    }

    /** `AmfObjectTraits::addAttribute`, through the object that holds the traits. */
    method AddAttribute(name: Text)
      modifies this`traits
      ensures traits == old(traits).(attributes := if name in old(traits).attributes then old(traits).attributes
                                                   else old(traits).attributes + [name])
    {
      if name !in traits.attributes {
        traits := traits.(attributes := traits.attributes + [name]);
      }
    }

    /**
      `addSealedProperty`: the property reads back, the others are untouched, and attributes
      and properties stay in step if they were.
     */
    method AddSealedProperty(name: Text, value: Item)
      modifies this`traits, this`sealedProperties
      ensures old(InStep()) ==> InStep()
      ensures forall n :: Find(sealedProperties, n) == if n == name then Some(value) else Find(old(sealedProperties), n)
      ensures traits == old(traits).(attributes := if name in old(traits).attributes then old(traits).attributes
                                                   else old(traits).attributes + [name])
    {
      AddAttribute(name);
      assert forall n :: n in traits.attributes <==> n in old(traits.attributes) || n == name;
      var p := Put(sealedProperties, name, value);
      forall n ensures Find(p, n) == if n == name then Some(value) else Find(sealedProperties, n) {
        FindPut(sealedProperties, name, value, n);
      }
      sealedProperties := p;
    }

    /** `addDynamicProperty`: nothing but the dynamic property of that name changes. */
    method AddDynamicProperty(name: Text, value: Item)
      modifies this`dynamicProperties
      ensures forall n ::
                Find(dynamicProperties, n) == if n == name then Some(value) else Find(old(dynamicProperties), n)
    {
      var p := Put(dynamicProperties, name, value);
      forall n ensures Find(p, n) == if n == name then Some(value) else Find(dynamicProperties, n) {
        FindPut(dynamicProperties, name, value, n);
      }
      dynamicProperties := p;
    }

    /**
      `getSealedProperty`: throws on anything that is not an attribute, and in `at` on an
      attribute without a value, which an object in step does not have.
     */
    method GetSealedProperty(name: Text) returns (r: Option<Item>)
      ensures r == if name in traits.attributes then Find(sealedProperties, name) else None
      ensures InStep() ==> (r.Some? <==> name in traits.attributes)
    {
      RankSplits(sealedProperties.names, name);
      if name !in traits.attributes {
        return None;
      }
      r := Find(sealedProperties, name);
    }

    /**
      An object kept in step serializes if its parts do: no sealed value is missing, whatever
      the order the properties were added in.
     */
    lemma InStepWellFormed()
      requires InStep() && TraitsFit(traits) && WellFormedSeq(sealedProperties.values)
      requires traits.dynamic ==> NamesFit(dynamicProperties.names) && WellFormedSeq(dynamicProperties.values)
      ensures WellFormed(Value()) && Canon(Value()).traits.attributes == sealedProperties.names
    {
      forall i | 0 <= i < |traits.attributes| ensures Holds(sealedProperties.names, traits.attributes[i]) {
        assert traits.attributes[i] in sealedProperties.names;
        RankSplits(sealedProperties.names, traits.attributes[i]);
      }
      AscendingDetermined(Unique(traits.attributes), sealedProperties.names);
    }
  }
}
