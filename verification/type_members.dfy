/** Runtime enumeration of an object's instance fields: the declared fields of
    every type from the object's own type up to the root, filtered by
    visibility against the calling class, followed by the object's dynamic
    runtime-field bag. */
module TypeMembers {
  import opened Wrappers

  type TypeId = nat

  /** Field accessibility as the runtime reports it; `Other` stands for the
      assembly-scoped kinds, which are neither public, private nor family. */
  datatype Visibility = Public | Private | Family | Other

  datatype Field = Field(name: string, visibility: Visibility)

  /** Type information of one runtime type: its declared instance fields in
      declaration order, and whether instances carry a runtime-fields holder. */
  datatype TypeDesc = TypeDesc(id: TypeId, instanceFields: seq<Field>, hasRuntimeFieldsHolder: bool)

  /** Key of an enumerated entry: an integer or a string. */
  datatype Key = IntKey(i: int) | StringKey(s: string)

  /** The calling class context: the class itself and its base classes,
      nearest first. */
  datatype Caller = Caller(id: TypeId, bases: seq<TypeId>)

  /** A live object: its type, the base types of that type (nearest first),
      the values of its declared fields, and the content of its
      runtime-fields holder (`None` for a null holder). */
  datatype Instance<V> = Instance(
    ty: TypeDesc,
    bases: seq<TypeDesc>,
    read: (TypeId, string) -> V,
    runtimeFields: Option<seq<(Key, V)>>)

  /** The dynamic-object class whose runtime fields are a plain member. */
  datatype StdClass<V> = StdClass(runtimeFields: Option<seq<(Key, V)>>)

  datatype Error = ArgumentNull

  /** A declared field together with the type that declares it. */
  datatype Slot = Slot(declaring: TypeId, field: Field)

  /** The type hierarchy of an object, most-derived type first. */
  function Chain<V>(inst: Instance<V>): (c: seq<TypeDesc>)
    ensures |c| == |inst.bases| + 1 && c[0] == inst.ty && c[1..] == inst.bases
  {
    [inst.ty] + inst.bases
  }

  // ---------------------------------------------------------------------
  // Visibility

  /** Whether members declared by `member` are accessible from `caller`: never
      from the global context, otherwise when the caller is `member` or a
      class derived from it. */
  predicate IsVisibleType(member: TypeId, caller: Option<Caller>)
    ensures IsVisibleType(member, caller) ==> caller.Some?
    ensures caller.Some? ==>
              (IsVisibleType(member, caller) <==> member in ClassChain(caller.value))
  {
    caller.Some? && (member == caller.value.id || member in caller.value.bases)
  }

  /** The caller class followed by its base classes: the types a reference to
      the caller can be assigned to. */
  function ClassChain(c: Caller): seq<TypeId>
  {
    [c.id] + c.bases
  }

  /** Whether a declared field is accessible from `caller`: a non-public field
      is only ever visible from its declaring class or a class derived from
      it, from the global context only public fields are, and the
      assembly-scoped kinds never are. */
  predicate IsVisible(s: Slot, caller: Option<Caller>)
    ensures IsVisible(s, caller) && s.field.visibility != Public ==> IsVisibleType(s.declaring, caller)
    ensures caller.None? ==> (IsVisible(s, caller) <==> s.field.visibility == Public)
    ensures s.field.visibility == Other ==> !IsVisible(s, caller)
  {
    match s.field.visibility
    case Public => true
    case Private => caller.Some? && caller.value.id == s.declaring
    case Family => IsVisibleType(s.declaring, caller)
    case Other => false
  }

  /** The visibility test, case by case: public always, private only from the
      declaring class, family from the declaring class or a subclass, nothing
      else ever, and from the global context only public. */
  lemma VisibilityRules(s: Slot, caller: Option<Caller>)
    ensures s.field.visibility == Public ==> IsVisible(s, caller)
    ensures s.field.visibility == Private ==>
              (IsVisible(s, caller) <==> caller.Some? && caller.value.id == s.declaring)
    ensures s.field.visibility == Family ==>
              (IsVisible(s, caller) <==>
                 caller.Some? && (caller.value.id == s.declaring || s.declaring in caller.value.bases))
    ensures s.field.visibility == Other ==> !IsVisible(s, caller)
    ensures caller.None? ==> (IsVisible(s, caller) <==> s.field.visibility == Public)
  {
  }

  // ---------------------------------------------------------------------
  // Declared fields

  /** Every declared instance field of `chain`, type by type, each type's
      fields in declaration order. */
  function DeclaredSlots(chain: seq<TypeDesc>): seq<Slot>
  {
    if |chain| == 0 then []
    else SlotsOf(chain[0].id, chain[0].instanceFields) + DeclaredSlots(chain[1..])
  }

  function SlotsOf(declaring: TypeId, fields: seq<Field>): (r: seq<Slot>)
    ensures |r| == |fields|
    ensures forall j :: 0 <= j < |fields| ==> r[j] == Slot(declaring, fields[j])
  {
    if |fields| == 0 then [] else [Slot(declaring, fields[0])] + SlotsOf(declaring, fields[1..])
  }

  /** The fields of one type that pass the visibility test, in declaration order. */
  function VisibleIn(declaring: TypeId, fields: seq<Field>, caller: Option<Caller>): (r: seq<Slot>)
    ensures |r| <= |fields|
  {
    if |fields| == 0 then []
    else Keep(Slot(declaring, fields[0]), caller) + VisibleIn(declaring, fields[1..], caller)
  }

  /** The one-field step of the filter: the field itself if visible, nothing otherwise. */
  function Keep(s: Slot, caller: Option<Caller>): seq<Slot>
  {
    if IsVisible(s, caller) then [s] else []
  }

  /** The declared fields the walk over `chain` yields. */
  function VisibleSlots(chain: seq<TypeDesc>, caller: Option<Caller>): seq<Slot>
  {
    if |chain| == 0 then []
    else VisibleIn(chain[0].id, chain[0].instanceFields, caller) + VisibleSlots(chain[1..], caller)
  }

  /** Within one type, the yielded fields of a split declaration list are
      those of the first part followed by those of the second. */
  lemma {:induction false} VisibleInAppend(declaring: TypeId, a: seq<Field>, b: seq<Field>, caller: Option<Caller>)
    ensures VisibleIn(declaring, a + b, caller) == VisibleIn(declaring, a, caller) + VisibleIn(declaring, b, caller)
    decreases |a|
  {
    if |a| == 0 {
      assert a + b == b;
    } else {
      assert (a + b)[0] == a[0];
      assert (a + b)[1..] == a[1..] + b;
      VisibleInAppend(declaring, a[1..], b, caller);
    }
  }

  /** Hierarchy order: everything yielded for the more-derived part of a chain
      precedes everything yielded for the rest. */
  lemma {:induction false} VisibleSlotsAppend(a: seq<TypeDesc>, b: seq<TypeDesc>, caller: Option<Caller>)
    ensures VisibleSlots(a + b, caller) == VisibleSlots(a, caller) + VisibleSlots(b, caller)
    decreases |a|
  {
    if |a| == 0 {
      assert a + b == b;
    } else {
      assert (a + b)[0] == a[0];
      assert (a + b)[1..] == a[1..] + b;
      VisibleSlotsAppend(a[1..], b, caller);
    }
  }

  /** A field of one type is yielded exactly when it is declared there and visible. */
  lemma {:induction false} VisibleInMembership(declaring: TypeId, fields: seq<Field>, caller: Option<Caller>, s: Slot)
    ensures s in VisibleIn(declaring, fields, caller) <==> s in SlotsOf(declaring, fields) && IsVisible(s, caller)
    decreases |fields|
  {
    if |fields| > 0 {
      VisibleInMembership(declaring, fields[1..], caller, s);
    }
  }

  /** The walk yields a declared field exactly when it passes the visibility
      test: nothing invisible, and nothing that is not declared. */
  lemma {:induction false} VisibleSlotsMembership(chain: seq<TypeDesc>, caller: Option<Caller>, s: Slot)
    ensures s in VisibleSlots(chain, caller) <==> s in DeclaredSlots(chain) && IsVisible(s, caller)
    decreases |chain|
  {
    if |chain| > 0 {
      VisibleInMembership(chain[0].id, chain[0].instanceFields, caller, s);
      VisibleSlotsMembership(chain[1..], caller, s);
    }
  }

  /** The `j`-th field declared by the `i`-th type of the chain is among the
      declared slots. */
  lemma {:induction false} DeclaredSlotOf(chain: seq<TypeDesc>, i: nat, j: nat)
    requires i < |chain| && j < |chain[i].instanceFields|
    ensures Slot(chain[i].id, chain[i].instanceFields[j]) in DeclaredSlots(chain)
    decreases i
  {
    var s := Slot(chain[i].id, chain[i].instanceFields[j]);
    if i == 0 {
      assert SlotsOf(chain[0].id, chain[0].instanceFields)[j] == s;
    } else {
      DeclaredSlotOf(chain[1..], i - 1, j);
    }
  }

  /** A declared field's presence in the walk, by visibility kind: public
      always, private iff the caller is the declaring class, family iff there
      is a caller that is the declaring class or derives from it, any other
      kind never. */
  lemma DeclaredFieldYieldedIff(chain: seq<TypeDesc>, i: nat, j: nat, caller: Option<Caller>)
    requires i < |chain| && j < |chain[i].instanceFields|
    ensures var f := chain[i].instanceFields[j];
            var s := Slot(chain[i].id, f);
            && (f.visibility == Public ==> s in VisibleSlots(chain, caller))
            && (f.visibility == Private ==>
                  (s in VisibleSlots(chain, caller) <==> caller.Some? && caller.value.id == chain[i].id))
            && (f.visibility == Family ==>
                  (s in VisibleSlots(chain, caller) <==>
                     caller.Some? && (caller.value.id == chain[i].id || chain[i].id in caller.value.bases)))
            && (f.visibility == Other ==> s !in VisibleSlots(chain, caller))
  {
    var s := Slot(chain[i].id, chain[i].instanceFields[j]);
    DeclaredSlotOf(chain, i, j);
    VisibleSlotsMembership(chain, caller, s);
  }

  /** From the global context exactly the public declared fields are yielded. */
  lemma NoCallerOnlyPublic(chain: seq<TypeDesc>, s: Slot)
    ensures s in VisibleSlots(chain, None) <==> s in DeclaredSlots(chain) && s.field.visibility == Public
  {
    VisibleSlotsMembership(chain, None, s);
  }

  // ---------------------------------------------------------------------
  // Runtime fields

  /** Runtime fields of a dynamic object; a null object is rejected. */
  function GetStdClassRuntimeFields<V>(obj: Option<StdClass<V>>): (r: Result<Option<seq<(Key, V)>>, Error>)
    ensures obj.None? <==> r == Failure(ArgumentNull)
    ensures obj.Some? ==> r == Success(obj.value.runtimeFields)
  {
    if obj.None? then Failure(ArgumentNull) else Success(obj.value.runtimeFields)
  }

  /** Runtime fields of an instance of `tinfo`: the holder's content when the
      type has a holder, and null otherwise. */
  function GetRuntimeFields<V>(tinfo: TypeDesc, inst: Instance<V>): (r: Option<seq<(Key, V)>>)
    requires inst.ty == tinfo
    ensures !tinfo.hasRuntimeFieldsHolder ==> r.None?
    ensures tinfo.hasRuntimeFieldsHolder ==> r == inst.runtimeFields
  {
    if tinfo.hasRuntimeFieldsHolder then inst.runtimeFields else None
  }

  /** The runtime entries appended after the declared fields: the whole bag
      when it exists and is non-empty, nothing otherwise. */
  function RuntimeTail<V>(inst: Instance<V>): seq<(Key, V)>
  {
    var rf := GetRuntimeFields(inst.ty, inst);
    if rf.Some? && |rf.value| != 0 then rf.value else []
  }

  // ---------------------------------------------------------------------
  // Enumeration

  /** Key and current value of a declared field of `inst`. */
  function Entry<V>(inst: Instance<V>, s: Slot): (Key, V)
  {
    (StringKey(s.field.name), inst.read(s.declaring, s.field.name))
  }

  /** The entries of a sequence of declared fields, in the same order. */
  function Entries<V>(inst: Instance<V>, slots: seq<Slot>): (r: seq<(Key, V)>)
  {
    seq(|slots|, k requires 0 <= k < |slots| => Entry(inst, slots[k]))
  }

  lemma EntriesAppend<V>(inst: Instance<V>, a: seq<Slot>, b: seq<Slot>)
    ensures Entries(inst, a + b) == Entries(inst, a) + Entries(inst, b)
  {
  }

  /** The visible instance fields of `inst` seen from `caller`: one entry per
      visible declared field in walk order, then the runtime bag. */
  function EnumerateInstanceFields<V>(inst: Instance<V>, caller: Option<Caller>): (r: seq<(Key, V)>)
    ensures var vis := VisibleSlots(Chain(inst), caller);
            && |r| == |vis| + |RuntimeTail(inst)|
            && (forall k :: 0 <= k < |vis| ==> r[k] == Entry(inst, vis[k]))
            && r[|vis|..] == RuntimeTail(inst)
  {
    Entries(inst, VisibleSlots(Chain(inst), caller)) + RuntimeTail(inst)
  }

  /** The bag contributes exactly when the type has a holder and the holder
      holds a non-empty bag; it then contributes every entry, in bag order,
      after all declared fields. */
  lemma RuntimeBagIncludedIff<V>(inst: Instance<V>, caller: Option<Caller>)
    ensures var n := |VisibleSlots(Chain(inst), caller)|;
            var r := EnumerateInstanceFields(inst, caller);
            && (|r| > n <==>
                  inst.ty.hasRuntimeFieldsHolder && inst.runtimeFields.Some? && |inst.runtimeFields.value| > 0)
            && (|r| > n ==> r[n..] == inst.runtimeFields.value)
  {
  }

  /** The entries one type contributes to the walk: its visible declared
      fields, in declaration order. */
  method YieldDeclared<V>(inst: Instance<V>, t: TypeDesc, caller: Option<Caller>) returns (r: seq<(Key, V)>)
    ensures r == Entries(inst, VisibleIn(t.id, t.instanceFields, caller))
  {
    r := [];
    var j := 0;
    while j < |t.instanceFields|
      invariant 0 <= j <= |t.instanceFields|
      invariant r == Entries(inst, VisibleIn(t.id, t.instanceFields[..j], caller))
    {
      var f := t.instanceFields[j];
      var s := Slot(t.id, f);
      var prefix := VisibleIn(t.id, t.instanceFields[..j], caller);
      VisibleInAppend(t.id, t.instanceFields[..j], [f], caller);
      assert t.instanceFields[..j + 1] == t.instanceFields[..j] + [f];
      if IsVisible(s, caller) {
        assert VisibleIn(t.id, [f], caller) == [s] + [];
        EntriesAppend(inst, prefix, [s]);
        r := r + [Entry(inst, s)];
      } else {
        assert VisibleIn(t.id, [f], caller) == [];
        assert prefix + [] == prefix;
      }
      j := j + 1;
    }
    assert t.instanceFields[..j] == t.instanceFields;
  }

  /** The same enumeration as a walk over the hierarchy, one type at a time,
      followed by a copy of the runtime bag. */
  method EnumerateInstanceFieldsLoop<V>(inst: Instance<V>, caller: Option<Caller>) returns (r: seq<(Key, V)>)
    ensures r == EnumerateInstanceFields(inst, caller)
  {
    var chain := Chain(inst);
    r := [];
    var i := 0;
    while i < |chain|
      invariant 0 <= i <= |chain|
      invariant r == Entries(inst, VisibleSlots(chain[..i], caller))
    {
      var t := chain[i];
      var own := YieldDeclared(inst, t, caller);
      VisibleSlotsAppend(chain[..i], [t], caller);
      assert chain[..i + 1] == chain[..i] + [t];
      assert VisibleSlots([t], caller) == VisibleIn(t.id, t.instanceFields, caller) + VisibleSlots([], caller);
      EntriesAppend(inst, VisibleSlots(chain[..i], caller), VisibleIn(t.id, t.instanceFields, caller));
      r := r + own;
      i := i + 1;
    }
    assert chain[..i] == chain;
    var runtimeFields := GetRuntimeFields(inst.ty, inst);
    if runtimeFields.Some? && |runtimeFields.value| != 0 {
      r := r + runtimeFields.value;
    }
  }

  /** Hierarchy `Base{a}` <- `Derived{b}` with runtime bag `{c: 1}`, `a`
      family and `b` private. */
  function ExampleInstance(read: (TypeId, string) -> int): Instance<int>
  {
    Instance(TypeDesc(2, [Field("b", Private)], true), [TypeDesc(1, [Field("a", Family)], false)],
             read, Some([(StringKey("c"), 1)]))
  }

  /** From `Derived` both declared fields are visible, derived first, then the bag. */
  lemma DerivedCallerExample(read: (TypeId, string) -> int)
    ensures EnumerateInstanceFields(ExampleInstance(read), Some(Caller(2, [1]))) ==
              [(StringKey("b"), read(2, "b")), (StringKey("a"), read(1, "a")), (StringKey("c"), 1)]
  {
    var inst := ExampleInstance(read);
    var caller := Some(Caller(2, [1]));
    var derived := inst.ty;
    var base := inst.bases[0];
    assert Chain(inst) == [derived, base];
    assert IsVisible(Slot(2, Field("b", Private)), caller);
    assert IsVisible(Slot(1, Field("a", Family)), caller);
    assert VisibleIn(2, derived.instanceFields, caller) == [Slot(2, Field("b", Private))];
    assert VisibleIn(1, base.instanceFields, caller) == [Slot(1, Field("a", Family))];
    VisibleSlotsAppend([derived], [base], caller);
    assert [derived][1..] == [] && [base][1..] == [];
    assert VisibleSlots(Chain(inst), caller) == [Slot(2, Field("b", Private)), Slot(1, Field("a", Family))];
  }

  /** From `Base` the private field of `Derived` is hidden; the family field
      and the bag remain. */
  lemma BaseCallerExample(read: (TypeId, string) -> int)
    ensures EnumerateInstanceFields(ExampleInstance(read), Some(Caller(1, []))) ==
              [(StringKey("a"), read(1, "a")), (StringKey("c"), 1)]
  {
    var inst := ExampleInstance(read);
    var caller := Some(Caller(1, []));
    var derived := inst.ty;
    var base := inst.bases[0];
    assert Chain(inst) == [derived, base];
    assert !IsVisible(Slot(2, Field("b", Private)), caller);
    assert IsVisible(Slot(1, Field("a", Family)), caller);
    assert VisibleIn(2, derived.instanceFields, caller) == [];
    assert VisibleIn(1, base.instanceFields, caller) == [Slot(1, Field("a", Family))];
    VisibleSlotsAppend([derived], [base], caller);
    assert [derived][1..] == [] && [base][1..] == [];
    assert VisibleSlots(Chain(inst), caller) == [Slot(1, Field("a", Family))];
  }
}
