/**
 * IRVariable: the set of Yul variable names that hold the stack slots of a
 * Solidity variable or expression. A binding is an immutable pair of a type and
 * a base name; every query is a function of that pair, so bindings built from
 * equal pairs answer every query alike and no query changes the binding.
 */
module IRVariables {
  import opened Wrappers
  import opened Decimal
  import opened Types
  import opened BaseNames

  /** The explicit `(type, name)` constructor is the datatype constructor itself: the name is kept verbatim. */
  datatype IRVariable = IRVariable(ty: Type, baseName: string)

  /** The variable of a local (non-state) declaration. */
  function FromDeclaration(d: VariableDeclaration): (v: IRVariable)
    requires !d.isStateVariable
    ensures v.ty == d.ty
    ensures v.baseName == "vloc_" + d.name + "_" + NatToString(d.id)
    ensures DecodeDeclarationBaseName(v.baseName) == Some((d.name, d.id))
  {
    DeclarationBaseNameRoundTrip(d.name, d.id);
    IRVariable(d.ty, DeclarationBaseName(d.name, d.id))
  }

  /** The variable holding the value of an expression. */
  function FromExpression(e: Expression): (v: IRVariable)
    ensures v.ty == e.ty
    ensures v.baseName == "expr_" + NatToString(e.id)
    ensures DecodeExpressionBaseName(v.baseName) == Some(e.id)
  {
    ExpressionBaseNameRoundTrip(e.id);
    IRVariable(e.ty, ExpressionBaseName(e.id))
  }

  /** The name composition rule: the base name alone for the empty slot, otherwise base, `_`, slot. */
  function Compose(base: string, slot: string): string {
    if slot == "" then base else base + "_" + slot
  }

  /** The Yul variable name of stack slot `slot`: it extends the base name, and the slot can be read back from it. */
  function Part(v: IRVariable, slot: string): (r: string)
    requires slot in v.ty.slotNames
    ensures v.baseName <= r
    ensures IsSlotSuffix(r[|v.baseName|..])
    ensures slot == "" ==> r == v.baseName
    ensures slot != "" ==> |r| == |v.baseName| + 1 + |slot| && r[|v.baseName|] == '_' && r[|v.baseName| + 1..] == slot
  {
    Compose(v.baseName, slot)
  }

  /** The sub-binding of stack slot `slot`, retyped to `t`. */
  function PartTyped(v: IRVariable, slot: string, t: Type): (r: IRVariable)
    requires slot in v.ty.slotNames
    ensures r.ty == t
    ensures r.baseName == Part(v, slot)
  {
    IRVariable(t, Part(v, slot))
  }

  /** The names of all stack slots, in the order of the type's slot names. */
  function Components(v: IRVariable): seq<string> {
    seq(|v.ty.slotNames|, k requires 0 <= k < |v.ty.slotNames| => Part(v, v.ty.slotNames[k]))
  }

  method StackComponents(v: IRVariable) returns (result: seq<string>)
    ensures |result| == |v.ty.slotNames|
    ensures WellFormed(v.ty) ==> |result| == v.ty.sizeOnStack
    ensures forall k :: 0 <= k < |result| ==> result[k] == Part(v, v.ty.slotNames[k])
    ensures result == Components(v)
  {
    var slots := v.ty.slotNames;
    result := [];
    for i := 0 to |slots|
      invariant |result| == i
      invariant forall k :: 0 <= k < i ==> result[k] == Part(v, slots[k])
    {
      result := result + [Part(v, slots[i])];
    }
  }

  /** The stack components joined into one string. The joining rule (`joinHumanReadable`)
      is not part of this model and is passed in. */
  method CommaSeparatedList(v: IRVariable, join: seq<string> -> string) returns (r: string)
    ensures r == join(Components(v))
  {
    var components := StackComponents(v);
    r := join(components);
  }

  /** The name of a variable that occupies exactly one stack slot. */
  function Name(v: IRVariable): (r: string)
    requires v.ty.sizeOnStack == 1
    requires WellFormed(v.ty)
    ensures |Components(v)| == 1 && r == Components(v)[0]
    ensures r == Part(v, v.ty.slotNames[0])
  {
    var slot := v.ty.slotNames[0];
    if slot == "" then v.baseName else v.baseName + "_" + slot
  }

  /** The slot name under which a tuple type lists its component `i` (counted from 0). */
  function ComponentSlot(i: nat): string {
    "component_" + NatToString(i + 1)
  }

  /** The binding of component `i` of a tuple variable, typed with that component's type. */
  function TupleComponent(v: IRVariable, i: nat): (r: IRVariable)
    requires v.ty.Tuple?
    requires i < |v.ty.components|
    requires v.ty.components[i].Some?
    requires ComponentSlot(i) in v.ty.slotNames
    ensures r.ty == v.ty.components[i].value
    ensures r.baseName == v.baseName + "_component_" + NatToString(i + 1)
  {
    IRVariable(v.ty.components[i].value, Part(v, ComponentSlot(i)))
  }

  /** The explicit constructor keeps the type and the name verbatim; `type()` is the `ty` field. */
  lemma ExplicitKeepsTypeAndName(t: Type, name: string)
    ensures IRVariable(t, name).ty == t && IRVariable(t, name).baseName == name
  {
  }

  /** Different slots of one variable get different names. */
  lemma PartInjective(v: IRVariable, s1: string, s2: string)
    requires s1 in v.ty.slotNames && s2 in v.ty.slotNames
    ensures Part(v, s1) == Part(v, s2) <==> s1 == s2
  {
  }

  /** When the type's slot names are distinct, so are the variable's stack components. */
  lemma ComponentsDistinct(v: IRVariable)
    requires forall j, k :: 0 <= j < k < |v.ty.slotNames| ==> v.ty.slotNames[j] != v.ty.slotNames[k]
    ensures forall j, k :: 0 <= j < k < |Components(v)| ==> Components(v)[j] != Components(v)[k]
  {
  }

  /** Distinct tuple components get distinct base names. */
  lemma TupleComponentsDistinct(v: IRVariable, i: nat, j: nat)
    requires v.ty.Tuple?
    requires i < |v.ty.components| && j < |v.ty.components|
    requires v.ty.components[i].Some? && v.ty.components[j].Some?
    requires ComponentSlot(i) in v.ty.slotNames && ComponentSlot(j) in v.ty.slotNames
    requires i != j
    ensures TupleComponent(v, i).baseName != TupleComponent(v, j).baseName
  {
    var p := "component_";
    if ComponentSlot(i) == ComponentSlot(j) {
      assert ComponentSlot(i)[|p|..] == NatToString(i + 1);
      assert ComponentSlot(j)[|p|..] == NatToString(j + 1);
      NatToStringInjective(i + 1, j + 1);
    }
    PartInjective(v, ComponentSlot(i), ComponentSlot(j));
  }

  /** Two local declarations with the same surface name and different ids share no stack component name. */
  lemma DeclarationComponentsDisjoint(d1: VariableDeclaration, d2: VariableDeclaration)
    requires !d1.isStateVariable && !d2.isStateVariable
    requires d1.name == d2.name && d1.id != d2.id
    ensures forall a :: a in Components(FromDeclaration(d1)) ==> a !in Components(FromDeclaration(d2))
  {
    var v1, v2 := FromDeclaration(d1), FromDeclaration(d2);
    var c1, c2 := Components(v1), Components(v2);
    forall j, k | 0 <= j < |c1| && 0 <= k < |c2|
      ensures c1[j] != c2[k]
    {
      assert c1[j] == Compose(v1.baseName, v1.ty.slotNames[j]);
      assert c2[k] == Compose(v2.baseName, v2.ty.slotNames[k]);
      SameNameComposedDistinct(d1.name, d1.id, d2.id, v1.ty.slotNames[j], v2.ty.slotNames[k]);
    }
  }

  lemma SameNameComposedDistinct(name: string, id1: nat, id2: nat, s1: string, s2: string)
    requires id1 != id2
    ensures Compose(DeclarationBaseName(name, id1), s1) != Compose(DeclarationBaseName(name, id2), s2)
  {
    var b1, b2 := DeclarationBaseName(name, id1), DeclarationBaseName(name, id2);
    var r1 := if s1 == "" then "" else "_" + s1;
    var r2 := if s2 == "" then "" else "_" + s2;
    assert Compose(b1, s1) == b1 + r1;
    assert Compose(b2, s2) == b2 + r2;
    DerivedDeclarationNamesDistinct(name, id1, id2, r1, r2);
  }

  /** A declaration's stack components never coincide with an expression's. */
  lemma OriginComponentsDisjoint(d: VariableDeclaration, e: Expression)
    requires !d.isStateVariable
    ensures forall a :: a in Components(FromDeclaration(d)) ==> a !in Components(FromExpression(e))
  {
    var v1, v2 := FromDeclaration(d), FromExpression(e);
    var c1, c2 := Components(v1), Components(v2);
    forall j, k | 0 <= j < |c1| && 0 <= k < |c2|
      ensures c1[j] != c2[k]
    {
      assert c1[j][..5] == v1.baseName[..5] == "vloc_";
      assert c2[k][..5] == v2.baseName[..5] == "expr_";
    }
  }

  /** A slot name that adds one `_`-free, not purely numeric segment (or nothing) to the base name.
      Whether a type's slot names are of this kind is up to the type system; the `component_<i>`
      slots that a tuple type is expected to list are not. */
  predicate PlainSlotName(slot: string) {
    slot == "" || ((forall i :: 0 <= i < |slot| ==> slot[i] != '_') && !AllDigits(slot))
  }

  /** With plain slot names a derived declaration name determines the declaration's base name. */
  lemma PlainDerivedNamesDistinct(name1: string, id1: nat, s1: string, name2: string, id2: nat, s2: string)
    requires id1 != id2
    requires PlainSlotName(s1) && PlainSlotName(s2)
    ensures Compose(DeclarationBaseName(name1, id1), s1) != Compose(DeclarationBaseName(name2, id2), s2)
  {
    var b1, b2 := DeclarationBaseName(name1, id1), DeclarationBaseName(name2, id2);
    var c1, c2 := Compose(b1, s1), Compose(b2, s2);
    DeclarationBaseNameInjective(name1, id1, name2, id2);
    DeclarationBaseNameTail(name1, id1);
    DeclarationBaseNameTail(name2, id2);
    if s1 != "" {
      LastUnderscoreAfter(b1, s1);
      assert c1[|b1| + 1..] == s1 && c1[..|b1|] == b1;
    }
    if s2 != "" {
      LastUnderscoreAfter(b2, s2);
      assert c2[|b2| + 1..] == s2 && c2[..|b2|] == b2;
    }
  }

  /** Two local declarations with different ids share no stack component name, whatever their
      surface names, as long as their types use only plain slot names. */
  lemma PlainDeclarationComponentsDisjoint(d1: VariableDeclaration, d2: VariableDeclaration)
    requires !d1.isStateVariable && !d2.isStateVariable
    requires d1.id != d2.id
    requires forall k :: 0 <= k < |d1.ty.slotNames| ==> PlainSlotName(d1.ty.slotNames[k])
    requires forall k :: 0 <= k < |d2.ty.slotNames| ==> PlainSlotName(d2.ty.slotNames[k])
    ensures forall a :: a in Components(FromDeclaration(d1)) ==> a !in Components(FromDeclaration(d2))
  {
    var v1, v2 := FromDeclaration(d1), FromDeclaration(d2);
    var c1, c2 := Components(v1), Components(v2);
    forall j, k | 0 <= j < |c1| && 0 <= k < |c2|
      ensures c1[j] != c2[k]
    {
      assert c1[j] == Compose(v1.baseName, v1.ty.slotNames[j]);
      assert c2[k] == Compose(v2.baseName, v2.ty.slotNames[k]);
      PlainDerivedNamesDistinct(d1.name, d1.id, v1.ty.slotNames[j], d2.name, d2.id, v2.ty.slotNames[k]);
    }
  }

  /** Without the plain-slot condition, declarations with different surface names and ids can clash:
      `x` (id 5) with a `component_1` slot and `x_5_component` (id 1) with one unnamed slot both get
      `vloc_x_5_component_1`, and likewise for every surface name and id. */
  lemma DifferentSurfaceNamesCanClash(name: string, id: nat)
    ensures Components(FromDeclaration(VariableDeclaration(id, name, false, Plain(["component_1"], 1))))
         == Components(FromDeclaration(VariableDeclaration(1, name + "_" + NatToString(id) + "_component", false, Plain([""], 1))))
         == ["vloc_" + name + "_" + NatToString(id) + "_component_1"]
  {
    ClashViaComponentSlot(name, id);
    ClashViaUnnamedSlot(name, id);
  }

  lemma ClashViaComponentSlot(name: string, id: nat)
    ensures Components(FromDeclaration(VariableDeclaration(id, name, false, Plain(["component_1"], 1))))
         == ["vloc_" + name + "_" + NatToString(id) + "_component_1"]
  {
    var b := "vloc_" + name + "_" + NatToString(id);
    var v := FromDeclaration(VariableDeclaration(id, name, false, Plain(["component_1"], 1)));
    assert v.baseName == b;
    assert b + "_" + "component_1" == b + "_component_1";
    SingleSlotComponents(v, b + "_component_1");
  }

  lemma ClashViaUnnamedSlot(name: string, id: nat)
    ensures Components(FromDeclaration(VariableDeclaration(1, name + "_" + NatToString(id) + "_component", false, Plain([""], 1))))
         == ["vloc_" + name + "_" + NatToString(id) + "_component_1"]
  {
    var b := "vloc_" + name + "_" + NatToString(id);
    var v := FromDeclaration(VariableDeclaration(1, name + "_" + NatToString(id) + "_component", false, Plain([""], 1)));
    assert v.baseName == b + "_component" + "_" + "1" by {
      assert NatToString(1) == "1";
    }
    assert b + "_component_1" == b + "_component" + "_" + "1";
    SingleSlotComponents(v, b + "_component_1");
  }

  /** A number inside a slot name can clash too: `x_3` (id 7) with slot `b` and `x` (id 3) with
      slot `7_b` both get `vloc_x_3_7_b`, and likewise for every surface name, pair of ids and
      non-empty final slot word. */
  lemma InnerNumberSlotCanClash(name: string, id1: nat, id2: nat, word: string)
    requires word != ""
    ensures Components(FromDeclaration(VariableDeclaration(id2, name + "_" + NatToString(id1), false, Plain([word], 1))))
         == Components(FromDeclaration(VariableDeclaration(id1, name, false, Plain([NatToString(id2) + "_" + word], 1))))
         == ["vloc_" + name + "_" + NatToString(id1) + "_" + NatToString(id2) + "_" + word]
  {
    ClashViaPlainSlot(name, id1, id2, word);
    ClashViaNumberedSlot(name, id1, id2, word);
  }

  lemma ClashViaPlainSlot(name: string, id1: nat, id2: nat, word: string)
    requires word != ""
    ensures Components(FromDeclaration(VariableDeclaration(id2, name + "_" + NatToString(id1), false, Plain([word], 1))))
         == ["vloc_" + name + "_" + NatToString(id1) + "_" + NatToString(id2) + "_" + word]
  {
    var d := VariableDeclaration(id2, name + "_" + NatToString(id1), false, Plain([word], 1));
    SingleSlotComponents(FromDeclaration(d), FromDeclaration(d).baseName + "_" + word);
    NestedDeclarationBaseName(name, NatToString(id1), id2);
  }

  lemma NestedDeclarationBaseName(name: string, digits: string, id: nat)
    ensures DeclarationBaseName(name + "_" + digits, id) == "vloc_" + name + "_" + digits + "_" + NatToString(id)
  {
  }

  lemma ClashViaNumberedSlot(name: string, id1: nat, id2: nat, word: string)
    ensures Components(FromDeclaration(VariableDeclaration(id1, name, false, Plain([NatToString(id2) + "_" + word], 1))))
         == ["vloc_" + name + "_" + NatToString(id1) + "_" + NatToString(id2) + "_" + word]
  {
    var d := VariableDeclaration(id1, name, false, Plain([NatToString(id2) + "_" + word], 1));
    SingleSlotComponents(FromDeclaration(d), FromDeclaration(d).baseName + "_" + (NatToString(id2) + "_" + word));
    UnderscoreJoinAssociative(DeclarationBaseName(name, id1), NatToString(id2), word);
  }

  lemma UnderscoreJoinAssociative(b: string, x: string, w: string)
    ensures b + "_" + (x + "_" + w) == b + "_" + x + "_" + w
  {
  }

  /** A variable with a single slot has that slot's name as its only component. */
  lemma SingleSlotComponents(v: IRVariable, name: string)
    requires |v.ty.slotNames| == 1 && Part(v, v.ty.slotNames[0]) == name
    ensures Components(v) == [name]
  {
    assert Components(v)[0] == name;
  }


}
