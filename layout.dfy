/**
 * The recursive layout described in the header's class comment and in the
 * contract of `part`: a type lists stack items, each either a terminal stack
 * slot or an item with a type of its own that may again occupy several slots.
 * A variable's names are the in-order concatenation of its items' names.
 * The flat model in IRVariables is the case where every item is terminal.
 */
module Layout {
  import opened Wrappers
  import opened Types
  import IRVariables

  /** One entry of a type's stack items. */
  datatype StackItem =
    | Leaf(name: string)
    | Composite(name: string, sub: LayoutType)

  datatype LayoutType = LayoutType(items: seq<StackItem>)

  /** A variable over a recursively laid-out type. */
  datatype Binding = Binding(ty: LayoutType, baseName: string)

  /** The type of a single terminal stack slot. */
  const Scalar := LayoutType([Leaf("")])

  /** The number of scalar stack slots of `t`: one per terminal slot, recursively. */
  function SizeOnStack(t: LayoutType): nat
    decreases t, 2
  {
    SizeBefore(t, |t.items|)
  }

  /** The number of scalar slots taken by the first `k` items. */
  function SizeBefore(t: LayoutType, k: nat): nat
    requires k <= |t.items|
    decreases t, 1, k
  {
    if k == 0 then 0 else SizeBefore(t, k - 1) + ItemSize(t, k - 1)
  }

  function ItemSize(t: LayoutType, k: nat): nat
    requires k < |t.items|
    decreases t, 0
  {
    match t.items[k]
    case Leaf(_) => 1
    case Composite(_, sub) => SizeOnStack(sub)
  }

  /** All Yul variable names of a variable of type `t` with base name `base`, in stack order. */
  function Flatten(t: LayoutType, base: string): (r: seq<string>)
    ensures forall i :: 0 <= i < |r| ==> base <= r[i]
    decreases t, 2
  {
    FlattenBefore(t, base, |t.items|)
  }

  /** The names of the first `k` items, concatenated in order. */
  function FlattenBefore(t: LayoutType, base: string, k: nat): (r: seq<string>)
    requires k <= |t.items|
    ensures forall i :: 0 <= i < |r| ==> base <= r[i]
    decreases t, 1, k
  {
    if k == 0 then [] else FlattenBefore(t, base, k - 1) + ItemNames(t, base, k - 1)
  }

  /** The names of item `k`: its composed name, flattened further when the item has a type of its own. */
  function ItemNames(t: LayoutType, base: string, k: nat): (r: seq<string>)
    requires k < |t.items|
    ensures forall i :: 0 <= i < |r| ==> base <= r[i]
    decreases t, 0
  {
    match t.items[k]
    case Leaf(n) => [IRVariables.Compose(base, n)]
    case Composite(n, sub) => Flatten(sub, IRVariables.Compose(base, n))
  }

  /** The type of the stack slot an item stands for. */
  function SlotType(item: StackItem): LayoutType {
    match item
    case Leaf(_) => Scalar
    case Composite(_, sub) => sub
  }

  /** `k` is the first item named `slot`, the one a lookup by name finds. */
  predicate FirstWithName(t: LayoutType, k: nat, slot: string) {
    k < |t.items| && t.items[k].name == slot && forall j :: 0 <= j < k ==> t.items[j].name != slot
  }

  function FindItem(items: seq<StackItem>, slot: string): (r: Option<nat>)
    ensures r.Some? ==> FirstWithName(LayoutType(items), r.value, slot)
    ensures r.None? ==> forall j :: 0 <= j < |items| ==> items[j].name != slot
  {
    if items == [] then None
    else if items[0].name == slot then Some(0)
    else match FindItem(items[1..], slot)
      case None => None
      case Some(k) => Some(k + 1)
  }

  /** The sub-variable of stack item `slot`, typed with that item's type. */
  function Part(v: Binding, slot: string): (r: Binding)
    requires exists k :: 0 <= k < |v.ty.items| && v.ty.items[k].name == slot
    ensures v.baseName <= r.baseName
    ensures slot == "" ==> r.baseName == v.baseName
    ensures slot != "" ==> r.baseName == v.baseName + "_" + slot
    ensures forall k: nat :: FirstWithName(v.ty, k, slot) ==> r.ty == SlotType(v.ty.items[k])
  {
    var k := FindItem(v.ty.items, slot);
    match k
    case Some(k) =>
      assert forall k': nat :: FirstWithName(v.ty, k', slot) ==> k' == k;
      Binding(SlotType(v.ty.items[k]), IRVariables.Compose(v.baseName, slot))
    case None => assert false; v
  }

  /** The flatten-length law: a variable has as many names as its type has scalar slots. */
  lemma {:induction false} FlattenLength(t: LayoutType, base: string)
    ensures |Flatten(t, base)| == SizeOnStack(t)
    decreases t, 2
  {
    FlattenBeforeLength(t, base, |t.items|);
  }

  lemma {:induction false} FlattenBeforeLength(t: LayoutType, base: string, k: nat)
    requires k <= |t.items|
    ensures |FlattenBefore(t, base, k)| == SizeBefore(t, k)
    decreases t, 1, k
  {
    if k > 0 {
      FlattenBeforeLength(t, base, k - 1);
      ItemNamesLength(t, base, k - 1);
    }
  }

  lemma {:induction false} ItemNamesLength(t: LayoutType, base: string, k: nat)
    requires k < |t.items|
    ensures |ItemNames(t, base, k)| == ItemSize(t, k)
    decreases t, 0
  {
    match t.items[k]
    case Leaf(_) =>
    case Composite(n, sub) => FlattenLength(sub, IRVariables.Compose(base, n));
  }

  lemma {:induction false} SizeBeforeMonotone(t: LayoutType, j: nat, k: nat)
    requires j <= k <= |t.items|
    ensures SizeBefore(t, j) <= SizeBefore(t, k)
    decreases k
  {
    if j < k {
      SizeBeforeMonotone(t, j, k - 1);
    }
  }

  /** The names of item `j` sit contiguously at its offset within the names of any longer prefix of items. */
  lemma {:induction false} ItemNamesAt(t: LayoutType, base: string, j: nat, k: nat)
    requires j < k <= |t.items|
    ensures SizeBefore(t, j + 1) <= |FlattenBefore(t, base, k)|
    ensures FlattenBefore(t, base, k)[SizeBefore(t, j)..SizeBefore(t, j + 1)] == ItemNames(t, base, j)
    decreases k
  {
    FlattenBeforeLength(t, base, j);
    FlattenBeforeLength(t, base, k - 1);
    FlattenBeforeLength(t, base, k);
    ItemNamesLength(t, base, j);
    if k == j + 1 {
      assert FlattenBefore(t, base, k) == FlattenBefore(t, base, j) + ItemNames(t, base, j);
    } else {
      ItemNamesAt(t, base, j, k - 1);
      SizeBeforeMonotone(t, j + 1, k - 1);
      var prefix := FlattenBefore(t, base, k - 1);
      assert FlattenBefore(t, base, k) == prefix + ItemNames(t, base, k - 1);
      assert FlattenBefore(t, base, k)[SizeBefore(t, j)..SizeBefore(t, j + 1)]
          == prefix[SizeBefore(t, j)..SizeBefore(t, j + 1)];
    }
  }

  /** The names of the part for item `k` are exactly that item's names. */
  lemma PartNames(v: Binding, k: nat)
    requires k < |v.ty.items| && FirstWithName(v.ty, k, v.ty.items[k].name)
    ensures Flatten(Part(v, v.ty.items[k].name).ty, Part(v, v.ty.items[k].name).baseName) == ItemNames(v.ty, v.baseName, k)
  {
  }

  /** The decomposition law: the names of the part for item `k` are the contiguous run of the
      variable's names that starts after the slots of the items before it. */
  lemma Decomposition(v: Binding, k: nat)
    requires k < |v.ty.items| && FirstWithName(v.ty, k, v.ty.items[k].name)
    ensures SizeBefore(v.ty, k + 1) <= |Flatten(v.ty, v.baseName)|
    ensures Flatten(v.ty, v.baseName)[SizeBefore(v.ty, k)..SizeBefore(v.ty, k + 1)]
         == Flatten(Part(v, v.ty.items[k].name).ty, Part(v, v.ty.items[k].name).baseName)
  {
    ItemNamesAt(v.ty, v.baseName, k, |v.ty.items|);
    PartNames(v, k);
  }

  /** Item names are unique, as the type system promises so that lookup by name is unambiguous. */
  predicate UniqueItemNames(t: LayoutType) {
    forall i, j :: 0 <= i < j < |t.items| ==> t.items[i].name != t.items[j].name
  }

  /** The names of the parts of the first `k` items, concatenated in order. */
  function PartsBefore(v: Binding, k: nat): seq<string>
    requires k <= |v.ty.items|
  {
    if k == 0 then []
    else
      assert 0 <= k - 1 < |v.ty.items| && v.ty.items[k - 1].name == v.ty.items[k - 1].name;
      var p := Part(v, v.ty.items[k - 1].name);
      PartsBefore(v, k - 1) + Flatten(p.ty, p.baseName)
  }

  /** A variable's names are the in-order concatenation of the names of the parts of its stack items. */
  lemma {:induction false} FlattenIsConcatenationOfParts(v: Binding, k: nat)
    requires UniqueItemNames(v.ty)
    requires k <= |v.ty.items|
    ensures FlattenBefore(v.ty, v.baseName, k) == PartsBefore(v, k)
  {
    if k > 0 {
      FlattenIsConcatenationOfParts(v, k - 1);
      PartNames(v, k - 1);
    }
  }

  /** The layout of a flat type: one terminal item per slot name. */
  function Leaves(slots: seq<string>): (t: LayoutType)
    ensures |t.items| == |slots|
  {
    LayoutType(seq(|slots|, k requires 0 <= k < |slots| => Leaf(slots[k])))
  }

  /** The recursive scheme agrees with the flat one when every item is terminal. */
  lemma {:induction false} LeavesAgreeWithFlatModel(slots: seq<string>, base: string, k: nat)
    requires k <= |slots|
    ensures FlattenBefore(Leaves(slots), base, k) == IRVariables.Components(IRVariables.IRVariable(Plain(slots, |slots|), base))[..k]
  {
    if k > 0 {
      LeavesAgreeWithFlatModel(slots, base, k - 1);
      var c := IRVariables.Components(IRVariables.IRVariable(Plain(slots, |slots|), base));
      assert c[..k] == c[..k - 1] + [c[k - 1]];
    }
  }

  /** For a flat type the recursive size is the flat model's slot count. */
  lemma {:induction false} LeavesSize(slots: seq<string>, k: nat)
    requires k <= |slots|
    ensures SizeBefore(Leaves(slots), k) == k
  {
    if k > 0 {
      LeavesSize(slots, k - 1);
    }
  }
}
