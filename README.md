# IRVariable: naming the Yul variables of a Solidity value

In Solidity's IR code generator, an `IRVariable` maps a Solidity variable or
expression result to the Yul variable names that hold its stack slots. A
binding is a pair (type, base name). The base name comes from one of three
origins:

- a local declaration gives `vloc_<name>_<id>`;
- an explicit `(type, name)` pair keeps the name verbatim;
- an expression gives `expr_<id>`.

Each stack slot then gets its name from the base name and the slot's name.
An empty slot name gives the base name itself; any other slot name `s` gives
`base_s`. A tuple variable reaches its member `i` through the slot
`component_<i+1>`.

The project is laid out as follows:

- `wrappers.dfy` has `Option`, which stands in for a nullable type pointer.
- `decimal.dfy` has the decimal rendering of ids, which `std::to_string` does in the source, and its inverse.
- `types.dfy` has the abstract type. It carries the ordered slot names, the size on stack, and, for a tuple, the optional component types. It also holds plain records for the declaration and expression nodes.
- `base_names.dfy` has the two generated base-name formats and decoders that read the id (and the surface name) back from them. Base-name uniqueness is proved with these decoders.
- `ir_variable.dfy` has the binding and its operations: the constructors, both `part` overloads, `stackComponents` (a method with a loop, as in the source, plus the function `Components` that specifies it), `commaSeparatedList`, `name` and `tupleComponent`.
- `layout.dfy` has the recursive layout that the header's comments describe. Each stack item is either a `Leaf` or a `Composite` with a type of its own. This file proves the flatten-length and decomposition laws, and shows that the recursive scheme agrees with the flat one when every item is a leaf.

The binding is an immutable datatype. Every operation is a function of
`(type, baseName)`, just as every member of the C++ class is `const`.
The accessor `type()` (`IRVariable.h:55`) is the datatype field `ty`. Each
constructor's contract states that `ty` is the type it was given.

The header and the implementation disagree on `part`. The header declares one
`IRVariable part(slot)` that returns a typed sub-binding. The implementation
defines `string part(slot)` and `IRVariable part(slot, type)`. The model
follows the implementation (`IRVariables.Part`, `IRVariables.PartTyped`). The
header's typed, recursive form is `Layout.Part`.

## Model

| member | source | states |
|---|---|---|
| `IRVariables.FromDeclaration` | libsolidity/codegen/ir/IRVariable.cpp:27-32 | defined only for non-state declarations; keeps the declaration's type; the base name is `"vloc_" + name + "_" + decimal(id)`, and decoding it gives back exactly (name, id) |
| `IRVariables.FromExpression` | libsolidity/codegen/ir/IRVariable.cpp:39-43 | keeps the expression's type; the base name is `"expr_" + decimal(id)`, and decoding it gives back the id |
| `IRVariables.ExplicitKeepsTypeAndName` | libsolidity/codegen/ir/IRVariable.cpp:34-37 | the explicit constructor keeps the given type (what `type()` returns) and the given name verbatim |
| `BaseNames.DeclarationBaseNameRoundTrip` | libsolidity/codegen/ir/IRVariable.cpp:29 | splitting a declaration base name at its last `_` recovers the surface name and the id, even when the surface name contains `_` |
| `BaseNames.ExpressionBaseNameRoundTrip` | libsolidity/codegen/ir/IRVariable.cpp:41 | the id is recovered from an expression base name |
| `BaseNames.DeclarationBaseNameInjective` | libsolidity/codegen/ir/IRVariable.cpp:29 | two declaration base names are equal iff both surface name and id are equal; in particular, different ids with the same surface name give different names |
| `BaseNames.ExpressionBaseNameInjective` | libsolidity/codegen/ir/IRVariable.cpp:41 | expression base names are equal iff the ids are equal |
| `BaseNames.BaseNameFormatsDisjoint` | libsolidity/codegen/ir/IRVariable.cpp:27-43 | no `vloc_` base name equals an `expr_` base name, and neither decoder accepts the other format |
| `BaseNames.DerivedDeclarationNamesDistinct` | libsolidity/codegen/ir/IRVariable.cpp:29 | for the same surface name and different ids, no slot suffixes make the derived names equal, because the digit-only id ends where the suffix's `_` begins |
| `BaseNames.DigitRunDetermined` | libsolidity/codegen/ir/IRVariable.cpp:29 | proof helper for `BaseNames.DerivedDeclarationNamesDistinct`: a digit run followed by an empty-or-`_`-led suffix is determined by the whole string |
| `Decimal.NatToString` | libsolidity/codegen/ir/IRVariable.cpp:29 | the rendering of an id is non-empty, digits only, and has no leading zero unless the id is 0 |
| `Decimal.ParseNatToString` | libsolidity/codegen/ir/IRVariable.cpp:29 | parsing the rendering of `n` yields `n` |
| `Decimal.NatToStringInjective` | libsolidity/codegen/ir/IRVariable.cpp:41 | distinct ids render to distinct strings |
| `IRVariables.Part` | libsolidity/codegen/ir/IRVariable.cpp:49-56 | requires the slot to be among the type's slot names; the result is the base name when the slot is empty, otherwise the base name, `_` and the slot (so the base name is always a prefix and the slot can be read back) |
| `IRVariables.PartTyped` | libsolidity/codegen/ir/IRVariable.cpp:45-48 | same requirement; the result has the given type and its base name is `part(slot)` |
| `IRVariables.PartInjective` | libsolidity/codegen/ir/IRVariable.cpp:49-56 | two slots of one variable get the same name iff they are the same slot |
| `IRVariables.StackComponents` | libsolidity/codegen/ir/IRVariable.cpp:58-64 | the loop returns one name per slot name, in order: element k is `part(slotNames[k])`; the length is the number of slot names, which is the size on stack when the type keeps that link |
| `IRVariables.ComponentsDistinct` | libsolidity/codegen/ir/IRVariable.cpp:58-64 | distinct slot names give pairwise distinct stack components |
| `IRVariables.CommaSeparatedList` | libsolidity/codegen/ir/IRVariable.cpp:66-69 | calls `stackComponents()` and returns the join of exactly those names, in slot order, so the list depends on the variable only through them |
| `IRVariables.Name` | libsolidity/codegen/ir/IRVariable.cpp:71-79 | requires size on stack 1; the variable then has exactly one stack component, and the name is that component, i.e. `part(slotNames[0])` |
| `IRVariables.TupleComponent` | libsolidity/codegen/ir/IRVariable.cpp:81-88 | requires a tuple type, i below the number of components, a non-placeholder component and slot `component_<i+1>`; the result has the component's type and base name `base + "_component_" + decimal(i+1)` |
| `IRVariables.TupleComponentsDistinct` | libsolidity/codegen/ir/IRVariable.h:51-52 | different tuple components of one variable get different base names |
| `IRVariables.DeclarationComponentsDisjoint` | libsolidity/codegen/ir/IRVariable.cpp:27-64 | two local declarations with the same surface name and different ids share no stack component name |
| `IRVariables.PlainDeclarationComponentsDisjoint` | libsolidity/codegen/ir/IRVariable.cpp:27-64 | two local declarations with different ids, whatever their surface names, share no stack component name when every slot name is empty or a `_`-free, not purely numeric word |
| `IRVariables.PlainDerivedNamesDistinct` | libsolidity/codegen/ir/IRVariable.cpp:49-56 | with such plain slot names, a derived declaration name determines its base name, so different ids give different names |
| `IRVariables.DifferentSurfaceNamesCanClash` | libsolidity/codegen/ir/IRVariable.cpp:29 | without that condition, declarations with different surface names and ids can share a name: `x` (id 5) with slot `component_1` and `x_5_component` (id 1) with one unnamed slot both yield `vloc_x_5_component_1` (stated for every name and id) |
| `IRVariables.InnerNumberSlotCanClash` | libsolidity/codegen/ir/IRVariable.cpp:29 | a number inside a slot name can clash too: `x_3` (id 7) with slot `b` and `x` (id 3) with slot `7_b` both yield `vloc_x_3_7_b` (stated for every name, pair of ids and non-empty final word) |
| `IRVariables.OriginComponentsDisjoint` | libsolidity/codegen/ir/IRVariable.cpp:27-64 | no stack component name of a declaration is a stack component name of an expression |
| `Layout.Part` | libsolidity/codegen/ir/IRVariable.h:57-61 | requires the slot to be among the type's stack items; the result's base name is the base name for the empty slot and `base + "_" + slot` otherwise, and it is typed with the type of the first item of that name, which may itself span several slots (a one-slot scalar type for a leaf) |
| `Layout.Flatten` | libsolidity/codegen/ir/IRVariable.h:31-33 | the recursive flattening of a variable's stack items; every name it yields extends the variable's base name |
| `Layout.PartNames` | libsolidity/codegen/ir/IRVariable.h:57-61 | the names of the part for an item are exactly that item's names in the parent's flattening |
| `Layout.FlattenLength` | libsolidity/codegen/ir/IRVariable.h:31-33 | a variable has as many names as its type has scalar stack slots, counted recursively |
| `Layout.ItemNamesAt` | libsolidity/codegen/ir/IRVariable.h:31-33 | the names of item j form the contiguous run at offset (slots of the items before j) of every longer prefix's names |
| `Layout.Decomposition` | libsolidity/codegen/ir/IRVariable.h:31-33 | the names of `part(item k)` are the contiguous run of the variable's names that starts after the slots of items 0..k-1 |
| `Layout.FlattenIsConcatenationOfParts` | libsolidity/codegen/ir/IRVariable.h:31-33 | with unique item names, a multi-slot variable's names are the in-order concatenation of the names of its items' parts |
| `Layout.LeavesAgreeWithFlatModel` | libsolidity/codegen/ir/IRVariable.cpp:58-64 | when every item is a leaf, the recursive flattening equals the flat `stackComponents()` |
| `Layout.LeavesSize` | libsolidity/codegen/ir/IRVariable.h:32 | proof helper beside `Layout.LeavesAgreeWithFlatModel`: a layout of leaves occupies one slot per leaf |
| `Layout.SizeBeforeMonotone` | libsolidity/codegen/ir/IRVariable.h:33 | proof helper for `Layout.ItemNamesAt`: item offsets never decrease with the item index (an item with an empty sub-layout takes no slot) |

## Left out

- The type system is not modelled. `stackSlotNames()`, `sizeOnStack()` and `TupleType::components()` are fields of an abstract `Type`. `WellFormed` (size on stack equals the number of slot names) stands for the type system's own promise.
- `IRVariables.Name` requires `WellFormed`. The source reads `stackSlotNames().front()`, which exists only because the type keeps that link.
- AST nodes are not modelled. `VariableDeclaration` and `Expression` are records holding the id, the surface name, the state-variable flag and the annotated type.
- AST ids are modelled as `nat`: the compiler assigns them from a non-negative counter, so `to_string` never prints a sign.
- Global uniqueness of ids is left to the caller. It comes from the id-assigning machinery and is not checked here.
- IRVariables.CommaSeparatedList: `joinHumanReadable` (libsolutil/StringUtils.h) is not part of this model. The join is passed in as a function, so no particular separator is stated.
- Failed assertions (`solAssert`, `solUnimplementedAssert`) are not modelled as errors. They become `requires` clauses, and `dynamic_cast<TupleType const*>` becomes the `Tuple?` discriminator.
- The C++ reference lifetime of `m_type` is not modelled: the type is held by value.
- Determinism and immutability have no lemma of their own. Bindings are Dafny datatype values and every operation is a function, so equal `(type, baseName)` pairs give equal results and nothing can change a binding.
- IRVariables.DeclarationComponentsDisjoint: for different surface names, disjointness of derived names does not hold in general. A clash needs a slot name one of whose `_`-separated parts is a number: the last, as in `component_1` (`IRVariables.DifferentSurfaceNamesCanClash`), or an inner one, as in `7_b` (`IRVariables.InnerNumberSlotCanClash`). Disjointness is proved for equal surface names with any slot names, and for any surface names when every slot name is plain (`IRVariables.PlainDeclarationComponentsDisjoint`). The base names themselves are always distinct (`BaseNames.DeclarationBaseNameInjective`).
- Layout.Part: the header does not say how a terminal item is typed. A leaf part is typed as a one-slot scalar, so that its names are exactly that item's single name.
- The loop in `IRVariable.cpp:58-64` is flat and has no length assertion. `IRVariables.StackComponents` follows it; the recursive flattening that the header's class comment describes (`IRVariable.h:31-33`) is modelled separately in `layout.dfy`.
