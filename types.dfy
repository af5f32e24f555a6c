/**
 * The collaborators of an IR variable, stated abstractly: the Solidity type
 * (only the slot names and the stack size it reports, and the components of a
 * tuple type) and the two AST nodes a variable can be created from.
 */
module Types {
  import opened Wrappers

  /** A Solidity type as far as the IR variable queries it. A `Tuple` stands for `TupleType`;
      a `None` component is a placeholder (an omitted tuple member). */
  datatype Type =
    | Plain(slotNames: seq<string>, sizeOnStack: nat)
    | Tuple(slotNames: seq<string>, sizeOnStack: nat, components: seq<Option<Type>>)

  /** The link the type system promises between the size on stack and the slot names. */
  predicate WellFormed(t: Type) {
    t.sizeOnStack == |t.slotNames|
  }

  /** A `VariableDeclaration` reduced to what the IR variable reads from it. */
  datatype VariableDeclaration = VariableDeclaration(id: nat, name: string, isStateVariable: bool, ty: Type)

  /** An `Expression` reduced to its id and its annotated type. */
  datatype Expression = Expression(id: nat, ty: Type)
}
