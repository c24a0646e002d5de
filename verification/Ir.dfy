/** Values shared by the stages of the SSA compiler: syntax trees, statements and blocks.
    A block pointer is the block's Index, its position in CFG::BasicBlocks. */
module Ir {
  import opened Common

  datatype Symbol = Symbol(name: string, ssaIndex: int)

  datatype ASTNode =
    | ASTNumber(value: int)
    | ASTSymbol(symbol: Symbol)
    | ASTAssign(varExp: Symbol, expr: ASTNode)
    | ASTIf(conditionExp: ASTNode, thenExp: ASTNode, elseExp: ASTNode)
    | ASTFor(index: Symbol, start: ASTNode, end: ASTNode, step: ASTNode, body: ASTNode)
    | ASTBinary(op: char, lhs: ASTNode, rhs: ASTNode)

  /** `IRBranch` without a condition is an unconditional jump to `first` and has no second target. */
  datatype IRNode =
    | IRAssignment(variable: Symbol, rhs: ASTNode)
    | IRBranch(condition: Option<ASTNode>, first: nat, second: Option<nat>)
    | IRPhiNode(variable: Symbol, blockToVarMap: map<nat, Symbol>)

  datatype CFGBlock = CFGBlock(
    blockLabel: string,
    statements: seq<IRNode>,
    succs: seq<nat>,
    preds: seq<nat>,
    dominator: Option<nat>,
    dominatingBlocks: seq<nat>)
}
