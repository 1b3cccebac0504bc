/** The AST node vocabulary of AST.kt and Functions.kt.

    Kotlin expresses the node categories as marker interfaces
    (`ASTNode`, `ASTItem`, `ASTExpr`, `ASTStmt`) and the nodes as classes
    implementing them. Here the nodes form one closed datatype `Node`, and
    the interfaces become the values of `Category`, with `Categories(n)`
    giving every interface the class of `n` implements. The types `ASTType`,
    `IntType`, `FloatType` and `IdentExpression` are referenced by the
    lowering pass but defined elsewhere; they get minimal definitions. */
module Ast {

  /** The marker interfaces of AST.kt. */
  datatype Category = ASTNode | ASTItem | ASTExpr | ASTStmt

  /** `a` is `b` or a sub-interface of it: `ASTItem` and `ASTExpr` extend
      `ASTNode`, and `ASTStmt` extends `ASTExpr`. */
  function Refines(a: Category, b: Category): (r: bool)
    ensures a == b ==> r
    ensures b == ASTNode ==> r
    ensures a == ASTNode ==> (r <==> b == ASTNode)
    ensures a == ASTStmt && b == ASTExpr ==> r
    ensures {a, b} == {ASTItem, ASTExpr} ==> !r
    ensures b == ASTStmt ==> (r <==> a == ASTStmt)
  {
    a == b || b == ASTNode || (a == ASTStmt && b == ASTExpr)
  }

  /** Semantic types. The lowering pass only ever builds `IntType`; the
      width is whatever the decoder produced, unchecked. */
  datatype AstType = IntType(width: int) | FloatType(width: int)

  /** `Parameter(name, type)`: one name and one type. */
  datatype Parameter = Parameter(name: string, typ: AstType)

  /** `ValueParameter(name, type, initializer) : Parameter(name, type)`: the
      `Parameter` base object and the initializer. */
  datatype ValueParameter = ValueParameter(base: Parameter, initializer: Node)

  /** Every class implementing `ASTNode` that the lowering pass can build. */
  datatype Node =
    | ASTModule(items: seq<Node>)
    | FunctionDefinition(name: string, parameters: seq<ValueParameter>, returnType: AstType, body: Node)
    | ParameterNode(parameter: Parameter)
    | ValueParameterNode(valueParameter: ValueParameter)
    | TypeNode(ty: AstType)
    | IdentExpression(name: string)

  /** The interfaces the class of `n` implements, directly or inherited. */
  function Categories(n: Node): (cs: set<Category>)
    ensures ASTNode in cs
    ensures forall a, b :: a in cs && Refines(a, b) ==> b in cs
    ensures ASTItem in cs <==> n.ASTModule? || n.FunctionDefinition?
    ensures ASTExpr in cs <==> n.IdentExpression?
    ensures ASTStmt !in cs
  {
    match n
    case ASTModule(_) => {ASTNode, ASTItem}
    case FunctionDefinition(_, _, _, _) => {ASTNode, ASTItem}
    case IdentExpression(_) => {ASTNode, ASTExpr}
    case _ => {ASTNode}
  }

  /** Kotlin's `n is ASTItem`. */
  predicate IsItem(n: Node) {
    ASTItem in Categories(n)
  }

  /** Kotlin's `n is ASTExpr`. */
  predicate IsExpr(n: Node) {
    ASTExpr in Categories(n)
  }

  /** The field types Kotlin enforces statically: `ASTModule.items` holds
      only `ASTItem`s, all the way down. */
  function WellTyped(n: Node): (r: bool)
    ensures r && n.ASTModule? ==> forall i :: 0 <= i < |n.items| ==> IsItem(n.items[i])
    ensures r && n.FunctionDefinition? ==> WellTyped(n.body)
    ensures n.ParameterNode? || n.TypeNode? || n.IdentExpression? ==> r
  {
    match n
    case ASTModule(items) =>
      forall i :: 0 <= i < |items| ==> IsItem(items[i]) && WellTyped(items[i])
    case FunctionDefinition(_, parameters, _, body) =>
      WellTyped(body) && forall i :: 0 <= i < |parameters| ==> WellTyped(parameters[i].initializer)
    case ValueParameterNode(vp) => WellTyped(vp.initializer)
    case _ => true
  }

  /** The interface hierarchy is a partial order with `ASTNode` on top. */
  lemma RefinesIsPartialOrder(a: Category, b: Category, c: Category)
    ensures Refines(a, a)
    ensures Refines(a, b) && Refines(b, a) ==> a == b
    ensures Refines(a, b) && Refines(b, c) ==> Refines(a, c)
    ensures Refines(a, ASTNode)
  {
  }

  /** Every statement is an expression; items and expressions are separate
      branches below `ASTNode`. */
  lemma CategoryHierarchy()
    ensures Refines(ASTStmt, ASTExpr)
    ensures Refines(ASTItem, ASTNode) && Refines(ASTExpr, ASTNode)
    ensures !Refines(ASTItem, ASTExpr) && !Refines(ASTExpr, ASTItem)
    ensures !Refines(ASTStmt, ASTItem)
  {
  }

  /** A node implementing an interface implements everything that
      interface extends. */
  lemma CategoriesUpwardClosed(n: Node, a: Category, b: Category)
    requires a in Categories(n) && Refines(a, b)
    ensures b in Categories(n)
  {
  }

  /** Modules and function definitions are items, so both may sit in a
      module's item list; a module may therefore contain modules. */
  lemma ModulesAndFunctionsAreItems(items: seq<Node>, name: string, ps: seq<ValueParameter>, t: AstType, body: Node)
    ensures IsItem(ASTModule(items))
    ensures IsItem(FunctionDefinition(name, ps, t, body))
    ensures WellTyped(ASTModule(items)) ==> WellTyped(ASTModule([ASTModule(items)]))
    ensures !IsItem(IdentExpression(name)) && IsExpr(IdentExpression(name))
  {
  }
}
