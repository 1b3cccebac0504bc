/** The concrete syntax tree the parser hands to the lowering pass: one
    constructor per parser context class that the pass visits. Every child
    the parser's accessors may return as null is an `Option`. Constructor
    names follow the parser's context classes.

    Children whose accessor has a fixed context type (the parameter list,
    a parameter, a type) are typed fields. Module items and function bodies
    reach the visitor through the parser's default child dispatch, so they
    are an arbitrary `Tree`. */
module Cst {
  import opened Results

  /** `type`: an integer-width literal such as `int32`, a float-width
      literal such as `float64`, or neither. */
  datatype TypeCtx =
    | IntTypeLiteral(text: string)
    | FloatTypeLiteral(text: string)
    | NoTypeLiteral

  /** `parameter`: `Identifier ':' type`. */
  datatype ParameterCtx = ParameterCtx(identifier: Option<string>, typ: Option<TypeCtx>)

  /** `functionValueParam`: a parameter with an optional default-value clause. */
  datatype FunctionValueParamCtx = FunctionValueParamCtx(parameter: Option<ParameterCtx>, defaultValue: Option<Tree>)

  /** The list `item()` returns. */
  datatype ItemList = ItemList(elements: seq<Tree>)

  datatype Tree =
    | CcashFile(items: Option<ItemList>)
    | FunctionDeclaration(
        identifier: Option<string>,
        valueParameters: Option<seq<FunctionValueParamCtx>>,
        returnType: Option<TypeCtx>,
        body: Option<Tree>)
    | FunctionValueParam(valueParam: FunctionValueParamCtx)
    | Parameter(parameter: ParameterCtx)
    | PrimaryExpression(identifier: Option<string>)
    | Type(typeCtx: TypeCtx)
}
