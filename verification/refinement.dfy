/** The CST-to-AST lowering pass of Refinement.kt, one function per
    overridden `visit…` method, plus `Visit` for the parser's `accept`
    dispatch. Each visit returns `Failure` where the Kotlin code throws,
    `Success(None)` where it returns null, and `Success(Some(n))` where it
    returns the node `n`. */
module Refinement {
  import opened Results
  import opened KotlinInt
  import opened Ast
  import Cst

  /** Characters stripped from an integer type token (`int`). */
  const IntPrefixLength: nat := 3

  /** Characters stripped from a float type token (`float`). */
  const FloatPrefixLength: nat := 5

  /** The initializer every value parameter receives, whatever the CST holds. */
  const PlaceholderInitializer: Node := TypeNode(IntType(32))

  /** Kotlin's `s.substring(start)`: throws when `start` is past the end. */
  function Substring(s: string, start: nat): (r: Result<string>)
    ensures r.Success? <==> start <= |s|
    ensures r.Success? ==> s == s[..start] + r.value
  {
    if start <= |s| then Success(s[start..]) else Failure
  }

  /** Kotlin's `s.toInt()`: throws NumberFormatException when `s` does not
      spell a 32-bit integer. */
  function ToInt(s: string): (r: Result<int>)
    ensures r.Success? <==> ToIntOrNull(s).Some?
    ensures r.Success? ==> ToIntOrNull(s) == Some(r.value) && InIntRange(r.value)
  {
    NonNull(ToIntOrNull(s))
  }

  /** The text following a fixed-length prefix, read as a width. */
  function DecodeWidth(text: string, prefixLength: nat): (r: Result<int>)
    ensures r.Success? <==> prefixLength <= |text| && ToIntOrNull(text[prefixLength..]).Some?
    ensures r.Success? ==> r.value == ToIntOrNull(text[prefixLength..]).value && InIntRange(r.value)
  {
    var digits :- Substring(text, prefixLength);
    ToInt(digits)
  }

  /** `visitType`: an integer literal decodes to `IntType(width)`; a float
      literal decodes its width and then yields null; no literal yields null. */
  function VisitType(t: Cst.TypeCtx): (r: Result<Option<AstType>>)
    ensures r.Success? && r.value.Some? ==> t.IntTypeLiteral? && r.value.value.IntType?
    ensures t.IntTypeLiteral? ==>
      (r.Success? <==> DecodeWidth(t.text, IntPrefixLength).Success?) &&
      (r.Success? ==> r.value == Some(IntType(DecodeWidth(t.text, IntPrefixLength).value)))
    ensures t.FloatTypeLiteral? ==>
      (r.Success? <==> DecodeWidth(t.text, FloatPrefixLength).Success?) &&
      (r.Success? ==> r.value.None?)
    ensures t.NoTypeLiteral? ==> r == Success(None)
  {
    match t
    case IntTypeLiteral(text) =>
      var width :- DecodeWidth(text, IntPrefixLength);
      Success(Some(IntType(width)))
    case FloatTypeLiteral(text) =>
      var width :- DecodeWidth(text, FloatPrefixLength);
      Success(None)
    case NoTypeLiteral =>
      Success(None)
  }

  /** Lowering a type child and casting it to `ASTType`: an absent type
      node, or one that lowers to null, throws. */
  function LowerType(t: Option<Cst.TypeCtx>): (r: Result<AstType>)
    ensures r.Success? <==> t.Some? && VisitType(t.value).Success? && VisitType(t.value).value.Some?
    ensures r.Success? ==> VisitType(t.value).value == Some(r.value) && r.value.IntType?
  {
    var ctx :- NonNull(t);
    var ty :- VisitType(ctx);
    NonNull(ty)
  }

  /** `visitParameter`: the identifier's text and the lowered type. */
  function VisitParameter(p: Cst.ParameterCtx): (r: Result<Parameter>)
    ensures r.Success? <==> p.identifier.Some? && LowerType(p.typ).Success?
    ensures r.Success? ==> r.value.name == p.identifier.value && r.value.typ == LowerType(p.typ).value
  {
    var name :- NonNull(p.identifier);
    var ty :- LowerType(p.typ);
    Success(Parameter(name, ty))
  }

  /** `visitFunctionValueParam`: the lowered parameter, re-wrapped as a
      `ValueParameter` whose initializer is always `IntType(32)`. The
      default-value clause is never looked at. */
  function VisitFunctionValueParam(c: Cst.FunctionValueParamCtx): (r: Result<ValueParameter>)
    ensures r.Success? <==> c.parameter.Some? && VisitParameter(c.parameter.value).Success?
    ensures r.Success? ==> r.value.base == VisitParameter(c.parameter.value).value
    ensures r.Success? ==> r.value.initializer == TypeNode(IntType(32))
  {
    var ctx :- NonNull(c.parameter);
    var param :- VisitParameter(ctx);
    Success(ValueParameter(Parameter(param.name, param.typ), PlaceholderInitializer))
  }

  /** Lowers every value parameter of a declaration, in order, and casts
      each to `ValueParameter`, failing if any one fails. */
  function VisitValueParams(ps: seq<Cst.FunctionValueParamCtx>): (r: Result<seq<ValueParameter>>)
    ensures r.Success? <==> forall i :: 0 <= i < |ps| ==> VisitFunctionValueParam(ps[i]).Success?
    ensures r.Success? ==> |r.value| == |ps|
    ensures r.Success? ==> forall i :: 0 <= i < |ps| ==> r.value[i] == VisitFunctionValueParam(ps[i]).value
  {
    if |ps| == 0 then Success([])
    else
      var first :- VisitFunctionValueParam(ps[0]);
      var rest :- VisitValueParams(ps[1..]);
      Success([first] + rest)
  }

  /** `visitPrimaryExpression`: the identifier's text as an `IdentExpression`. */
  function VisitPrimaryExpression(identifier: Option<string>): (r: Result<Node>)
    ensures r.Success? <==> identifier.Some?
    ensures r.Success? ==> r.value == IdentExpression(identifier.value) && IsExpr(r.value)
  {
    var name :- NonNull(identifier);
    Success(IdentExpression(name))
  }

  /** `x as ASTItem`: null, or a node that is not an item, throws. */
  function AsItem(x: Option<Node>): (r: Result<Node>)
    ensures r.Success? <==> x.Some? && IsItem(x.value)
    ensures r.Success? ==> r.value == x.value
  {
    var n :- NonNull(x);
    if IsItem(n) then Success(n) else Failure
  }

  /** `node.accept(this)`: dispatch on the kind of CST node. */
  function Visit(t: Cst.Tree): (r: Result<Option<Node>>)
    ensures r.Success? && r.value.None? ==> t.Type?
    ensures r.Success? && r.value.Some? ==> (IsItem(r.value.value) <==> t.CcashFile? || t.FunctionDeclaration?)
    decreases t, 2, 0
  {
    match t
    case CcashFile(_) =>
      var m :- VisitCcashFile(t);
      Success(Some(m))
    case FunctionDeclaration(_, _, _, _) =>
      var f :- VisitFunctionDeclaration(t);
      Success(Some(f))
    case FunctionValueParam(c) =>
      var vp :- VisitFunctionValueParam(c);
      Success(Some(ValueParameterNode(vp)))
    case Parameter(p) =>
      var param :- VisitParameter(p);
      Success(Some(ParameterNode(param)))
    case PrimaryExpression(identifier) =>
      var e :- VisitPrimaryExpression(identifier);
      Success(Some(e))
    case Type(c) =>
      var ty :- VisitType(c);
      Success(if ty.Some? then Some(TypeNode(ty.value)) else None)
  }

  /** `visitCcashFile`: every item lowered and cast to `ASTItem`, in order. */
  function VisitCcashFile(file: Cst.Tree): (r: Result<Node>)
    requires file.CcashFile?
    ensures r.Success? ==> r.value.ASTModule? && file.items.Some?
    ensures r.Success? ==> |r.value.items| == |file.items.value.elements|
    decreases file, 1, 0
  {
    var list :- NonNull(file.items);
    var lowered :- VisitItems(file, 0);
    Success(ASTModule(lowered))
  }

  /** Lowers the items of a file from the `k`-th on, in order, casting each
      to `ASTItem`. */
  function VisitItems(file: Cst.Tree, k: nat): (r: Result<seq<Node>>)
    requires file.CcashFile? && file.items.Some? && k <= |file.items.value.elements|
    ensures r.Success? ==> |r.value| == |file.items.value.elements| - k
    ensures r.Success? ==> forall i :: 0 <= i < |r.value| ==> IsItem(r.value[i])
    decreases file, 0, |file.items.value.elements| - k
  {
    var xs := file.items.value.elements;
    if k == |xs| then Success([])
    else
      var lowered :- Visit(xs[k]);
      var item :- AsItem(lowered);
      var rest :- VisitItems(file, k + 1);
      Success([item] + rest)
  }

  /** `visitFunctionDeclaration`: name, parameters, return type and body,
      each required. */
  function VisitFunctionDeclaration(decl: Cst.Tree): (r: Result<Node>)
    requires decl.FunctionDeclaration?
    ensures r.Success? ==> r.value.FunctionDefinition?
    ensures r.Success? ==> decl.identifier == Some(r.value.name) && r.value.returnType.IntType?
    ensures r.Success? ==> decl.valueParameters.Some? && |r.value.parameters| == |decl.valueParameters.value|
    decreases decl, 1, 0
  {
    var name :- NonNull(decl.identifier);
    var ps :- NonNull(decl.valueParameters);
    var params :- VisitValueParams(ps);
    var ty :- LowerType(decl.returnType);
    var bodyCtx :- NonNull(decl.body);
    var lowered :- Visit(bodyCtx);
    var bodyNode :- NonNull(lowered);
    Success(FunctionDefinition(name, params, ty, bodyNode))
  }
}
