/** Properties of the lowering pass: order and length preservation, field
    copying, the fixed placeholder initializer, the type decoder's prefix
    strip, and the inputs on which lowering fails. */
module RefinementLemmas {
  import opened Results
  import opened KotlinInt
  import opened Ast
  import Cst
  import opened Refinement

  /** `t.accept(this) as ASTItem` would not throw. */
  predicate LowersToItem(t: Cst.Tree) {
    Visit(t).Success? && AsItem(Visit(t).value).Success?
  }

  function File(xs: seq<Cst.Tree>): Cst.Tree {
    Cst.CcashFile(Some(Cst.ItemList(xs)))
  }

  lemma {:induction false} ItemsFrom(file: Cst.Tree, k: nat)
    requires file.CcashFile? && file.items.Some? && k <= |file.items.value.elements|
    ensures var xs := file.items.value.elements; var r := VisitItems(file, k);
      && (r.Success? <==> forall i :: k <= i < |xs| ==> LowersToItem(xs[i]))
      && (r.Success? ==> |r.value| == |xs| - k)
      && (r.Success? ==> forall i :: k <= i < |xs| ==> Visit(xs[i]) == Success(Some(r.value[i - k])) && IsItem(r.value[i - k]))
    decreases |file.items.value.elements| - k
  {
    var xs := file.items.value.elements;
    if k < |xs| {
      ItemsFrom(file, k + 1);
      var r := VisitItems(file, k);
      if r.Success? {
        forall i | k <= i < |xs|
          ensures Visit(xs[i]) == Success(Some(r.value[i - k])) && IsItem(r.value[i - k])
        {
          if i > k {
            assert r.value[i - k] == VisitItems(file, k + 1).value[i - (k + 1)];
          }
        }
      }
    }
  }

  /** Module lowering succeeds exactly when every item lowers to an item;
      the module then has one item per CST item, the i-th lowered from the
      i-th. */
  lemma ModuleOrderAndLength(xs: seq<Cst.Tree>)
    ensures Visit(File(xs)).Success? <==> forall i :: 0 <= i < |xs| ==> LowersToItem(xs[i])
    ensures Visit(File(xs)).Success? ==>
      && Visit(File(xs)).value.Some?
      && Visit(File(xs)).value.value.ASTModule?
      && |Visit(File(xs)).value.value.items| == |xs|
      && forall i :: 0 <= i < |xs| ==>
           Visit(xs[i]) == Success(Some(Visit(File(xs)).value.value.items[i]))
  {
    FileUnfold(xs);
    ItemsFrom(File(xs), 0);
  }

  /** One step of `Visit` on a file with an item list. */
  lemma FileUnfold(xs: seq<Cst.Tree>)
    ensures Visit(File(xs)) ==
      (if VisitItems(File(xs), 0).Success? then Success(Some(ASTModule(VisitItems(File(xs), 0).value))) else Failure)
  {
  }

  /** A file whose item list is null fails; an empty one gives an empty module. */
  lemma ModuleEdgeCases()
    ensures Visit(Cst.CcashFile(None)) == Failure
    ensures Visit(File([])) == Success(Some(ASTModule([])))
  {
  }

  /** An identifier expression is not an item, so a file holding one fails
      at the `as ASTItem` cast, and so does a file holding a bare type. */
  lemma NonItemsRejected(x: string, t: Cst.TypeCtx)
    ensures Visit(File([Cst.PrimaryExpression(Some(x))])) == Failure
    ensures Visit(File([Cst.Type(t)])) == Failure
  {
    ItemsFrom(File([Cst.PrimaryExpression(Some(x))]), 0);
    ItemsFrom(File([Cst.Type(t)]), 0);
  }

  /** A file is an item, so a file inside a file lowers to a nested module. */
  lemma NestedModule(xs: seq<Cst.Tree>)
    requires Visit(File(xs)).Success?
    ensures Visit(File([File(xs)])) == Success(Some(ASTModule([Visit(File(xs)).value.value])))
  {
    ModuleOrderAndLength(xs);
    ModuleOrderAndLength([File(xs)]);
    var r := Visit(File([File(xs)]));
    assert LowersToItem(File(xs));
    assert r.value.value.items == [Visit(File(xs)).value.value];
  }

  /** Function lowering succeeds exactly when the identifier, the parameter
      list, every parameter, the return type and the body lower; the result
      copies the identifier, keeps one parameter per CST parameter in order,
      and holds the lowered return type and body. */
  lemma FunctionFieldCopying(
    id: Option<string>, ps: Option<seq<Cst.FunctionValueParamCtx>>,
    rt: Option<Cst.TypeCtx>, body: Option<Cst.Tree>)
    ensures var r := Visit(Cst.FunctionDeclaration(id, ps, rt, body));
      r.Success? <==>
        && id.Some? && ps.Some?
        && (forall i :: 0 <= i < |ps.value| ==> VisitFunctionValueParam(ps.value[i]).Success?)
        && rt.Some? && VisitType(rt.value).Success? && VisitType(rt.value).value.Some?
        && body.Some? && Visit(body.value).Success? && Visit(body.value).value.Some?
    ensures var r := Visit(Cst.FunctionDeclaration(id, ps, rt, body));
      r.Success? ==>
        && r.value.Some? && r.value.value.FunctionDefinition?
        && r.value.value.name == id.value
        && |r.value.value.parameters| == |ps.value|
        && (forall i :: 0 <= i < |ps.value| ==>
              r.value.value.parameters[i] == VisitFunctionValueParam(ps.value[i]).value)
        && VisitType(rt.value) == Success(Some(r.value.value.returnType))
        && Visit(body.value) == Success(Some(r.value.value.body))
  {
  }

  /** Each missing field of a function declaration, or a return type with no
      literal, makes lowering fail rather than yield a partial node. */
  lemma FunctionMissingFields(
    id: Option<string>, ps: Option<seq<Cst.FunctionValueParamCtx>>,
    rt: Option<Cst.TypeCtx>, body: Option<Cst.Tree>)
    requires id.None? || ps.None? || rt.None? || rt == Some(Cst.NoTypeLiteral) || body.None?
    ensures Visit(Cst.FunctionDeclaration(id, ps, rt, body)) == Failure
  {
  }

  /** A parameter without identifier or type, or whose type has no literal,
      fails; so does a value parameter without its parameter. */
  lemma ParameterMissingFields(id: Option<string>, t: Option<Cst.TypeCtx>, d: Option<Cst.Tree>)
    requires id.None? || t.None? || t == Some(Cst.NoTypeLiteral)
    ensures VisitParameter(Cst.ParameterCtx(id, t)) == Failure
    ensures VisitFunctionValueParam(Cst.FunctionValueParamCtx(Some(Cst.ParameterCtx(id, t)), d)) == Failure
    ensures VisitFunctionValueParam(Cst.FunctionValueParamCtx(None, d)) == Failure
  {
  }

  /** Every value parameter carries the inner parameter's name and type and
      the initializer `IntType(32)`, whatever default-value clause the CST
      holds: the clause does not influence the result at all. */
  lemma ValueParameterIgnoresDefault(name: string, t: Cst.TypeCtx, d1: Option<Cst.Tree>, d2: Option<Cst.Tree>)
    ensures var p := Cst.ParameterCtx(Some(name), Some(t));
      VisitFunctionValueParam(Cst.FunctionValueParamCtx(Some(p), d1))
        == VisitFunctionValueParam(Cst.FunctionValueParamCtx(Some(p), d2))
    ensures var p := Cst.ParameterCtx(Some(name), Some(t));
      var r := VisitFunctionValueParam(Cst.FunctionValueParamCtx(Some(p), d1));
      r.Success? ==> (r.value.base.name == name && r.value.initializer == TypeNode(IntType(32))
                      && VisitType(t) == Success(Some(r.value.base.typ)))
  {
  }

  /** A primary expression lowers to the identifier expression of its text;
      a missing identifier fails. */
  lemma PrimaryExpressionLowering(x: string)
    ensures Visit(Cst.PrimaryExpression(Some(x))) == Success(Some(IdentExpression(x)))
    ensures Visit(Cst.PrimaryExpression(None)) == Failure
  {
  }

  /** `int` followed by the decimal spelling of any 32-bit value `w`
      decodes to `IntType(w)`; the three prefix characters are not
      inspected. Zero and negative widths pass; widths outside the 32-bit
      range fail. */
  lemma IntWidthDecoded(prefix: string, w: int)
    requires |prefix| == IntPrefixLength
    ensures VisitType(Cst.IntTypeLiteral(prefix + Show(w)))
      == (if InIntRange(w) then Success(Some(IntType(w))) else Failure)
  {
    assert (prefix + Show(w))[IntPrefixLength..] == Show(w);
    ToIntOrNullOfShow(w);
  }

  /** A float token with a numeric remainder decodes its width and yields no
      type; one with a remainder out of range fails. */
  lemma FloatWidthDiscarded(prefix: string, w: int)
    requires |prefix| == FloatPrefixLength
    ensures VisitType(Cst.FloatTypeLiteral(prefix + Show(w)))
      == (if InIntRange(w) then Success(None) else Failure)
  {
    assert (prefix + Show(w))[FloatPrefixLength..] == Show(w);
    ToIntOrNullOfShow(w);
  }

  /** A token no longer than its prefix leaves an empty or impossible
      remainder and fails; so does a remainder with a non-digit after the
      optional sign. */
  lemma MalformedTokensFail(text: string, i: nat)
    ensures |text| <= IntPrefixLength ==> VisitType(Cst.IntTypeLiteral(text)) == Failure
    ensures |text| <= FloatPrefixLength ==> VisitType(Cst.FloatTypeLiteral(text)) == Failure
    ensures IntPrefixLength <= i < |text| && !IsDigit(text[i]) && !(i == IntPrefixLength && IsSign(text[i]))
      ==> VisitType(Cst.IntTypeLiteral(text)) == Failure
    ensures FloatPrefixLength <= i < |text| && !IsDigit(text[i]) && !(i == FloatPrefixLength && IsSign(text[i]))
      ==> VisitType(Cst.FloatTypeLiteral(text)) == Failure
  {
  }

  /** Since a float literal never yields a type, any function whose return
      type is a float literal fails, and so does any function with a
      float-typed parameter. */
  lemma FloatTypedFunctionsFail(
    id: Option<string>, ps: seq<Cst.FunctionValueParamCtx>, text: string,
    rt: Option<Cst.TypeCtx>, body: Option<Cst.Tree>, name: Option<string>, d: Option<Cst.Tree>, k: nat)
    requires k <= |ps|
    ensures Visit(Cst.FunctionDeclaration(id, Some(ps), Some(Cst.FloatTypeLiteral(text)), body)) == Failure
    ensures var floatParam := Cst.FunctionValueParamCtx(Some(Cst.ParameterCtx(name, Some(Cst.FloatTypeLiteral(text)))), d);
      Visit(Cst.FunctionDeclaration(id, Some(ps[..k] + [floatParam] + ps[k..]), rt, body)) == Failure
  {
    var floatParam := Cst.FunctionValueParamCtx(Some(Cst.ParameterCtx(name, Some(Cst.FloatTypeLiteral(text)))), d);
    var all := ps[..k] + [floatParam] + ps[k..];
    assert all[k] == floatParam;
    FunctionFieldCopying(id, Some(all), rt, body);
  }

  lemma {:induction false} ItemsWellTyped(file: Cst.Tree, k: nat)
    requires file.CcashFile? && file.items.Some? && k <= |file.items.value.elements|
    requires VisitItems(file, k).Success?
    ensures forall i :: 0 <= i < |VisitItems(file, k).value| ==>
      IsItem(VisitItems(file, k).value[i]) && WellTyped(VisitItems(file, k).value[i])
    decreases file, 0, |file.items.value.elements| - k
  {
    var xs := file.items.value.elements;
    if k < |xs| {
      LoweringWellTyped(xs[k]);
      ItemsWellTyped(file, k + 1);
      var r := VisitItems(file, k);
      forall i | 0 <= i < |r.value|
        ensures IsItem(r.value[i]) && WellTyped(r.value[i])
      {
        if i > 0 {
          assert r.value[i] == VisitItems(file, k + 1).value[i - 1];
        }
      }
    }
  }

  /** Whatever lowering builds respects the field types the Kotlin classes
      declare: module items are `ASTItem`s at every depth. */
  lemma {:induction false} LoweringWellTyped(t: Cst.Tree)
    requires Visit(t).Success? && Visit(t).value.Some?
    ensures WellTyped(Visit(t).value.value)
    decreases t, 1, 0
  {
    match t
    case CcashFile(items) =>
      ItemsWellTyped(t, 0);
    case FunctionDeclaration(_, _, _, body) =>
      LoweringWellTyped(body.value);
    case _ =>
  }

  /** Type tokens as the grammar spells them. */
  lemma DecoderExamples()
    ensures VisitType(Cst.IntTypeLiteral("int32")) == Success(Some(IntType(32)))
    ensures VisitType(Cst.IntTypeLiteral("int8")) == Success(Some(IntType(8)))
    ensures VisitType(Cst.IntTypeLiteral("int0")) == Success(Some(IntType(0)))
    ensures VisitType(Cst.IntTypeLiteral("int-8")) == Success(Some(IntType(-8)))
    ensures VisitType(Cst.IntTypeLiteral("intABC")) == Failure
    ensures VisitType(Cst.IntTypeLiteral("int")) == Failure
    ensures VisitType(Cst.FloatTypeLiteral("float64")) == Success(None)
  {
    IntWidthDecoded("int", 32);
    assert "int" + Show(32) == "int32";
    IntWidthDecoded("int", 8);
    assert "int" + Show(8) == "int8";
    IntWidthDecoded("int", 0);
    assert "int" + Show(0) == "int0";
    IntWidthDecoded("int", -8);
    assert "int" + Show(-8) == "int-8";
    MalformedTokensFail("intABC", 3);
    FloatWidthDiscarded("float", 64);
    assert "float" + Show(64) == "float64";
  }

  /** Spellings `toInt` accepts beyond plain digits: leading zeros, a
      negative zero and an explicit `+`. */
  lemma SignAndZeroExamples()
    ensures VisitType(Cst.IntTypeLiteral("int007")) == Success(Some(IntType(7)))
    ensures VisitType(Cst.IntTypeLiteral("int-0")) == Success(Some(IntType(0)))
    ensures VisitType(Cst.IntTypeLiteral("int+8")) == Success(Some(IntType(8)))
  {
    assert ToIntOrNull("007") == Some(7) by {
      ToIntOrNullOfShow(7);
      assert Show(7) == "7";
      ToIntOrNullLeadingZero("7");
      ToIntOrNullLeadingZero("07");
      assert "0" + "7" == "07" && "0" + "07" == "007";
    }
    assert "int007"[IntPrefixLength..] == "007";
    assert ToIntOrNull("-0") == Some(0) by {
      ToIntOrNullAccepts("-0");
      assert "-0"[1..] == "0";
      assert DecimalValue("0") == 0;
    }
    assert "int-0"[IntPrefixLength..] == "-0";
    assert ToIntOrNull("+8") == Some(8) by {
      ToIntOrNullOfPlusShow(8);
      assert ShowNat(8) == "8";
      assert "+" + "8" == "+8";
    }
    assert "int+8"[IntPrefixLength..] == "+8";
  }

  /** `func hello(a: int32) -> int32 = a` lowers to a module holding one
      function whose single parameter carries the placeholder initializer. */
  lemma HelloExample()
    ensures
      var a := Cst.FunctionValueParamCtx(Some(Cst.ParameterCtx(Some("a"), Some(Cst.IntTypeLiteral("int32")))), None);
      var hello := Cst.FunctionDeclaration(Some("hello"), Some([a]), Some(Cst.IntTypeLiteral("int32")),
                                           Some(Cst.PrimaryExpression(Some("a"))));
      Visit(File([hello])) == Success(Some(ASTModule([
        FunctionDefinition("hello", [ValueParameter(Parameter("a", IntType(32)), TypeNode(IntType(32)))],
                           IntType(32), IdentExpression("a"))])))
  {
    DecoderExamples();
    var a := Cst.FunctionValueParamCtx(Some(Cst.ParameterCtx(Some("a"), Some(Cst.IntTypeLiteral("int32")))), None);
    var hello := Cst.FunctionDeclaration(Some("hello"), Some([a]), Some(Cst.IntTypeLiteral("int32")),
                                         Some(Cst.PrimaryExpression(Some("a"))));
    var vp := ValueParameter(Parameter("a", IntType(32)), TypeNode(IntType(32)));
    assert VisitFunctionValueParam(a) == Success(vp);
    var lowered := VisitValueParams([a]);
    assert lowered.Success?;
    assert |lowered.value| == 1 && lowered.value[0] == vp;
    assert lowered.value == [vp];
    FunctionFieldCopying(Some("hello"), Some([a]), Some(Cst.IntTypeLiteral("int32")), Some(Cst.PrimaryExpression(Some("a"))));
    assert Visit(hello) == Success(Some(FunctionDefinition("hello", [vp], IntType(32), IdentExpression("a"))));
    ModuleOrderAndLength([hello]);
    var r := Visit(File([hello]));
    assert LowersToItem(hello);
    assert r.value.value.items == [Visit(hello).value.value];
  }
}
