# ccash refinement pass, modelled in Dafny

This project models the front end of the ccash compiler. That front end
lowers the parser's concrete syntax tree (CST) into the compiler's abstract
syntax tree (AST). This lowering is called "refinement". The model covers:

- the AST vocabulary: the marker interfaces `ASTNode`, `ASTItem`, `ASTExpr`
  and `ASTStmt`, the `ASTModule` class, and the `Parameter`,
  `ValueParameter` and `FunctionDefinition` classes;
- the visitor in `Refinement.kt`. It lowers a file to an `ASTModule`, a
  function declaration to a `FunctionDefinition`, a value parameter to a
  `ValueParameter`, and a primary expression to an `IdentExpression`. It
  also decodes type tokens such as `int32` by removing a fixed-length
  prefix.

Files:

- `results.dfy` (`Results`): `Option` stands for a Kotlin nullable value.
  `Result` stands for "returns a value or throws". `NonNull` models `!!` and
  `as T` when `T` is a non-null type.
- `kotlin_int.dfy` (`KotlinInt`): Kotlin's radix-10 `String.toInt()`. It
  accepts an optional sign, at least one ASCII digit, and a value inside
  the 32-bit range. The module also has a decimal renderer `Show`, and
  lemmas proving that parsing undoes rendering.
- `ast.dfy` (`Ast`): the node datatype `Node`. The Kotlin interfaces
  become the values of the `Category` datatype. `Categories(n)` gives the
  interfaces that the class of `n` implements.
- `cst.dfy` (`Cst`): a closed CST datatype. It has one constructor per
  parser context class that the visitor overrides. A child that a parser
  accessor can return as null is an `Option`.
- `refinement.dfy` (`Refinement`): one function per `visit…` method. It
  also has `Visit`, which models the parser's `accept` dispatch.
- `refinement_lemmas.dfy` (`RefinementLemmas`): properties that relate
  several calls. These cover order and length, field copying, the type
  decoder, failure cases, well-typedness, and the `hello` example from
  `Main.kt`.

Every visit returns one of three outcomes:

- `Failure` where the Kotlin code would throw. NullPointerException,
  ClassCastException, NumberFormatException and
  StringIndexOutOfBoundsException all collapse into this one outcome.
- `Success(None)` where the Kotlin code returns null.
- `Success(Some(n))` where it returns the node `n`.

The model follows the code as written. Some behaviour of the code is
worth pointing out:

- The decoder rejects neither zero nor negative widths: `int0` gives
  `IntType(0)` and `int-8` gives `IntType(-8)`. It never checks the prefix
  itself; it removes the first three characters (Kotlin counts them in
  UTF-16 code units, see "## Left out").
- A float token's width is decoded and thrown away, and `visitType`
  returns null. So a function or parameter whose type is a float literal
  always fails at the `as ASTType` cast, and the model never builds a
  `FloatType`.
- Every `ValueParameter` gets `IntType(32)` as its initializer; the code
  marks this with a `TODO` comment at `Refinement.kt` line 24, and never
  reads the CST's default-value clause.
- The pass stops at the first exception. The model has a single
  `Failure` with no payload.

Some Kotlin classes become datatypes. `ValueParameter` holds its
`Parameter` base object as the field `base`, next to its `initializer`,
so Kotlin's superclass call `: Parameter(name, type)` is part of its
structure. `FunctionDefinition.parameters` has type `seq<ValueParameter>`,
as in the Kotlin declaration. Kotlin also guarantees statically that
`ASTModule.items` holds only `ASTItem`s. In the model this guarantee is
the `WellTyped` predicate, and `LoweringWellTyped` proves that lowering
output satisfies it.

## Model

| member | source | states |
|---|---|---|
| `KotlinInt.ToIntOrNull` | src/main/kotlin/passes/Refinement.kt:36 | the width parser rejects the empty string and any non-digit other than a leading sign, returns only values inside the 32-bit range, and a success carries the signed decimal value of the digits |
| `KotlinInt.ToIntOrNullAccepts` | src/main/kotlin/passes/Refinement.kt:36 | the converse: every digit string, or sign followed by digits, whose signed value fits 32 bits is accepted with that value, leading zeros and `-0` included |
| `KotlinInt.ToIntOrNullOfShow` | src/main/kotlin/passes/Refinement.kt:36 | parsing undoes decimal rendering for every 32-bit value and rejects the rendering of every value outside that range |
| `KotlinInt.ToIntOrNullOfPlusShow` | src/main/kotlin/passes/Refinement.kt:39 | a leading `+` is accepted and leaves the value unchanged |
| `KotlinInt.DecimalValueOfShowNat` | src/main/kotlin/passes/Refinement.kt:36 | the digit string produced by the renderer reads back as the same natural number |
| `KotlinInt.DecimalValueLeadingZero` | src/main/kotlin/passes/Refinement.kt:36 | a leading `0` digit leaves the value of a digit string unchanged |
| `KotlinInt.ToIntOrNullLeadingZero` | src/main/kotlin/passes/Refinement.kt:36 | `toInt` gives the same result with or without a leading zero, so `007` parses as `7` |
| `Refinement.Substring` | src/main/kotlin/passes/Refinement.kt:36 | removing a prefix works exactly when the prefix length is at most the token length, and the prefix plus the remainder gives back the token |
| `Refinement.ToInt` | src/main/kotlin/passes/Refinement.kt:36 | `toInt` succeeds exactly when `toIntOrNull` gives a value, and returns that value, which lies in the 32-bit range |
| `Refinement.DecodeWidth` | src/main/kotlin/passes/Refinement.kt:36 | width decoding succeeds exactly when the token is at least as long as the prefix and the remainder parses, and the width is the parsed value of that remainder |
| `Refinement.VisitType` | src/main/kotlin/passes/Refinement.kt:34-42 | only an integer literal can yield a type, always an `IntType`; it yields one exactly when the width after 3 characters decodes; a float literal yields null when its width after 5 characters decodes and fails otherwise; a node with no literal yields null |
| `Refinement.LowerType` | src/main/kotlin/passes/Refinement.kt:17 | the `as ASTType` cast succeeds exactly when the type node is present and decodes to a type; the result is always an `IntType` |
| `Refinement.VisitParameter` | src/main/kotlin/passes/Refinement.kt:31-32 | a parameter lowers exactly when its identifier is present and its type lowers; the name is the identifier's text and the type is the lowered type |
| `Refinement.VisitFunctionValueParam` | src/main/kotlin/passes/Refinement.kt:22-25 | a value parameter lowers exactly when its inner parameter is present and lowers; its `Parameter` base is that lowered parameter, and its initializer is `IntType(32)` |
| `Refinement.VisitValueParams` | src/main/kotlin/passes/Refinement.kt:12-13 | the parameter list lowers exactly when every parameter lowers; it then has one entry per CST parameter, and the i-th entry is the lowered i-th parameter |
| `Refinement.VisitPrimaryExpression` | src/main/kotlin/passes/Refinement.kt:27-29 | a primary expression lowers exactly when its identifier is present, and then to `IdentExpression` of the identifier's text, which is an expression |
| `Refinement.AsItem` | src/main/kotlin/passes/Refinement.kt:9 | the `as ASTItem` cast succeeds exactly on a non-null node that is an item, and returns that node |
| `Refinement.Visit` | src/main/kotlin/passes/Refinement.kt:7-43 | only a type node can lower to null; a lowered node is an item exactly when it comes from a file or a function declaration |
| `Refinement.VisitCcashFile` | src/main/kotlin/passes/Refinement.kt:8-9 | a lowered file is an `ASTModule` with one item per CST item; a null item list fails |
| `Refinement.VisitItems` | src/main/kotlin/passes/Refinement.kt:9 | mapping the remaining items gives one node for each of them, and every node is an item |
| `Refinement.VisitFunctionDeclaration` | src/main/kotlin/passes/Refinement.kt:11-20 | a lowered declaration is a `FunctionDefinition` named by the identifier, with an `IntType` return type and one parameter per CST parameter |
| `RefinementLemmas.ItemsFrom` | src/main/kotlin/passes/Refinement.kt:9 | item mapping succeeds exactly when every remaining item lowers to an item, and the k-th result is the lowering of the k-th remaining item |
| `RefinementLemmas.ModuleOrderAndLength` | src/main/kotlin/passes/Refinement.kt:8-9 | a file lowers exactly when every item lowers to an item; the module then has the same number of items, and item i is the lowering of CST item i |
| `RefinementLemmas.ModuleEdgeCases` | src/main/kotlin/passes/Refinement.kt:9 | a null item list fails; an empty item list gives an empty module |
| `RefinementLemmas.NonItemsRejected` | src/main/kotlin/passes/Refinement.kt:9 | a file item that lowers to an identifier expression or a bare type fails the `as ASTItem` cast |
| `RefinementLemmas.NestedModule` | src/main/kotlin/ast/AST.kt:8-10 | a module is an item, so a file nested in a file lowers to a module nested in a module |
| `RefinementLemmas.FunctionFieldCopying` | src/main/kotlin/passes/Refinement.kt:11-20 | a function lowers exactly when its identifier, parameter list, every parameter, return type and body lower; the name is the identifier, the parameters keep count and order, and the return type and body are the lowered nodes |
| `RefinementLemmas.FunctionMissingFields` | src/main/kotlin/passes/Refinement.kt:14-19 | a missing identifier, parameter list, return type or body, or a return type with no literal, makes function lowering fail |
| `RefinementLemmas.ParameterMissingFields` | src/main/kotlin/passes/Refinement.kt:23 | a missing inner parameter, identifier or type, or a type with no literal, makes parameter lowering fail |
| `RefinementLemmas.ValueParameterIgnoresDefault` | src/main/kotlin/passes/Refinement.kt:24 | the default-value clause has no effect on the result; the initializer is always `IntType(32)`, and the name and type are copied from the inner parameter |
| `RefinementLemmas.PrimaryExpressionLowering` | src/main/kotlin/passes/Refinement.kt:28 | the identifier `x` lowers to `IdentExpression(x)`; a missing identifier fails |
| `RefinementLemmas.IntWidthDecoded` | src/main/kotlin/passes/Refinement.kt:35-37 | any 3 characters followed by the decimal spelling of `w` decode to `IntType(w)` when `w` fits 32 bits, zero and negative values included, and fail otherwise |
| `RefinementLemmas.FloatWidthDiscarded` | src/main/kotlin/passes/Refinement.kt:38-41 | any 5 characters followed by the decimal spelling of a 32-bit `w` yield null, never a type; out-of-range widths fail |
| `RefinementLemmas.MalformedTokensFail` | src/main/kotlin/passes/Refinement.kt:36 | a token no longer than its prefix fails, and so does one with a non-digit after the optional sign |
| `RefinementLemmas.FloatTypedFunctionsFail` | src/main/kotlin/passes/Refinement.kt:17 | a function with a float return type fails, and so does any function with a float-typed parameter at any position |
| `RefinementLemmas.ItemsWellTyped` | src/main/kotlin/ast/AST.kt:9 | every item that item mapping produces is an `ASTItem` and is itself well typed |
| `RefinementLemmas.LoweringWellTyped` | src/main/kotlin/ast/AST.kt:8-10 | everything lowering builds respects the Kotlin field types: module items are `ASTItem`s at every depth |
| `RefinementLemmas.DecoderExamples` | src/main/kotlin/passes/Refinement.kt:34-42 | `int32` gives `IntType(32)`, `int8` gives `IntType(8)`, `int0` gives `IntType(0)`, `int-8` gives `IntType(-8)`, `intABC` and `int` fail, and `float64` yields null |
| `RefinementLemmas.SignAndZeroExamples` | src/main/kotlin/passes/Refinement.kt:36 | `int007` gives `IntType(7)`, `int-0` gives `IntType(0)` and `int+8` gives `IntType(8)` |
| `RefinementLemmas.HelloExample` | src/main/kotlin/Main.kt:10 | `func hello(a: int32) -> int32 = a` lowers to one function `hello` with one value parameter `a: IntType(32)`, whose initializer is `IntType(32)`, returning `IntType(32)`, with body `IdentExpression("a")` |
| `Ast.Refines` | src/main/kotlin/ast/AST.kt:3-6 | interface extension: every interface refines itself and `ASTNode`; `ASTNode` refines only itself; `ASTStmt` refines `ASTExpr`; `ASTItem` and `ASTExpr` do not refine each other; only `ASTStmt` refines `ASTStmt` |
| `Ast.Categories` | src/main/kotlin/ast/AST.kt:3-10 | the interfaces a node's class implements always include `ASTNode` and are closed under interface extension; a node is an `ASTItem` exactly when it is an `ASTModule` (AST.kt:10) or a `FunctionDefinition` (Functions.kt line 19), an `ASTExpr` exactly when it is an `IdentExpression`, and never an `ASTStmt`; `Parameter` and `ValueParameter` are plain `ASTNode`s (Functions.kt lines 6 and 12) |
| `Ast.WellTyped` | src/main/kotlin/ast/AST.kt:9 | the static field types: every item of a well-typed module is an `ASTItem`, the body of a well-typed function is well typed, and leaves are always well typed |
| `Results.NonNull` | src/main/kotlin/passes/Refinement.kt:9-32 | `!!` and a cast to a non-null type (lines 9, 15-17, 23, 28 and 32) succeed exactly on a non-null value and return it unchanged |
| `KotlinInt.ShowNatCanonical` | src/main/kotlin/passes/Refinement.kt:36 | the renderer spells every natural without a leading zero (`0` itself aside), and every digit string without a leading zero whose value is `n` is exactly that rendering; with `ToIntOrNullLeadingZero`, the spellings of `n` differ only in leading zeros |
| `Ast.RefinesIsPartialOrder` | src/main/kotlin/ast/AST.kt:3-6 | the interface hierarchy is reflexive, antisymmetric and transitive, with `ASTNode` at the top |
| `Ast.CategoryHierarchy` | src/main/kotlin/ast/AST.kt:3-6 | every statement is an expression; items and expressions both refine `ASTNode` and neither refines the other |
| `Ast.CategoriesUpwardClosed` | src/main/kotlin/ast/AST.kt:3-10 | a node that implements an interface also implements every interface that interface extends |
| `Ast.ModulesAndFunctionsAreItems` | src/main/kotlin/ast/Functions.kt:19 | modules and function definitions are items, so a module may contain a module; an identifier expression is an expression and not an item |

## Left out

- The driver in `Main.kt`, the lexer and parser, and the build
  configuration are not part of this model. The `hello` example from
  `Main.kt` appears only as a hand-built CST in `HelloExample`.
- The parser's default `visitChildren`/`aggregateResult` dispatch is not
  modelled. This dispatch is what lowers the `item` and `functionBody`
  contexts in the real parser. Here a file's items and a function's body
  are CST nodes of any kind, dispatched directly by `Visit`.
- The case of a null `ctx` passed to a visit method is not modelled. Every
  context reaches the visitor through `accept`, so it is never null.
  `ctx?.` is therefore read as plain field access. A null child (`?.`
  followed by `!!` or a cast) is modelled.
- The real parser's `item()` accessor returns an empty list, never null.
  The null case is still kept, as `CcashFile(None)`, because the code
  guards it with `!!`.
- The four Kotlin exception types collapse into one `Failure`, which
  carries no message or source location.
- `ToIntOrNull` accepts ASCII digits only. Kotlin's `toInt` goes through
  `Character.digit`, which also accepts other Unicode decimal digits.
- `MalformedTokensFail` states failure for a non-ASCII-digit remainder,
  which Kotlin would accept when it is made of other Unicode decimal
  digits; see `ToIntOrNull`.
- `IntType`, `FloatType`, `ASTType` and `IdentExpression` are used by the
  pass but defined in files that are not part of this model. They have
  minimal definitions here. `IdentExpression` is assumed to be an
  `ASTExpr` and not an `ASTItem`, and `IntType`/`FloatType` are assumed to
  be plain `ASTNode`s that are neither items nor expressions;
  `NonItemsRejected` rests on both assumptions. Nothing implements `ASTStmt`, so that category has no nodes.
- `VisitType` strips its 3 or 5 prefix characters counted as Unicode
  scalar values, as Dafny strings count them; Kotlin's `substring(3)` and
  `substring(5)` count UTF-16 code units. The two counts agree on text
  with no character outside the Basic Multilingual Plane, which covers
  every `int…`/`float…` literal token the lexer produces.
- `IntWidthDecoded` describes the scalar-value split of `VisitType`, so on
  a prefix holding a character outside the Basic Multilingual Plane it
  differs from Kotlin's split.
- `FloatWidthDiscarded` describes the same scalar-value split, with the
  same difference on such prefixes.
- `MalformedTokensFail` measures token length in scalar values as well,
  so a token with such a character can be "no longer than its prefix"
  here but not in UTF-16 code units.
- Determinism needs no lemma: every lowering function is a pure Dafny
  function, so equal inputs give equal outputs.
