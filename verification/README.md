# Peachpie core: expression emitter, instance-field enumeration, parameter symbols

A Dafny model of three deterministic pieces of the Peachpie PHP compiler and runtime:

- **Expression code generation** (`BoundExpressions`, with the instruction slice in `IL`).
  A recursive emitter over bound literals, variable references and binary operations.
  `Emit(e)` returns the instructions the node appends to the routine's IL buffer, together with
  the static result type or the exception raised (`InvalidOperation` or `NotImplemented`).
  The buffer is never rolled back: a binary node emits both operands before it looks at the
  operator, so a rejected operator leaves the operand code behind. That code is part of the
  failing result.
  `IL` also gives the instructions a typed evaluation-stack semantics (`Step`, `Run`). This is
  the independent reference the emitter is proved against: successful code pushes exactly one
  value of the reported type.
- **Runtime instance-field enumeration** (`TypeMembers`). The walk from an object's type to the
  root yields each type's declared instance fields in declaration order, filtered by visibility
  against an optional calling class. It then yields the object's runtime-field bag unfiltered,
  when the type has a holder and the bag is non-null and non-empty.
  The subtype relation is explicit: a caller carries its own id and its base classes.
  Field values come from an abstract read function.
  `EnumerateInstanceFields` is the functional definition. `EnumerateInstanceFieldsLoop` is the
  loop-shaped walk and is proved equal to it.
- **Parameter symbols** (`ParameterSymbols`). The symbol flags the parameter base class
  supplies, its overridable defaults, and the ordinal convention: ordinary parameters are numbered from 0 and the
  `this` receiver is -1. The convention is a well-formedness predicate on a routine's parameter
  list.

Shared modules: `Wrappers` (`Option`, `Result`) and `ConstantValues` (the binder's constant kinds
and the 32-bit integer type).

A rejected operator leaves both operands' code in the buffer: the binary emitter emits the left
and right operands before it inspects the operator (src/Compiler/PhpCodeAnalysis/CodeGen/BoundExpression.cs lines 25-31).
`UnsupportedOperatorKeepsOperandCode` and `PartialEmissionExample` state this. An unresolved
variable or a literal without a constant emits nothing.

## Model

| member | source | states |
|---|---|---|
| BoundExpressions.Emit | src/Compiler/PhpCodeAnalysis/CodeGen/BoundExpression.cs:15-98 | every successful emission is typed Object, Boolean or the type of one of its variable places, and appends at least one instruction |
| BoundExpressions.EmitLiteral | src/Compiler/PhpCodeAnalysis/CodeGen/BoundExpression.cs:56-82 | InvalidOperation exactly when the constant is missing; a failure emits nothing; a success is typed Object and its code, run on any stack, pushes exactly one Object |
| BoundExpressions.EmitVariableRef | src/Compiler/PhpCodeAnalysis/CodeGen/BoundExpression.cs:87-98 | InvalidOperation exactly when the variable is unresolved; a failure emits nothing; a success is a read typed by the place, and its code pushes exactly one value of that type when the slot holds that type |
| BoundExpressions.EmitOperator | src/Compiler/PhpCodeAnalysis/CodeGen/BoundExpression.cs:28-50 | every failure is NotImplemented and adds no code; a success is equality of two Object operands without an operator method, typed Boolean, and its code replaces the two operand values on top of the stack by one Boolean |
| BoundExpressions.LiteralEmission | src/Compiler/PhpCodeAnalysis/CodeGen/BoundExpression.cs:58-81 | a literal without a constant fails with InvalidOperation and emits nothing; null emits exactly [LdNull] typed Object; an int n emits exactly [LdcI4 n, Box] typed Object; any other constant kind fails with NotImplemented and emits nothing |
| BoundExpressions.VariableRefEmission | src/Compiler/PhpCodeAnalysis/CodeGen/BoundExpression.cs:89-97 | an unresolved variable fails with InvalidOperation and emits nothing; a read emits exactly the place load and is typed by the place; any other access fails with NotImplemented and emits nothing |
| BoundExpressions.OtherExprEmission | src/Compiler/PhpCodeAnalysis/CodeGen/BoundExpression.cs:15-18 | a node kind without its own emitter fails with NotImplemented and emits nothing |
| BoundExpressions.BinaryOperandOrder | src/Compiler/PhpCodeAnalysis/CodeGen/BoundExpression.cs:25-28 | a binary node's code starts with the left operand's full code followed by the right operand's; a failing left operand ends emission with its own code and error; a failing right operand ends it after left and right code |
| BoundExpressions.EqualityOfObjects | src/Compiler/PhpCodeAnalysis/CodeGen/BoundExpression.cs:33-46 | equality of two Object-typed operands without an operator method emits left ++ right ++ [CallEqualHelper] and is typed Boolean |
| BoundExpressions.UnsupportedOperatorKeepsOperandCode | src/Compiler/PhpCodeAnalysis/CodeGen/BoundExpression.cs:25-50 | with both operands emitted, an operator method, an equality with a non-Object operand, or any other operator fails with NotImplemented, and the code of both operands stays emitted |
| BoundExpressions.PartialEmissionExample | src/Compiler/PhpCodeAnalysis/CodeGen/BoundExpression.cs:25-31 | concrete case: two int constants under an unsupported operator leave [LdcI4 1, Box, LdcI4 2, Box] behind with NotImplemented |
| BoundExpressions.InvalidOperationOnlyWhenUnresolved | src/Compiler/PhpCodeAnalysis/CodeGen/BoundExpression.cs:58-90 | InvalidOperation is raised only when some literal lacks a constant or some variable is unresolved; every such expression fails |
| BoundExpressions.EmitPushesOneValue | src/Compiler/PhpCodeAnalysis/CodeGen/BoundExpression.cs:23-98 | when the variables agree with the routine's slot types, successful code run on any stack pushes exactly one value of the reported type and leaves the rest of the stack as it was |
| TypeMembers.IsVisibleType | src/Peachpie.Runtime/Reflection/TypeMembersUtils.cs:101-114 | the global context (no caller) sees no type's members; a caller sees the members of exactly the types it can be assigned to: itself and its base classes |
| TypeMembers.IsVisible | src/Peachpie.Runtime/Reflection/TypeMembersUtils.cs:93-99 | a visible non-public field is always declared by the caller or one of its base classes; from the global context exactly the public fields are visible; assembly-scoped fields never are |
| TypeMembers.VisibilityRules | src/Peachpie.Runtime/Reflection/TypeMembersUtils.cs:93-114 | public fields are visible; private ones iff the caller is the declaring class; family ones iff a caller exists and is the declaring class or derives from it; other kinds never; with no caller, only public ones |
| TypeMembers.GetStdClassRuntimeFields | src/Peachpie.Runtime/Reflection/TypeMembersUtils.cs:15-20 | a null object is rejected with ArgumentNull, and only a null object is; otherwise the object's runtime-field bag is returned, possibly null |
| TypeMembers.GetRuntimeFields | src/Peachpie.Runtime/Reflection/TypeMembersUtils.cs:28-45 | null when the type has no runtime-fields holder; otherwise the holder's value in the instance |
| TypeMembers.EnumerateInstanceFields | src/Peachpie.Runtime/Reflection/TypeMembersUtils.cs:53-91 | output length is the number of visible declared fields plus the included bag size; the first part is one entry per visible declared field in walk order; the rest is exactly the included bag |
| TypeMembers.EnumerateInstanceFieldsLoop | src/Peachpie.Runtime/Reflection/TypeMembersUtils.cs:53-91 | the loop over the hierarchy and each type's fields, followed by the bag, yields exactly the functional enumeration |
| TypeMembers.YieldDeclared | src/Peachpie.Runtime/Reflection/TypeMembersUtils.cs:64-73 | one type's loop yields exactly the entries of its visible declared fields, in declaration order |
| TypeMembers.VisibleInAppend | src/Peachpie.Runtime/Reflection/TypeMembersUtils.cs:64-73 | within one type, declaration order is kept: the fields yielded for a split field list are those of the first part, then those of the second |
| TypeMembers.VisibleSlotsAppend | src/Peachpie.Runtime/Reflection/TypeMembersUtils.cs:60-76 | hierarchy order: everything yielded for the more-derived part of the chain precedes everything yielded for the base part |
| TypeMembers.VisibleSlotsMembership | src/Peachpie.Runtime/Reflection/TypeMembersUtils.cs:60-99 | a field is yielded iff it is declared by a type of the chain and passes the visibility test; nothing else is yielded |
| TypeMembers.DeclaredFieldYieldedIff | src/Peachpie.Runtime/Reflection/TypeMembersUtils.cs:60-113 | for the j-th field of the i-th type: public is always yielded; private iff the caller is that type; family iff a caller exists that is that type or derives from it; other kinds never |
| TypeMembers.NoCallerOnlyPublic | src/Peachpie.Runtime/Reflection/TypeMembersUtils.cs:95-108 | with the default (absent) caller, exactly the public declared fields are yielded |
| TypeMembers.RuntimeBagIncludedIff | src/Peachpie.Runtime/Reflection/TypeMembersUtils.cs:78-90 | entries beyond the declared fields appear iff the type has a holder and the bag is non-null and non-empty; they are then exactly the bag, in bag order, unfiltered |
| TypeMembers.DerivedCallerExample | src/Peachpie.Runtime/Reflection/TypeMembersUtils.cs:53-91 | Base{a (family)} <- Derived{b (private)} with bag {c: 1}, seen from Derived: [b, a, c] |
| TypeMembers.BaseCallerExample | src/Peachpie.Runtime/Reflection/TypeMembersUtils.cs:53-91 | the same object seen from Base: the private b is hidden, giving [a, c] |
| ParameterSymbols.FixedSymbolProperties | src/Compiler/PhpCodeAnalysis/Symbols/ParameterSymbol.cs:15-88 | the values the base class gives every parameter: kind Parameter, accessibility NotApplicable, sealed, not static, virtual, override, abstract or extern, its own original definition, no obsolete data |
| ParameterSymbols.NewParameter | src/Compiler/PhpCodeAnalysis/Symbols/ParameterSymbol.cs:17-41 | a parameter keeping the base defaults is not optional, not params, not this, and has ref-kind None |
| ParameterSymbols.NewThisParameter | src/Compiler/PhpCodeAnalysis/Symbols/ParameterSymbol.cs:35-39 | the receiver parameter is a this parameter with ordinal -1 |
| ParameterSymbols.WellFormed | src/Compiler/PhpCodeAnalysis/Symbols/ParameterSymbol.cs:35-39 | the ordinal convention; in a list that follows it, a parameter is the this parameter exactly when its ordinal is -1 |
| ParameterSymbols.WellFormedOrdinals | src/Compiler/PhpCodeAnalysis/Symbols/ParameterSymbol.cs:35-39 | in a list following the ordinal convention, ordinals identify parameters uniquely and at most one parameter is this; an ordinal is in use iff it is -1 with a receiver or lies in 0 to n-1 |
| ParameterSymbols.ParameterWithOrdinal | src/Compiler/PhpCodeAnalysis/Symbols/ParameterSymbol.cs:35-39 | the lookup returns a parameter of the list with the requested ordinal, and returns one whenever such a parameter exists |
| ParameterSymbols.BuildParameterList | src/Compiler/PhpCodeAnalysis/Symbols/ParameterSymbol.cs:35-41 | the list built for a routine follows the ordinal convention, has a receiver iff the routine is an instance routine, keeps the names in order, and keeps every default flag |

## Left out

- `PEModuleSymbol` (src/Compiler/PhpCodeAnalysis/Symbols/PE/PEModuleSymbol.cs) is not part of this model. It is a data holder: its concurrent handle-to-symbol caches are only declared there, the decoder that fills them is not shown, and `Locations` only throws.
- The equality helper's lookup by metadata name (`Pchp.Core.Operators.Equal`) is not modelled as symbol resolution. It is the fixed instruction `CallEqualHelper`.
- Real IL opcode encoding and the code generator's builder internals are left out. A variable place is an abstract slot with a static type, and loading it is the single instruction `LoadPlace(slot)`.
- The set of access modes and operator kinds is not enumerated. `Access` has `Read` and two non-read modes, and the emitter treats every non-read mode alike. `BinaryOperator` has `OperatorEquals` and an opaque `OtherOperator`.
- An operator method's own code generation is not modelled. It is an extension point, and the code throws `NotImplemented` for it.
- Reflection is left out: field values (`GetValue` plus the conversion to a PHP value) are an abstract read function of the instance. The type-handle lookup is an explicit caller record.
- A non-default caller handle whose type cannot be found (`GetTypeFromHandle` returning null) is not modelled; every caller is a known class.
- Interface assignability is not modelled, because fields are declared by classes only.
- The lazy, restartable enumeration and the bag's fast enumerator are left out. The enumeration is a finite sequence.
- The `Debug.Assert` checks are not modelled as failures. The one relating a type info to its instance is the requires of `GetRuntimeFields`. CLR properties are left out, as in the code.
- ParameterSymbols.FixedSymbolProperties: the model takes the base class's values of `Kind`, the six modifier flags, `DeclaredAccessibility` and `OriginalSymbolDefinition` as fixed for every parameter. In the code these are plain overrides that a derived parameter symbol could override again; only `ObsoleteAttributeData` is sealed.
- `ParameterSymbol.Type` is left out: the base getter throws and the derived symbols that supply it are not shown. `CustomModifiers` (empty by default: a virtual property that derived symbols may override) and the abstract `ExplicitDefaultConstantValue` are left out too; the latter is carried as an optional constant field.
- Determinism of emission is left out as a separate statement: every operation is a pure function.
