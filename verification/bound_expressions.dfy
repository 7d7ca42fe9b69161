/** Code generation for bound expressions: a recursive emitter over literals,
    variable references and binary operations. Each node appends its
    instructions to the routine's instruction buffer and reports the static
    type of the value it leaves on the evaluation stack, or fails with one of
    the two exception kinds the generator throws. */
module BoundExpressions {
  import opened Wrappers
  import opened ConstantValues
  import opened IL

  /** `InvalidOperation` signals a broken precondition of an upstream phase
      (a literal without a constant, an unresolved variable); `NotImplemented`
      an explicitly unsupported code-generation path. */
  datatype Err = InvalidOperation | NotImplemented

  /** How an expression is accessed; only reads are compiled. */
  datatype Access = Read | Write | ReadRef

  /** The storage a resolved variable lives in: a slot and its static type. */
  datatype Place = Place(slot: nat, ty: Ty)

  datatype BinaryOperator = OperatorEquals | OtherOperator(code: nat)

  datatype Expr =
    | Literal(constant: Option<Constant>)
    | VariableRef(variable: Option<Place>, access: Access)
    | BinaryEx(op: BinaryOperator, usesOperatorMethod: bool, left: Expr, right: Expr)
    | OtherExpr  // a node kind that does not override the base emitter

  /** The instructions an emission appends to the routine's instruction
      buffer, with the static result type or the error raised. On an error
      the instructions are those appended before the failure was detected:
      the buffer is not rolled back. */
  datatype Emitted = Emitted(il: seq<Instr>, result: Result<Ty, Err>)

  /** Types of the resolved variables occurring in `e`. */
  function PlaceTypes(e: Expr): set<Ty>
  {
    match e
    case Literal(_) => {}
    case VariableRef(v, _) => if v.Some? then {v.value.ty} else {}
    case BinaryEx(_, _, l, r) => PlaceTypes(l) + PlaceTypes(r)
    case OtherExpr => {}
  }

  /** A literal: a missing constant is an upstream error; `null` and a 32-bit
      integer leave one `Object` on the stack; any other constant kind is not
      implemented. A failure emits nothing. */
  function EmitLiteral(constant: Option<Constant>): (r: Emitted)
    ensures r.result == Failure(InvalidOperation) <==> constant.None?
    ensures r.result.Failure? ==> r.il == []
    ensures r.result.Success? ==>
              && r.result.value == Object
              && forall locals, st :: Run(locals, st, r.il) == Some(st + [Val(Object)])
  {
    match constant
    case None => Emitted([], Failure(InvalidOperation))
    case Some(NullValue) => Emitted([LdNull], Success(Object))
    case Some(IntValue(n)) => BoxedConstant(n); Emitted([LdcI4(n), Box], Success(Object))
    case Some(OtherValue) => Emitted([], Failure(NotImplemented))
  }

  /** A variable reference: an unresolved variable is an upstream error; a
      read leaves the value of the variable's place on the stack, typed by the
      place; every other access is not implemented. A failure emits nothing. */
  function EmitVariableRef(variable: Option<Place>, access: Access): (r: Emitted)
    ensures r.result == Failure(InvalidOperation) <==> variable.None?
    ensures r.result.Failure? ==> r.il == []
    ensures r.result.Success? ==>
              && access == Read
              && r.result.value == variable.value.ty
              && forall locals, st :: variable.value.slot in locals && locals[variable.value.slot] == variable.value.ty ==>
                   Run(locals, st, r.il) == Some(st + [Val(r.result.value)])
  {
    if variable.None? then Emitted([], Failure(InvalidOperation))
    else if access == Read then Emitted([LoadPlace(variable.value.slot)], Success(variable.value.ty))
    else Emitted([], Failure(NotImplemented))
  }

  /** Operator dispatch once both operands are on the stack with static types
      `ltype` and `rtype`. Only equality of two objects without an operator
      method is supported: it replaces the two operands by one `Boolean`. */
  function EmitOperator(op: BinaryOperator, usesOperatorMethod: bool, ltype: Ty, rtype: Ty): (r: Emitted)
    ensures r.result.Failure? ==> r.result.error == NotImplemented && r.il == []
    ensures r.result.Success? ==>
              && !usesOperatorMethod && op == OperatorEquals && ltype == Object && rtype == Object
              && r.result.value == Boolean
              && forall locals, st :: |st| >= 2 && st[|st| - 2..] == [Val(ltype), Val(rtype)] ==>
                   Run(locals, st, r.il) == Some(st[..|st| - 2] + [Val(Boolean)])
  {
    if usesOperatorMethod then Emitted([], Failure(NotImplemented))
    else
      match op
      case OperatorEquals =>
        if ltype == Object && rtype == Object
        then Emitted([CallEqualHelper], Success(Boolean))
        else Emitted([], Failure(NotImplemented))
      case OtherOperator(_) => Emitted([], Failure(NotImplemented))
  }

  /** Emits `e`. A binary node emits its left operand, then its right
      operand, and only then examines the operator; a failing operand stops
      emission with the code emitted so far. */
  function Emit(e: Expr): (r: Emitted)
    ensures r.result.Success? ==>
              r.result.value == Object || r.result.value == Boolean || r.result.value in PlaceTypes(e)
    ensures r.result.Success? ==> |r.il| > 0
  {
    match e
    case Literal(c) => EmitLiteral(c)
    case VariableRef(v, a) => EmitVariableRef(v, a)
    case BinaryEx(op, m, left, right) =>
      var l := Emit(left);
      if l.result.Failure? then l
      else
        var r := Emit(right);
        if r.result.Failure? then Emitted(l.il + r.il, r.result)
        else
          var o := EmitOperator(op, m, l.result.value, r.result.value);
          Emitted(l.il + r.il + o.il, o.result)
    case OtherExpr => Emitted([], Failure(NotImplemented))
  }

  // ---------------------------------------------------------------------
  // Reference definitions the emitter is checked against

  /** Every literal carries a constant and every variable is bound to a place:
      what the binder promises to the generator. */
  predicate Resolved(e: Expr)
  {
    match e
    case Literal(c) => c.Some?
    case VariableRef(v, _) => v.Some?
    case BinaryEx(_, _, l, r) => Resolved(l) && Resolved(r)
    case OtherExpr => true
  }

  /** The resolved variables of `e` live in slots of `locals` of their own type. */
  predicate PlacesAgree(locals: Locals, e: Expr)
  {
    match e
    case Literal(_) => true
    case VariableRef(v, _) => v.Some? ==> v.value.slot in locals && locals[v.value.slot] == v.value.ty
    case BinaryEx(_, _, l, r) => PlacesAgree(locals, l) && PlacesAgree(locals, r)
    case OtherExpr => true
  }

  // ---------------------------------------------------------------------
  // Properties

  /** A literal without a constant fails with `InvalidOperation` and emits
      nothing; `null` emits one load; a 32-bit integer emits the load and a
      box; both are typed `Object`; any other constant kind is not
      implemented and emits nothing. */
  lemma LiteralEmission(c: Option<Constant>)
    ensures c.None? ==> Emit(Literal(c)) == Emitted([], Failure(InvalidOperation))
    ensures c == Some(NullValue) ==> Emit(Literal(c)) == Emitted([LdNull], Success(Object))
    ensures c.Some? && c.value.IntValue? ==>
              Emit(Literal(c)) == Emitted([LdcI4(c.value.value), Box], Success(Object))
    ensures c == Some(OtherValue) ==> Emit(Literal(c)) == Emitted([], Failure(NotImplemented))
  {
  }

  /** An unresolved variable fails with `InvalidOperation`, a read loads the
      place and is typed by it, any other access is not implemented; only the
      read emits code. */
  lemma VariableRefEmission(v: Option<Place>, a: Access)
    ensures v.None? ==> Emit(VariableRef(v, a)) == Emitted([], Failure(InvalidOperation))
    ensures v.Some? && a == Read ==>
              Emit(VariableRef(v, a)) == Emitted([LoadPlace(v.value.slot)], Success(v.value.ty))
    ensures v.Some? && a != Read ==> Emit(VariableRef(v, a)) == Emitted([], Failure(NotImplemented))
  {
  }

  /** A node kind without its own emitter is not implemented and emits nothing. */
  lemma OtherExprEmission()
    ensures Emit(OtherExpr) == Emitted([], Failure(NotImplemented))
  {
  }

  /** The code of a binary node starts with the complete code of its left
      operand, followed by the complete code of its right operand; a failing
      operand stops emission there with that operand's error. */
  lemma BinaryOperandOrder(op: BinaryOperator, m: bool, left: Expr, right: Expr)
    ensures var L := Emit(left);
            var R := Emit(right);
            var r := Emit(BinaryEx(op, m, left, right));
            && (L.result.Failure? ==> r == L)
            && (L.result.Success? && R.result.Failure? ==> r == Emitted(L.il + R.il, R.result))
            && (L.result.Success? && R.result.Success? ==>
                  |L.il + R.il| <= |r.il| && r.il[..|L.il + R.il|] == L.il + R.il)
  {
    var L := Emit(left);
    var R := Emit(right);
    if L.result.Success? && R.result.Success? {
      var o := EmitOperator(op, m, L.result.value, R.result.value);
      assert (L.il + R.il + o.il)[..|L.il + R.il|] == L.il + R.il;
    }
  }

  /** Equality of two `Object` operands without an operator method is the
      left code, the right code and a call of the equality helper, typed
      `Boolean`. */
  lemma EqualityOfObjects(left: Expr, right: Expr)
    requires Emit(left).result == Success(Object)
    requires Emit(right).result == Success(Object)
    ensures Emit(BinaryEx(OperatorEquals, false, left, right)) ==
              Emitted(Emit(left).il + Emit(right).il + [CallEqualHelper], Success(Boolean))
  {
  }

  /** An operator method, an equality with a non-`Object` operand or any other
      operator fails with `NotImplemented` after the code of both operands has
      been emitted: emission of a binary node is not atomic. */
  lemma UnsupportedOperatorKeepsOperandCode(op: BinaryOperator, m: bool, left: Expr, right: Expr)
    requires Emit(left).result.Success? && Emit(right).result.Success?
    requires m || op != OperatorEquals
             || Emit(left).result.value != Object || Emit(right).result.value != Object
    ensures Emit(BinaryEx(op, m, left, right)) ==
              Emitted(Emit(left).il + Emit(right).il, Failure(NotImplemented))
  {
    assert Emit(left).il + Emit(right).il + [] == Emit(left).il + Emit(right).il;
  }

  /** Two integer constants under an unsupported operator: both boxed
      constants are already emitted when the operator is rejected. */
  lemma PartialEmissionExample()
    ensures var e := BinaryEx(OtherOperator(1), false, Literal(Some(IntValue(1))), Literal(Some(IntValue(2))));
            Emit(e) == Emitted([LdcI4(1), Box, LdcI4(2), Box], Failure(NotImplemented))
  {
  }

  /** `InvalidOperation` is raised only for input the binder should never
      produce, and such input always fails (possibly earlier, with
      `NotImplemented`, if a preceding operand is unsupported). */
  lemma {:induction false} InvalidOperationOnlyWhenUnresolved(e: Expr)
    ensures Emit(e).result == Failure(InvalidOperation) ==> !Resolved(e)
    ensures !Resolved(e) ==> Emit(e).result.Failure?
    decreases e
  {
    match e
    case Literal(c) =>
    case VariableRef(v, a) =>
    case OtherExpr =>
    case BinaryEx(op, m, left, right) =>
      InvalidOperationOnlyWhenUnresolved(left);
      InvalidOperationOnlyWhenUnresolved(right);
  }

  /** Stack discipline: when its variables agree with the routine's slots, the
      code of a successful emission, run on any stack, pushes exactly one value
      of the reported result type and touches nothing below it. */
  lemma {:induction false} EmitPushesOneValue(locals: Locals, st: seq<Entry>, e: Expr)
    requires PlacesAgree(locals, e)
    requires Emit(e).result.Success?
    ensures Run(locals, st, Emit(e).il) == Some(st + [Val(Emit(e).result.value)])
    decreases e
  {
    match e
    case Literal(Some(NullValue)) =>
    case Literal(Some(IntValue(n))) =>
    case VariableRef(v, a) =>
    case BinaryEx(op, m, left, right) =>
      var L := Emit(left);
      var R := Emit(right);
      var lt := Val(L.result.value);
      var rt := Val(R.result.value);
      EmitPushesOneValue(locals, st, left);
      EmitPushesOneValue(locals, st + [lt], right);
      RunAppend(locals, st, L.il, R.il);
      RunAppend(locals, st, L.il + R.il, [CallEqualHelper]);
      var top := st + [lt] + [rt];
      assert top[..|top| - 2] == st;
  }
}
