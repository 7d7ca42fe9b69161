/** The slice of the target instruction set the expression emitter produces,
    together with an abstract typed evaluation stack that gives those
    instructions a meaning independent of the emitter. */
module IL {
  import opened Wrappers
  import opened ConstantValues

  /** Static type of an emitted value. `Object` is the uniform value
      representation, `Boolean` the result of the equality helper; every other
      type (for instance that of a local variable) is `Other`. */
  datatype Ty = Object | Boolean | Other(id: nat)

  datatype Instr =
    | LdNull                  // push a null reference
    | LdcI4(value: int32)     // push a 32-bit integer constant
    | Box                     // convert the 32-bit integer on top into an object
    | LoadPlace(slot: nat)    // push the value stored in a local storage slot
    | CallEqualHelper         // call the runtime helper comparing two objects

  /** An evaluation-stack entry: a raw 32-bit integer or a value of a static type. */
  datatype Entry = I4 | Val(ty: Ty)

  /** Static types of the routine's storage slots. */
  type Locals = map<nat, Ty>

  /** Effect of one instruction on the typed evaluation stack (top is last);
      `None` when the instruction does not fit the stack or the slot is unknown. */
  function Step(locals: Locals, st: seq<Entry>, ins: Instr): Option<seq<Entry>>
  {
    match ins
    case LdNull => Some(st + [Val(Object)])
    case LdcI4(_) => Some(st + [I4])
    case Box =>
      if |st| >= 1 && st[|st| - 1] == I4 then Some(st[..|st| - 1] + [Val(Object)]) else None
    case LoadPlace(slot) =>
      if slot in locals then Some(st + [Val(locals[slot])]) else None
    case CallEqualHelper =>
      if |st| >= 2 && st[|st| - 2] == Val(Object) && st[|st| - 1] == Val(Object)
      then Some(st[..|st| - 2] + [Val(Boolean)])
      else None
  }

  /** Runs a straight-line instruction sequence on the typed stack. */
  function Run(locals: Locals, st: seq<Entry>, code: seq<Instr>): Option<seq<Entry>>
    decreases |code|
  {
    if |code| == 0 then Some(st)
    else
      match Step(locals, st, code[0])
      case None => None
      case Some(st') => Run(locals, st', code[1..])
  }

  /** Running a concatenation runs the first part, then the second on its result. */
  lemma {:induction false} RunAppend(locals: Locals, st: seq<Entry>, a: seq<Instr>, b: seq<Instr>)
    ensures Run(locals, st, a + b) ==
              (match Run(locals, st, a)
               case None => None
               case Some(mid) => Run(locals, mid, b))
    decreases |a|
  {
    if |a| == 0 {
      assert a + b == b;
    } else {
      assert (a + b)[0] == a[0];
      assert (a + b)[1..] == a[1..] + b;
      match Step(locals, st, a[0])
      case None =>
      case Some(st') => RunAppend(locals, st', a[1..], b);
    }
  }

  /** A 32-bit constant followed by a box leaves one object on any stack. */
  lemma BoxedConstant(n: int32)
    ensures forall locals, st :: Run(locals, st, [LdcI4(n), Box]) == Some(st + [Val(Object)])
  {
    forall locals, st
      ensures Run(locals, st, [LdcI4(n), Box]) == Some(st + [Val(Object)])
    {
      assert Step(locals, st + [I4], Box) == Some(st + [Val(Object)]) by {
        assert (st + [I4])[..|st|] == st;
      }
      assert [LdcI4(n), Box][1..] == [Box];
      assert Run(locals, st + [I4], [Box]) == Some(st + [Val(Object)]);
    }
  }
}
