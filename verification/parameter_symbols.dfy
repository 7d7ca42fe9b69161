/** The parameter symbol of the compiler's symbol model: the symbol flags the
    base class supplies, its overridable defaults, and the ordinal convention of a routine's
    parameters (ordinary parameters numbered from zero, the receiver `this`
    numbered -1). */
module ParameterSymbols {
  import Wrappers
  import opened ConstantValues

  datatype SymbolKind = Assembly | NetModule | Namespace | NamedType | Method | Field | Parameter | Local

  datatype Accessibility =
    NotApplicable | Private | ProtectedAndInternal | Protected | Internal | ProtectedOrInternal | Public

  datatype RefKind = None | Ref | Out

  /** Data decoded from an obsolescence attribute. */
  datatype ObsoleteData = ObsoleteData(message: string, isError: bool)

  /** A parameter. The per-parameter data and the virtual defaults are fields.
      The symbol properties the base class overrides are members returning the
      base class's values; a derived symbol could override them again, which
      this model does not represent (only the obsolete-attribute data is
      sealed). */
  datatype ParameterSymbol = ParameterSymbol(
    name: string,
    ordinal: int,
    isThis: bool,
    isOptional: bool,
    isParams: bool,
    refKind: RefKind,
    explicitDefaultConstantValue: Wrappers.Option<Constant>)
  {
    function Kind(): SymbolKind { SymbolKind.Parameter }
    predicate IsStatic() { false }
    predicate IsVirtual() { false }
    predicate IsOverride() { false }
    predicate IsAbstract() { false }
    predicate IsSealed() { true }
    predicate IsExtern() { false }
    function DeclaredAccessibility(): Accessibility { NotApplicable }
    function OriginalDefinition(): ParameterSymbol { this }
    function ObsoleteAttributeData(): Wrappers.Option<ObsoleteData> { Wrappers.None }
  }

  /** The base class's answers: a `Parameter`-kind symbol with no declared
      accessibility, sealed and neither static, virtual, override, abstract
      nor extern, its own original definition, and never obsolete. */
  lemma FixedSymbolProperties(p: ParameterSymbol)
    ensures p.Kind() == SymbolKind.Parameter
    ensures !p.IsStatic() && !p.IsVirtual() && !p.IsOverride() && !p.IsAbstract() && !p.IsExtern()
    ensures p.IsSealed()
    ensures p.DeclaredAccessibility() == NotApplicable
    ensures p.OriginalDefinition() == p
    ensures p.ObsoleteAttributeData().None?
  {
  }

  /** An ordinary parameter that keeps every overridable default. */
  function NewParameter(name: string, ordinal: nat, default: Wrappers.Option<Constant>): (p: ParameterSymbol)
    ensures p.name == name && p.ordinal == ordinal && p.explicitDefaultConstantValue == default
    ensures !p.isOptional && !p.isParams && !p.isThis && p.refKind == RefKind.None
  {
    ParameterSymbol(name, ordinal, false, false, false, RefKind.None, default)
  }

  /** The receiver parameter of an instance routine. */
  function NewThisParameter(): (p: ParameterSymbol)
    ensures p.isThis && p.ordinal == -1
    ensures !p.isOptional && !p.isParams && p.refKind == RefKind.None && p.explicitDefaultConstantValue.None?
  {
    ParameterSymbol("this", -1, true, false, false, RefKind.None, Wrappers.None)
  }

  /** The parameters of one routine: an optional receiver and the ordinary
      parameters in declaration order. */
  datatype ParameterList = ParameterList(thisParameter: Wrappers.Option<ParameterSymbol>, parameters: seq<ParameterSymbol>)

  /** The ordinal convention: the receiver is a `this` parameter with ordinal
      -1; the ordinary parameter at position `i` is not `this` and has ordinal `i`. */
  predicate WellFormed(pl: ParameterList)
    ensures WellFormed(pl) ==>
              forall i :: 0 <= i < |AllParameters(pl)| ==>
                (AllParameters(pl)[i].isThis <==> AllParameters(pl)[i].ordinal == -1)
  {
    && (pl.thisParameter.Some? ==> pl.thisParameter.value.isThis && pl.thisParameter.value.ordinal == -1)
    && (forall i :: 0 <= i < |pl.parameters| ==> !pl.parameters[i].isThis && pl.parameters[i].ordinal == i)
  }

  /** Every parameter of the list, receiver first. */
  function AllParameters(pl: ParameterList): (r: seq<ParameterSymbol>)
    ensures |r| == |pl.parameters| + (if pl.thisParameter.Some? then 1 else 0)
  {
    (if pl.thisParameter.Some? then [pl.thisParameter.value] else []) + pl.parameters
  }

  /** The ordinals a list with `n` ordinary parameters uses: -1 for the
      receiver, and 0 up to `n` exclusive. */
  predicate ExpectedOrdinal(hasThis: bool, n: nat, k: int)
  {
    (hasThis && k == -1) || 0 <= k < n
  }

  /** In a well-formed list an ordinal names at most one parameter, at most one
      parameter is `this`, and the ordinals in use are exactly -1 (when there
      is a receiver) and 0 up to the number of ordinary parameters. */
  lemma WellFormedOrdinals(pl: ParameterList)
    requires WellFormed(pl)
    ensures var all := AllParameters(pl);
            && (forall i, j :: 0 <= i < |all| && 0 <= j < |all| && all[i].ordinal == all[j].ordinal ==> i == j)
            && (forall i, j :: 0 <= i < |all| && 0 <= j < |all| && all[i].isThis && all[j].isThis ==> i == j)
            && (forall k :: ExpectedOrdinal(pl.thisParameter.Some?, |pl.parameters|, k) <==>
                              exists i :: 0 <= i < |all| && all[i].ordinal == k)
  {
    var all := AllParameters(pl);
    var off := if pl.thisParameter.Some? then 1 else 0;
    assert forall i :: off <= i < |all| ==> all[i] == pl.parameters[i - off];
    forall k | ExpectedOrdinal(pl.thisParameter.Some?, |pl.parameters|, k)
      ensures exists i :: 0 <= i < |all| && all[i].ordinal == k
    {
      if k == -1 && pl.thisParameter.Some? {
        assert all[0].ordinal == -1;
      } else {
        assert all[k + off].ordinal == k;
      }
    }
  }

  /** The parameter with ordinal `k`, if any. */
  function ParameterWithOrdinal(pl: ParameterList, k: int): (r: Wrappers.Option<ParameterSymbol>)
    requires WellFormed(pl)
    ensures r.Some? ==> r.value.ordinal == k && r.value in AllParameters(pl)
    ensures (exists i :: 0 <= i < |AllParameters(pl)| && AllParameters(pl)[i].ordinal == k) ==> r.Some?
  {
    if k == -1 then pl.thisParameter
    else if 0 <= k < |pl.parameters| then Wrappers.Some(pl.parameters[k])
    else Wrappers.None
  }

  /** The parameter list of a routine with the given ordinary parameter names,
      with a receiver for an instance routine. */
  function BuildParameterList(isInstance: bool, names: seq<string>): (pl: ParameterList)
    ensures WellFormed(pl)
    ensures pl.thisParameter.Some? <==> isInstance
    ensures |pl.parameters| == |names|
    ensures forall i :: 0 <= i < |names| ==> pl.parameters[i].name == names[i]
    ensures forall p :: p in AllParameters(pl) ==>
              !p.isOptional && !p.isParams && p.refKind == RefKind.None && p.explicitDefaultConstantValue.None?
  {
    ParameterList(
      if isInstance then Wrappers.Some(NewThisParameter()) else Wrappers.None,
      seq(|names|, i requires 0 <= i < |names| => NewParameter(names[i], i, Wrappers.None)))
  }
}
