/** Choosing the strategy: the `overload_priority<n>` chain and the six
    `repr_stream` overloads that take one of its tags. */
module Dispatch {
  import opened Values

  /** The six `repr_stream` overloads. */
  datatype Strategy =
    | ByFunction   // function type: "<function@ADDR>"
    | ByPointer    // raw pointer: "nullptr" or the pointee's rendering
    | ByText       // ostream-printable: the native text
    | ByPairs      // iterable of pairs: "{k: v, ...}"
    | ByElements   // iterable: "[e, ...]"
    | ByAddress    // anything else: "<ADDR>"

  /** The tag `overload_priority<n>` each overload takes. */
  function Priority(s: Strategy): nat
  {
    match s
    case ByFunction => 0
    case ByPointer => 1
    case ByText => 2
    case ByPairs => 3
    case ByElements => 4
    case ByAddress => 100
  }

  /** The tag the dispatcher passes: `overload_priority<0>`. */
  const CallTag: nat := 0

  /** The root of the tag hierarchy: `overload_priority<100>`. */
  const RootTag: nat := 100

  /** The tags `overload_priority<n>` converts to: itself, and, through the base
      class `overload_priority<n + 1>`, every tag above it up to the root. */
  function Bases(n: nat): set<nat>
    requires n <= RootTag
    decreases RootTag - n
  {
    if n == RootTag then {RootTag} else {n} + Bases(n + 1)
  }

  /** `overload_priority<n>` is (derived from) `overload_priority<m>` exactly when n <= m <= 100. */
  lemma {:induction false} BasesAreRange(n: nat)
    requires n <= RootTag
    ensures forall m :: m in Bases(n) <==> n <= m <= RootTag
    decreases RootTag - n
  {
    if n < RootTag {
      BasesAreRange(n + 1);
    }
  }

  /** The guard of each overload: whether its template survives substitution
      for the value's type. The fallback template has no guard. */
  predicate Applies(s: Strategy, v: Value)
    ensures s == ByAddress ==> Applies(s, v)
  {
    match s
    case ByFunction => v.isFunction
    case ByPointer => !v.pointer.NotPointer?
    case ByText => v.text.Some?
    case ByPairs => v.pairs.IteratesPairs?
    case ByElements => v.elements.Iterates?
    case ByAddress => true
  }

  /** An overload is viable for the dispatching call when its guard holds and
      the call's tag converts to the tag it takes (every tag of the six
      overloads is a base of `overload_priority<0>`). */
  predicate Viable(s: Strategy, v: Value)
  {
    Applies(s, v) && Priority(s) in Bases(CallTag)
  }

  /** The strategy the dispatcher picks: one that applies, and no applicable
      strategy has a lower number. */
  function Select(v: Value): (s: Strategy)
    ensures Applies(s, v)
    ensures forall t :: Applies(t, v) ==> Priority(s) <= Priority(t)
  {
    if v.isFunction then ByFunction
    else if !v.pointer.NotPointer? then ByPointer
    else if v.text.Some? then ByText
    else if v.pairs.IteratesPairs? then ByPairs
    else if v.elements.Iterates? then ByElements
    else ByAddress
  }

  /** The number of derived-to-base steps from `overload_priority<n>` up to
      its base `overload_priority<m>`: one per link of the chain. */
  function ConversionSteps(n: nat, m: nat): nat
    requires n <= m
    decreases m - n
  {
    if n == m then 0 else 1 + ConversionSteps(n + 1, m)
  }

  /** Each link of the chain is one step. */
  lemma {:induction false} ConversionStepsCount(n: nat, m: nat)
    requires n <= m
    ensures ConversionSteps(n, m) == m - n
    decreases m - n
  {
    if n < m {
      ConversionStepsCount(n + 1, m);
    }
  }

  /** The dispatcher's call resolves to the chosen overload: it is viable, and
      every other viable overload needs strictly more derived-to-base steps to
      convert the call's tag, so the call is never ambiguous. */
  lemma SelectResolvesOverload(v: Value)
    ensures Viable(Select(v), v)
    ensures forall t :: Viable(t, v) && t != Select(v) ==>
              ConversionSteps(CallTag, Priority(Select(v))) < ConversionSteps(CallTag, Priority(t))
  {
    BasesAreRange(CallTag);
    forall t | Viable(t, v) && t != Select(v)
      ensures ConversionSteps(CallTag, Priority(Select(v))) < ConversionSteps(CallTag, Priority(t))
    {
      ConversionStepsCount(CallTag, Priority(Select(v)));
      ConversionStepsCount(CallTag, Priority(t));
    }
  }

  /** Distinct strategies have distinct priorities, so the order is total. */
  lemma PrioritiesDistinct(s: Strategy, t: Strategy)
    ensures Priority(s) == Priority(t) <==> s == t
  {
  }

  /** The fallback applies to every value, so every value is rendered; it is
      chosen exactly when no other strategy applies. */
  lemma FallbackIsLast(v: Value)
    ensures Applies(ByAddress, v)
    ensures Select(v) == ByAddress <==> forall t :: t != ByAddress ==> !Applies(t, v)
  {
    if Select(v) != ByAddress {
      assert Applies(Select(v), v);
    }
  }
}
