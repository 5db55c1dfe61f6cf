/** What `repr(x)` returns: the dispatcher picks one strategy and the strategy
    writes the value, rendering every child with a fresh call of `repr`. */
module Render {
  import opened Address
  import opened Values
  import opened Dispatch
  import opened Text

  /** What the function strategy writes before the function's address. */
  const FunctionPrefix: string := "<function@"

  /** The function strategy's text: the function's address in angle brackets. */
  function FunctionText(a: Addr): string
  {
    FunctionPrefix + AddressText(a) + ">"
  }

  /** How `std::ostream` writes a bool when `boolalpha` is not set. */
  function StreamBool(b: bool): string
  {
    if b then "1" else "0"
  }

  /** The function strategy's text as the header writes it, for a function
      that is not a stream manipulator: `&x` is a pointer to a function, which
      has no implicit conversion to `const void*`, so the stream takes it
      through its bool inserter. A function's address is never null, so the
      text is the same for every such function. (A manipulator-typed function
      would instead be called on the stream; values here do not carry a
      function's type.) */
  function FunctionTextAsWritten(a: Addr): (r: string)
    ensures r == FunctionPrefix + "1" + ">"
  {
    FunctionPrefix + StreamBool(a != 0) + ">"
  }

  /** The fallback strategy's text: the object's address in angle brackets. */
  function FallbackText(a: Addr): string
  {
    "<" + AddressText(a) + ">"
  }

  /** The rendering of a value: the text the strategy `Select(v)` writes.
      Containers are bracketed, and the function and fallback texts are an
      address inside angle brackets. */
  function Repr(v: Value): (r: string)
    ensures Select(v) == ByFunction ==>
              |r| > |FunctionPrefix| && r[..|FunctionPrefix|] == FunctionPrefix && r[|r| - 1] == '>'
    ensures Select(v) == ByPairs ==> |r| >= 2 && r[0] == '{' && r[|r| - 1] == '}'
    ensures Select(v) == ByElements ==> |r| >= 2 && r[0] == '[' && r[|r| - 1] == ']'
    ensures Select(v) == ByAddress ==> |r| >= 2 && r[0] == '<' && r[|r| - 1] == '>' && IsAddressText(r[1..|r| - 1])
    ensures Select(v) == ByPointer && v.pointer.Null? ==> r == "nullptr"
    decreases v, 1
  {
    match Select(v)
    case ByFunction => FunctionText(v.address)
    case ByPointer => if v.pointer.Null? then "nullptr" else Repr(v.pointer.target)
    case ByText => v.text.value
    case ByPairs => "{" + Join(", ", EntryTexts(v)) + "}"
    case ByElements => "[" + Join(", ", ElementTexts(v)) + "]"
    case ByAddress =>
      assert FallbackText(v.address)[1..|FallbackText(v.address)| - 1] == AddressText(v.address);
      FallbackText(v.address)
  }

  /** The text of one pair: its key and its value, each rendered on its own. */
  function EntryText(e: Entry): string
    decreases e, 2
  {
    Repr(e.key) + ": " + Repr(e.mapped)
  }

  /** The text of each pair, in iteration order. */
  function EntryTexts(v: Value): seq<string>
    requires v.pairs.IteratesPairs?
    decreases v, 0
  {
    var es := v.pairs.entries;
    seq(|es|, i requires 0 <= i < |es| => EntryText(es[i]))
  }

  /** The rendering of each element, in iteration order. */
  function ElementTexts(v: Value): seq<string>
    requires v.elements.Iterates?
    decreases v, 0
  {
    var xs := v.elements.items;
    seq(|xs|, i requires 0 <= i < |xs| => Repr(xs[i]))
  }
}
