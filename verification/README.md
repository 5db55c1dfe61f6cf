# repr: a model of the value-to-string renderer

`repr(x)` (include/repr.hpp) turns any C++ value into a debugging string
without per-type formatting code. It opens a fresh `std::ostringstream`,
hands the value to `repr_stream`, and returns the buffer unchanged. The
dispatching `repr_stream` calls one of six strategy overloads. Each overload
takes a tag `overload_priority<n>`, and the tags form a derived-to-base
chain from 0 up to 100. The lowest-numbered overload whose template guard
accepts the type therefore wins:

| n | strategy | output |
|---|---|---|
| 0 | function type | `<function@ADDR>` |
| 1 | raw pointer | `nullptr`, or the rendering of the pointee |
| 2 | `std::ostream`-printable | what `out << x` writes |
| 3 | iterable of pairs | `{k: v, ...}` |
| 4 | iterable | `[e, ...]` |
| 100 | anything | `<ADDR>` |

Containers and pointers render every child with a fresh call of `repr` and
append the result.

The model is a Dafny project:

- `values.dfy` (`Values`): a value is a finite tree. Each node carries one
  field per strategy guard. The fields say whether the type is a function
  type, a raw pointer (null, or with its pointee), printable (with its
  native text), iterable as pairs (with the pairs), or iterable (with the
  elements). Every node also has a storage address.
- `dispatch.dfy` (`Dispatch`): the strategies, their tags, the
  `overload_priority` chain, the guards, and `Select`, the overload the
  dispatching call resolves to.
- `render.dfy` (`Render`): `Repr`, the rendering as a pure recursive
  function. The other modules are proved equal to it, or prove facts about it.
- `stream.dfy` (`Stream`): the header's own buffer-appending shape. The
  container loops carry the `needs_comma` flag. Each method is proved to
  produce exactly `Repr`.
- `text.dfy` (`Text`): `Join`, the separator placement the loops produce.
- `address.dfy` (`Address`): an address is written as `std::ostream` writes
  a `const void*`: "0x" followed by lower-case hexadecimal digits. This text
  reads back to the address.
- `properties.dfy` (`Properties`): the promises of the renderer, plus a few
  worked examples.

This header version has no string quoting, no tuple strategy, no `<...>`
bracketing of list elements, no whitespace trimming, no `true`/`false`
rule for booleans, and no LLVM extension. Later versions of the library
describe all of these. The model follows the header as written: a
`std::string` renders as its text without quotes, and a map of strings
renders as `{1: one, 2: two}`.

## Model

| member | source | states |
|---|---|---|
| Render.Repr | include/repr.hpp:40-115 | the rendering of a value by the strategy the dispatcher picks: an iterable of pairs is braced, an iterable is bracketed, a function or fallback text is an address in angle brackets, and a null pointer is `nullptr` |
| Render.FunctionTextAsWritten | include/repr.hpp:47-47 | as written, the function text of a function that is not a stream manipulator is `<function@1>` whatever its address, because the function pointer is written through the bool inserter |
| Dispatch.Applies | include/repr.hpp:43-106 | the guard of each overload on the value's capabilities; the fallback's template has no guard, so it accepts every value |
| Address.AddressText | include/repr.hpp:108-108 | `out << &x` writes an address as "0x" plus hexadecimal digits, a text that reads back as the address |
| Dispatch.ConversionStepsCount | include/repr.hpp:32-34 | converting `overload_priority<n>` to its base `overload_priority<m>` takes one derived-to-base step per link, m - n in all |
| Dispatch.BasesAreRange | include/repr.hpp:26-34 | `overload_priority<n>` converts to `overload_priority<m>` exactly when n <= m <= 100 |
| Dispatch.Select | include/repr.hpp:104-115 | the chosen strategy applies to the value, and no applicable strategy has a lower number; the fallback makes the choice total |
| Dispatch.SelectResolvesOverload | include/repr.hpp:112-115 | the dispatching call with `overload_priority<0>` has the chosen overload as a viable candidate, and every other viable candidate needs strictly more derived-to-base steps, so the call is never ambiguous |
| Dispatch.PrioritiesDistinct | include/repr.hpp:40-109 | the six overloads take six distinct tags, so the order is total |
| Dispatch.FallbackIsLast | include/repr.hpp:104-109 | the fallback accepts every value, and it is chosen exactly when no other strategy applies |
| Properties.FunctionComesFirst | include/repr.hpp:40-48 | a function value renders as `<function@ADDR>` whatever else it supports; the function guard comes before the pointer guard |
| Properties.FunctionsDistinguished | include/repr.hpp:45-48 | two function values render alike exactly when they have the same address |
| Properties.FunctionTextAsWrittenLosesAddress | include/repr.hpp:47-47 | as written, every function that is not a stream manipulator renders as `<function@1>`, so distinct such functions collide; the corrected text tells them apart |
| Properties.NullRendersNullptr | include/repr.hpp:54-55 | a null pointer renders exactly as `nullptr`, and no pointee is consulted |
| Properties.PointerTransparent | include/repr.hpp:56-57 | a non-null pointer renders exactly as its pointee |
| Properties.PointerChainTransparent | include/repr.hpp:51-58 | a finite chain of non-null pointers renders as its final target |
| Properties.PrintableRendersNativeText | include/repr.hpp:60-65 | a printable value renders as its native text, unchanged, even when it is also iterable |
| Properties.StdStringRendersAsText | unittests/StdlibTests.cpp:5-9 | an `std::string` holding foobar renders as `foobar`, not as a list of characters |
| Properties.EmptyPairsRender | include/repr.hpp:72-83 | an empty iterable of pairs renders as `{}` |
| Properties.PairsBeatElements | include/repr.hpp:67-70 | a value iterable both as pairs and as elements renders in the pair form, and its plain iteration plays no part |
| Properties.SinglePairRender | include/repr.hpp:72-83 | one pair renders as `{k: v}`, with no separator |
| Properties.PairsCons | include/repr.hpp:75-81 | the first pair is written first as `k: v`, followed by `, ` and the remaining pairs in iteration order |
| Properties.EmptyElementsRender | include/repr.hpp:90-101 | an empty iterable renders as `[]` |
| Properties.SingleElementRender | include/repr.hpp:90-101 | one element renders as `[e]`, with no separator before or after it |
| Properties.ElementsAppend | include/repr.hpp:93-99 | the rendering of `xs + ys` splices the two renderings with exactly one `, ` between them, in iteration order |
| Properties.ElementsLength | include/repr.hpp:90-101 | a list of n > 0 elements is as long as its children's texts plus two brackets plus n - 1 separators |
| Properties.ElementsDependOnlyOnChildTexts | include/repr.hpp:93-98 | two lists whose children render alike, position by position, render alike |
| Properties.PairsDependOnlyOnChildTexts | include/repr.hpp:75-80 | two iterables of pairs whose keys and values render alike, position by position, render alike |
| Properties.FallbackRender | include/repr.hpp:104-109 | a value with no capability renders as `<ADDR>` |
| Properties.FallbackDistinguishesAddresses | include/repr.hpp:106-109 | two fallback values render alike exactly when they share an address, and a fallback rendering never equals a function rendering |
| Properties.VectorExample | include/repr.hpp:86-102 | a vector of 1, 2, 3 renders as `[1, 2, 3]` |
| Properties.MapExample | include/repr.hpp:67-84 | a map 1 -> one, 2 -> two renders as `{1: one, 2: two}`, and the strings are not quoted |
| Properties.PointerExample | include/repr.hpp:51-58 | a null pointer renders as `nullptr`, and a pointer to a pointer to 7 renders as `7` |
| Stream.ReprMethod | include/repr.hpp:17-22 | `repr` with a fresh buffer returns exactly the rendering `Repr` |
| Stream.ReprStream | include/repr.hpp:112-115 | dispatching appends exactly the value's rendering to whatever the buffer already holds |
| Stream.StreamPairs | include/repr.hpp:67-84 | the `needs_comma` loop over pairs writes `{`, the pair texts joined by `, `, then `}` |
| Stream.StreamEntry | include/repr.hpp:79-79 | one pair is written as its key's rendering, `: `, and its value's rendering |
| Stream.StreamElements | include/repr.hpp:86-102 | the `needs_comma` loop over elements writes `[`, the element renderings joined by `, `, then `]` |
| Text.JoinStep | include/repr.hpp:93-98 | one loop step adds the next text, preceded by `, ` exactly when it is not the first |
| Text.JoinSnoc | include/repr.hpp:76-80 | appending one more text adds exactly one separator, directly before it |
| Text.JoinAppend | include/repr.hpp:93-99 | joining a concatenation puts exactly one separator between the two joined halves |
| Text.JoinLength | include/repr.hpp:93-99 | n > 0 texts joined carry exactly n - 1 separators |
| Text.JoinEnds | include/repr.hpp:93-99 | the joined text starts with the first text and ends with the last, with no separator before or after |
| Address.HexRoundTrip | include/repr.hpp:108-108 | the hexadecimal digits of an address read back as the address |
| Address.AddressRoundTrip | include/repr.hpp:108-108 | an address text is "0x" plus hexadecimal digits, contains no `>`, and reads back as the address |
| Address.AddressTextInjective | include/repr.hpp:108-108 | two addresses are written alike exactly when they are equal |

## Left out

- The C++ template machinery (`val<T>()`, the `decltype` and `enable_if` guards, derived-to-base ranking) is not modelled. Explicit capability fields on the value replace it, and `Dispatch.Bases` models only the resulting order.
- The capability fields are independent. The model admits combinations no C++ type has, for example a pointer that is also iterable. The priority order decides these cases the same way.
- `std::ostream` formatting of numbers, booleans and pointers is not modelled: a printable value's text is a given string. The header never sets `boolalpha`, so there is no `true`/`false` rule.
- Real memory addresses are not modelled. An address is a positive number, because objects and functions are never null. It is written as libstdc++ writes a `const void*`; that format is implementation-defined.
- Cyclic structures are left out. Values are finite trees, so the unbounded recursion a cycle causes cannot be expressed.
- The `char*`, `volatile char*` and `const char[]` expectations in unittests/StdlibTests.cpp:11-27 are not encoded, because they target a later header. Under this header, a `char*` takes the pointer overload and renders its first character, and a char array reaches only the fallback.
- unittests/LLVMTests.cpp is not part of this model. It needs an LLVM extension that this header does not have.
- Render.FunctionTextAsWritten: covers only functions that are not stream manipulators. A value does not carry a function's type. A function of type `std::ostream&(std::ostream&)`, `std::ios&(std::ios&)` or `std::ios_base&(std::ios_base&)` takes the stream's manipulator inserter at line 47. That inserter calls the function on the stream, so `repr(std::hex)` is `<function@>`.
- Findings describes the function-address discrepancy. `Render.Repr` and `Stream.ReprStream` use the corrected function text.

## Findings

| source | as written | input that shows it | evidently intended | confidence | as-written member | corrected member |
|---|---|---|---|---|---|---|
| include/repr.hpp:47 | `out << &x` for a function `x` that is not a stream manipulator: a function pointer has no implicit conversion to `const void*`, so the stream takes it through its `bool` inserter and writes `1` | any two distinct functions `f` and `g` of type `int(int)`: both render as `<function@1>` | `<function@` + the function's address + `>`, as the comment and the fallback strategy suggest | medium (GCC and Clang conversion rules), not executed | Render.FunctionTextAsWritten, shown by Properties.FunctionTextAsWrittenLosesAddress | Render.FunctionText, proved injective by Properties.FunctionsDistinguished |
