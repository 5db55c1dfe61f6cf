/** The values `repr` is asked to describe.

    In C++ the strategy is chosen from the static type of the argument; here a
    value carries that type's capabilities explicitly, one field per strategy
    guard, together with the concrete data each strategy reads. Values are
    finite trees, so every rendering terminates. */
module Values {
  import opened Address

  datatype Option<+T> = None | Some(value: T)

  /** Whether the value is a raw pointer `T*`, and if it is, whether it is null. */
  datatype Pointer = NotPointer | Null | PointsTo(target: Value)

  /** One element of an iterable of pairs: its `.first` and its `.second`. */
  datatype Entry = Entry(key: Value, mapped: Value)

  /** Whether the value iterates with elements that have `.first` and `.second`, and if so which. */
  datatype Pairs = NoPairs | IteratesPairs(entries: seq<Entry>)

  /** Whether the value has `begin()`, and if so what iterating it yields. */
  datatype Elements = NotIterable | Iterates(items: seq<Value>)

  /** A value of some C++ type:
      - isFunction: the type is a function type (`std::is_function`);
      - pointer: the type is a raw pointer, and the pointee if it is not null;
      - text: the type can be written to an `std::ostream`, and what `out << x` writes;
      - pairs: the type iterates with elements that have `.first` and `.second`;
      - elements: the type has `begin()`, and what iterating it yields;
      - address: where the value is stored. */
  datatype Value = Value(
    isFunction: bool,
    pointer: Pointer,
    text: Option<string>,
    pairs: Pairs,
    elements: Elements,
    address: Addr)

  /** A value of a type with no capability at all, say a plain struct. */
  function Opaque(address: Addr): Value
  {
    Value(false, NotPointer, None, NoPairs, NotIterable, address)
  }

  /** A value whose type is only `std::ostream`-printable, say an `int`. */
  function Printable(text: string, address: Addr): Value
  {
    Value(false, NotPointer, Some(text), NoPairs, NotIterable, address)
  }

  /** A value whose type is only iterable, say a `std::vector`. */
  function Sequence(elements: seq<Value>, address: Addr): Value
  {
    Value(false, NotPointer, None, NoPairs, Iterates(elements), address)
  }

  /** A raw pointer to `target`, or a null pointer. */
  function PointerTo(target: Option<Value>, address: Addr): Value
  {
    Value(false, if target.Some? then PointsTo(target.value) else Null, None, NoPairs, NotIterable, address)
  }
}
