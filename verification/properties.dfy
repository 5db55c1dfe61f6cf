/** What `repr` promises: which strategy wins, and the shape of what each one writes. */
module Properties {
  import opened Address
  import opened Values
  import opened Dispatch
  import opened Text
  import opened Render

  // ---------------------------------------------------------------------------
  // Functions and pointers

  /** A function value renders as its address tagged "function", whatever else
      its type supports: the function guard is checked before the pointer guard. */
  lemma FunctionComesFirst(v: Value)
    requires v.isFunction
    ensures Repr(v) == FunctionText(v.address)
    ensures v.pointer.PointsTo? ==> Select(v) == ByFunction
  {
  }

  /** Distinct functions render differently. */
  lemma FunctionsDistinguished(u: Value, v: Value)
    requires u.isFunction && v.isFunction
    ensures Repr(u) == Repr(v) <==> u.address == v.address
  {
    AddressTextInjective(u.address, v.address);
    if Repr(u) == Repr(v) {
      var a, b := AddressText(u.address), AddressText(v.address);
      assert a == Repr(u)[|FunctionPrefix|..|Repr(u)| - 1];
      assert b == Repr(v)[|FunctionPrefix|..|Repr(v)| - 1];
    }
  }

  /** As the header is written, every function that is not a stream
      manipulator renders as "<function@1>", so two distinct such functions
      cannot be told apart, while the corrected text can. */
  lemma FunctionTextAsWrittenLosesAddress(a: Addr, b: Addr)
    requires a != b
    ensures FunctionTextAsWritten(a) == FunctionTextAsWritten(b) == "<function@1>"
    ensures FunctionText(a) != FunctionText(b)
  {
    AddressTextInjective(a, b);
    assert AddressText(a) == FunctionText(a)[|FunctionPrefix|..|FunctionText(a)| - 1];
    assert AddressText(b) == FunctionText(b)[|FunctionPrefix|..|FunctionText(b)| - 1];
  }

  /** A null pointer renders as "nullptr", and there is no pointee to consult. */
  lemma NullRendersNullptr(v: Value)
    requires !v.isFunction && v.pointer.Null?
    ensures Repr(v) == "nullptr"
  {
  }

  /** A non-null pointer renders exactly as what it points to. */
  lemma PointerTransparent(v: Value)
    requires !v.isFunction && v.pointer.PointsTo?
    ensures Repr(v) == Repr(v.pointer.target)
  {
  }

  /** v starts a chain of n non-null pointers, each dereferenced once. */
  predicate NonNullChain(v: Value, n: nat)
    decreases n
  {
    n == 0 || (!v.isFunction && v.pointer.PointsTo? && NonNullChain(v.pointer.target, n - 1))
  }

  /** The value reached after following n non-null pointers from v. */
  function ChainEnd(v: Value, n: nat): Value
    requires NonNullChain(v, n)
    decreases n
  {
    if n == 0 then v else ChainEnd(v.pointer.target, n - 1)
  }

  /** A finite chain of non-null pointers renders as its final target. */
  lemma {:induction false} PointerChainTransparent(v: Value, n: nat)
    requires NonNullChain(v, n)
    ensures Repr(v) == Repr(ChainEnd(v, n))
    decreases n
  {
    if n > 0 {
      PointerTransparent(v);
      PointerChainTransparent(v.pointer.target, n - 1);
    }
  }

  // ---------------------------------------------------------------------------
  // Printable values

  /** A printable value renders as its native text, unchanged, even when its
      type is iterable as well. */
  lemma PrintableRendersNativeText(v: Value)
    requires !v.isFunction && v.pointer.NotPointer? && v.text.Some?
    ensures Repr(v) == v.text.value
    ensures v.elements.Iterates? ==> Repr(v) == Repr(v.(elements := NotIterable))
  {
  }

  /** An `std::string` holding "foobar" is both printable and iterable (over its
      characters) and renders as foobar, not as a list. */
  lemma StdStringRendersAsText(chars: seq<Value>, address: Addr)
    ensures Repr(Value(false, NotPointer, Some("foobar"), NoPairs, Iterates(chars), address)) == "foobar"
  {
  }

  // ---------------------------------------------------------------------------
  // Iterables of pairs

  /** An empty iterable of pairs renders as "{}". */
  lemma EmptyPairsRender(v: Value)
    requires Select(v) == ByPairs && v.pairs.entries == []
    ensures Repr(v) == "{}"
  {
  }

  /** When a value iterates both as pairs and as plain elements, the pair form
      wins and the plain iteration plays no part. */
  lemma PairsBeatElements(v: Value)
    requires !v.isFunction && v.pointer.NotPointer? && v.text.None?
    requires v.pairs.IteratesPairs? && v.elements.Iterates?
    ensures Select(v) == ByPairs
    ensures Repr(v) == Repr(v.(elements := NotIterable))
    ensures Repr(v)[0] == '{' && Repr(v)[|Repr(v)| - 1] == '}'
  {
  }

  /** One pair renders as "{k: v}". */
  lemma SinglePairRender(v: Value, e: Entry)
    requires Select(v) == ByPairs && v.pairs.entries == [e]
    ensures Repr(v) == "{" + Repr(e.key) + ": " + Repr(e.mapped) + "}"
  {
    assert EntryTexts(v) == [EntryText(e)];
  }

  /** The first pair of several is written first, "key: value", and is followed
      by ", " and the rendering of the remaining pairs, in iteration order. */
  lemma PairsCons(v: Value, e: Entry, rest: seq<Entry>)
    requires Select(v) == ByPairs && |rest| > 0
    ensures var whole := Repr(v.(pairs := IteratesPairs([e] + rest)));
            var tail := Repr(v.(pairs := IteratesPairs(rest)));
            |tail| > 0 && whole == "{" + EntryText(e) + ", " + tail[1..]
  {
    var w := v.(pairs := IteratesPairs([e] + rest));
    var t := v.(pairs := IteratesPairs(rest));
    assert EntryTexts(w) == [EntryText(e)] + EntryTexts(t);
    BracketedCons('{', "}", ", ", EntryText(e), EntryTexts(t));
  }

  // ---------------------------------------------------------------------------
  // Plain iterables

  /** An empty iterable renders as "[]". */
  lemma EmptyElementsRender(v: Value)
    requires Select(v) == ByElements && v.elements.items == []
    ensures Repr(v) == "[]"
  {
  }

  /** One element renders as "[e]": no separator before or after it. */
  lemma SingleElementRender(v: Value, x: Value)
    requires Select(v) == ByElements && v.elements.items == [x]
    ensures Repr(v) == "[" + Repr(x) + "]"
  {
    assert ElementTexts(v) == [Repr(x)];
  }

  /** The rendering of a concatenation is the two renderings spliced with one
      ", " between them: the separator sits only between adjacent elements and
      iteration order is kept. */
  lemma {:induction false} ElementsAppend(v: Value, xs: seq<Value>, ys: seq<Value>)
    requires Select(v) == ByElements && |xs| > 0 && |ys| > 0
    ensures var whole := Repr(v.(elements := Iterates(xs + ys)));
            var left := Repr(v.(elements := Iterates(xs)));
            var right := Repr(v.(elements := Iterates(ys)));
            |left| > 0 && |right| > 0 && whole == left[..|left| - 1] + ", " + right[1..]
  {
    var w := v.(elements := Iterates(xs + ys));
    var l := v.(elements := Iterates(xs));
    var r := v.(elements := Iterates(ys));
    assert ElementTexts(w) == ElementTexts(l) + ElementTexts(r);
    BracketedAppend('[', ']', ", ", ElementTexts(l), ElementTexts(r));
  }

  /** A non-empty list of n elements is as long as its children's renderings
      plus two brackets plus n - 1 separators. */
  lemma ElementsLength(v: Value)
    requires Select(v) == ByElements && |v.elements.items| > 0
    ensures |Repr(v)| == TotalLength(ElementTexts(v)) + 2 + 2 * (|v.elements.items| - 1)
  {
    JoinLength(", ", ElementTexts(v));
  }

  // ---------------------------------------------------------------------------
  // Composition

  /** A list depends only on its children's renderings: each child goes through
      its own top-level call, so nothing else about the children shows. */
  lemma ElementsDependOnlyOnChildTexts(u: Value, v: Value)
    requires Select(u) == ByElements && Select(v) == ByElements
    requires |u.elements.items| == |v.elements.items|
    requires forall i :: 0 <= i < |u.elements.items| ==> Repr(u.elements.items[i]) == Repr(v.elements.items[i])
    ensures Repr(u) == Repr(v)
  {
    assert ElementTexts(u) == ElementTexts(v);
  }

  /** A map-like value depends only on the renderings of its keys and values. */
  lemma PairsDependOnlyOnChildTexts(u: Value, v: Value)
    requires Select(u) == ByPairs && Select(v) == ByPairs
    requires |u.pairs.entries| == |v.pairs.entries|
    requires forall i :: 0 <= i < |u.pairs.entries| ==>
               Repr(u.pairs.entries[i].key) == Repr(v.pairs.entries[i].key) &&
               Repr(u.pairs.entries[i].mapped) == Repr(v.pairs.entries[i].mapped)
    ensures Repr(u) == Repr(v)
  {
    assert EntryTexts(u) == EntryTexts(v);
  }

  // ---------------------------------------------------------------------------
  // Fallback

  /** A value with no capability renders as its address in angle brackets. */
  lemma FallbackRender(v: Value)
    requires !v.isFunction && v.pointer.NotPointer? && v.text.None?
    requires v.pairs.NoPairs? && v.elements.NotIterable?
    ensures Repr(v) == FallbackText(v.address)
  {
  }

  /** Two fallback values render alike exactly when they are stored at the same
      address; a fallback rendering never looks like a function's. */
  lemma FallbackDistinguishesAddresses(u: Value, v: Value)
    requires Select(u) == ByAddress && Select(v) == ByAddress
    ensures Repr(u) == Repr(v) <==> u.address == v.address
    ensures Repr(u) != FunctionText(v.address)
  {
    AddressTextInjective(u.address, v.address);
    AddressRoundTrip(u.address);
    if Repr(u) == Repr(v) {
      assert AddressText(u.address) == Repr(u)[1..|Repr(u)| - 1];
      assert AddressText(v.address) == Repr(v)[1..|Repr(v)| - 1];
    }
    assert Repr(u)[1] == '0';
    assert FunctionText(v.address)[1] == 'f';
  }

  // ---------------------------------------------------------------------------
  // Worked examples

  /** A `std::vector<int>` holding 1, 2, 3 renders as "[1, 2, 3]". */
  lemma VectorExample(a: Addr, b: Addr, c: Addr, address: Addr)
    ensures Repr(Sequence([Printable("1", a), Printable("2", b), Printable("3", c)], address)) == "[1, 2, 3]"
  {
    var v := Sequence([Printable("1", a), Printable("2", b), Printable("3", c)], address);
    PrintableRendersNativeText(Printable("1", a));
    PrintableRendersNativeText(Printable("2", b));
    PrintableRendersNativeText(Printable("3", c));
    assert ElementTexts(v) == ["1", "2", "3"];
    assert Join(", ", ["3"]) == "3";
    assert Join(", ", ["2", "3"]) == "2" + ", " + "3";
    assert Join(", ", ["1", "2", "3"]) == "1" + ", " + "2, 3";
  }

  /** A `std::map<int, std::string>` holding 1 -> "one" and 2 -> "two" iterates
      both as pairs and as `std::pair` elements, and renders as "{1: one, 2: two}":
      the strings are written as they are, without quotes. */
  lemma MapExample(a: Addr, b: Addr, c: Addr, d: Addr, p: Addr, q: Addr, address: Addr)
    ensures var entries := [Entry(Printable("1", a), Printable("one", b)), Entry(Printable("2", c), Printable("two", d))];
            Repr(Value(false, NotPointer, None, IteratesPairs(entries), Iterates([Opaque(p), Opaque(q)]), address))
              == "{1: one, 2: two}"
  {
    var entries := [Entry(Printable("1", a), Printable("one", b)), Entry(Printable("2", c), Printable("two", d))];
    var v := Value(false, NotPointer, None, IteratesPairs(entries), Iterates([Opaque(p), Opaque(q)]), address);
    PrintableRendersNativeText(Printable("1", a));
    PrintableRendersNativeText(Printable("one", b));
    PrintableRendersNativeText(Printable("2", c));
    PrintableRendersNativeText(Printable("two", d));
    assert EntryText(entries[0]) == "1: one";
    assert EntryText(entries[1]) == "2: two";
    assert EntryTexts(v) == ["1: one", "2: two"];
    assert Join(", ", ["1: one", "2: two"]) == "1: one" + ", " + "2: two";
    PairsBeatElements(v);
  }

  /** A null pointer and a pointer to a pointer to an `int` holding 7. */
  lemma PointerExample(a: Addr, b: Addr, c: Addr)
    ensures Repr(PointerTo(None, a)) == "nullptr"
    ensures Repr(PointerTo(Some(PointerTo(Some(Printable("7", c)), b)), a)) == "7"
  {
    var inner := PointerTo(Some(Printable("7", c)), b);
    PointerTransparent(PointerTo(Some(inner), a));
    PointerTransparent(inner);
    PrintableRendersNativeText(Printable("7", c));
  }
}
