/** The streaming form of the renderer: `repr` opens a fresh buffer, and the
    chosen `repr_stream` overload appends to it piece by piece, with a
    `needs_comma` flag in the container loops. Each method here computes
    exactly what `Render.Repr` describes. */
module Stream {
  import opened Address
  import opened Values
  import opened Dispatch
  import opened Text
  import opened Render

  /** `repr(x)`: a fresh, empty buffer, one dispatch, and the buffer's contents. */
  method ReprMethod(v: Value) returns (s: string)
    ensures s == Repr(v)
    decreases v, 2
  {
    s := ReprStream("", v);
  }

  /** `repr_stream(out, x)`: appends the rendering of v to the buffer out. */
  method ReprStream(out: string, v: Value) returns (res: string)
    ensures res == out + Repr(v)
    decreases v, 1
  {
    match Select(v)
    case ByFunction =>
      res := out + ("<function@" + AddressText(v.address) + ">");
    case ByPointer =>
      if v.pointer.Null? {
        res := out + "nullptr";
      } else {
        var inner := ReprMethod(v.pointer.target);
        res := out + inner;
      }
    case ByText =>
      res := out + v.text.value;
    case ByPairs =>
      res := StreamPairs(out, v);
    case ByElements =>
      res := StreamElements(out, v);
    case ByAddress =>
      res := out + ("<" + AddressText(v.address) + ">");
  }

  /** The iterable-of-pairs overload: "{", then each pair as "key: value" with
      ", " written before every pair but the first, then "}". */
  method StreamPairs(out: string, v: Value) returns (res: string)
    requires v.pairs.IteratesPairs?
    ensures res == out + ("{" + Join(", ", EntryTexts(v)) + "}")
    decreases v, 0
  {
    var es := v.pairs.entries;
    var needsComma := false;
    res := out + "{";
    var i := 0;
    while i < |es|
      invariant 0 <= i <= |es|
      invariant needsComma <==> i > 0
      invariant res == out + "{" + Join(", ", EntryTexts(v)[..i])
    {
      var text := StreamEntry(es[i]);
      JoinStep(", ", out + "{", EntryTexts(v), i);
      if needsComma {
        res := res + ", " + text;
      } else {
        res := res + text;
      }
      needsComma := true;
      i := i + 1;
    }
    assert EntryTexts(v)[..i] == EntryTexts(v);
    res := res + "}";
  }

  /** One pair of the iterable-of-pairs overload: the key and the value, each
      rendered by its own call of `repr`, with ": " between them. */
  method StreamEntry(e: Entry) returns (text: string)
    ensures text == EntryText(e)
    decreases e, 3
  {
    var key := ReprMethod(e.key);
    var mapped := ReprMethod(e.mapped);
    text := key + ": " + mapped;
  }

  /** The iterable overload: "[", then each element's rendering with ", "
      written before every element but the first, then "]". */
  method StreamElements(out: string, v: Value) returns (res: string)
    requires v.elements.Iterates?
    ensures res == out + ("[" + Join(", ", ElementTexts(v)) + "]")
    decreases v, 0
  {
    var xs := v.elements.items;
    var needsComma := false;
    res := out + "[";
    var i := 0;
    while i < |xs|
      invariant 0 <= i <= |xs|
      invariant needsComma <==> i > 0
      invariant res == out + "[" + Join(", ", ElementTexts(v)[..i])
    {
      var text := ReprMethod(xs[i]);
      JoinStep(", ", out + "[", ElementTexts(v), i);
      if needsComma {
        res := res + ", " + text;
      } else {
        res := res + text;
      }
      needsComma := true;
      i := i + 1;
    }
    assert ElementTexts(v)[..i] == ElementTexts(v);
    res := res + "]";
  }
}
