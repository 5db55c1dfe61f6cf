/** Joining already-rendered child strings, as the container strategies do. */
module Text {

  /** The parts in order, with `sep` between each adjacent pair and nowhere else. */
  function Join(sep: string, parts: seq<string>): string
  {
    if |parts| == 0 then ""
    else if |parts| == 1 then parts[0]
    else parts[0] + sep + Join(sep, parts[1..])
  }

  /** The sum of the lengths of the parts. */
  function TotalLength(parts: seq<string>): nat
  {
    if |parts| == 0 then 0 else |parts[0]| + TotalLength(parts[1..])
  }

  /** Appending one more part adds exactly one separator, in front of it:
      this is the step the streaming loops take with their `needs_comma` flag. */
  lemma {:induction false} JoinSnoc(sep: string, parts: seq<string>, p: string)
    requires |parts| > 0
    ensures Join(sep, parts + [p]) == Join(sep, parts) + sep + p
  {
    if |parts| == 1 {
      assert (parts + [p])[1..] == [p];
    } else {
      assert (parts + [p])[1..] == parts[1..] + [p];
      JoinSnoc(sep, parts[1..], p);
    }
  }

  /** One step of a streaming loop over parts: the text written so far for the
      first i parts grows by the next part, preceded by the separator unless it is the first. */
  lemma JoinStep(sep: string, start: string, parts: seq<string>, i: nat)
    requires i < |parts|
    ensures start + Join(sep, parts[..i + 1])
         == if i == 0 then start + Join(sep, parts[..i]) + parts[i]
            else start + Join(sep, parts[..i]) + sep + parts[i]
  {
    assert parts[..i + 1] == parts[..i] + [parts[i]];
    if i == 0 {
      assert parts[..i + 1] == [parts[i]];
    } else {
      JoinSnoc(sep, parts[..i], parts[i]);
    }
  }

  /** Joining a concatenation is joining the halves with one separator between them. */
  lemma {:induction false} JoinAppend(sep: string, a: seq<string>, b: seq<string>)
    requires |a| > 0 && |b| > 0
    ensures Join(sep, a + b) == Join(sep, a) + sep + Join(sep, b)
  {
    if |a| == 1 {
      assert (a + b)[1..] == b;
    } else {
      assert (a + b)[1..] == a[1..] + b;
      JoinAppend(sep, a[1..], b);
    }
  }

  /** A bracketed join that gains a part in front: the new part and one
      separator follow the opening bracket, then the old text without its bracket. */
  lemma BracketedCons(open: char, close: string, sep: string, head: string, rest: seq<string>)
    requires |rest| > 0
    ensures [open] + Join(sep, [head] + rest) + close == [open] + head + sep + ([open] + Join(sep, rest) + close)[1..]
  {
    assert ([head] + rest)[1..] == rest;
    assert ([open] + Join(sep, rest) + close)[1..] == Join(sep, rest) + close;
  }

  /** Two bracketed joins spliced into one: drop the first one's closing
      bracket and the second one's opening bracket, and put one separator between. */
  lemma BracketedAppend(open: char, close: char, sep: string, a: seq<string>, b: seq<string>)
    requires |a| > 0 && |b| > 0
    ensures var left := [open] + Join(sep, a) + [close];
            var right := [open] + Join(sep, b) + [close];
            [open] + Join(sep, a + b) + [close] == left[..|left| - 1] + sep + right[1..]
  {
    JoinAppend(sep, a, b);
    var left := [open] + Join(sep, a) + [close];
    var right := [open] + Join(sep, b) + [close];
    assert left[..|left| - 1] == [open] + Join(sep, a);
    assert right[1..] == Join(sep, b) + [close];
  }

  /** n parts carry exactly n - 1 separators: nothing before the first part, nothing after the last. */
  lemma {:induction false} JoinLength(sep: string, parts: seq<string>)
    requires |parts| > 0
    ensures |Join(sep, parts)| == TotalLength(parts) + (|parts| - 1) * |sep|
  {
    if |parts| > 1 {
      JoinLength(sep, parts[1..]);
    }
  }

  /** The joined text starts with the first part and ends with the last one. */
  lemma {:induction false} JoinEnds(sep: string, parts: seq<string>)
    requires |parts| > 0
    ensures |parts[0]| <= |Join(sep, parts)|
    ensures Join(sep, parts)[..|parts[0]|] == parts[0]
    ensures |parts[|parts| - 1]| <= |Join(sep, parts)|
    ensures Join(sep, parts)[|Join(sep, parts)| - |parts[|parts| - 1]|..] == parts[|parts| - 1]
  {
    if |parts| > 1 {
      var init := parts[..|parts| - 1];
      var last := parts[|parts| - 1];
      assert init + [last] == parts;
      JoinSnoc(sep, init, last);
      var j := Join(sep, parts);
      assert j == parts[0] + (sep + Join(sep, parts[1..]));
    }
  }
}
