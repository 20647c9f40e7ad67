/** Byte offsets to lines and columns: the three resolvers the tools use, and their agreement. */
module Lines {
  import opened Wrappers

  const NEWLINE: Byte := 10

  /** The newlines in a text. */
  function Newlines(src: seq<Byte>): nat {
    if src == [] then 0 else Newlines(src[..|src| - 1]) + (if src[|src| - 1] == NEWLINE then 1 else 0)
  }

  /** Where the last line of a text starts. */
  function LastLineStart(src: seq<Byte>): (n: nat)
    ensures n <= |src|
  {
    if src == [] then 0 else if src[|src| - 1] == NEWLINE then |src| else LastLineStart(src[..|src| - 1])
  }

  function Clamp(offset: nat, n: nat): nat { if offset < n then offset else n }

  /** One-based line and column by counting over the bytes before the offset. */
  function Presented(src: seq<Byte>, offset: nat): (nat, nat) {
    var before := src[..Clamp(offset, |src|)];
    (Newlines(before) + 1, match LastNewline(before) case None => |before| + 1 case Some(i) => |before| - i)
  }

  /** The position of the last newline. */
  function LastNewline(src: seq<Byte>): (i: Option<nat>)
    ensures i.Some? ==> i.value < |src|
  {
    if src == [] then None
    else if src[|src| - 1] == NEWLINE then Some(|src| - 1)
    else LastNewline(src[..|src| - 1])
  }

  lemma {:induction false} LastNewlineStartsLine(src: seq<Byte>)
    ensures LastLineStart(src) == match LastNewline(src) case None => 0 case Some(i) => i + 1
  {
    if src != [] && src[|src| - 1] != NEWLINE {
      LastNewlineStartsLine(src[..|src| - 1]);
    }
  }

  lemma NothingScanned(src: seq<Byte>)
    ensures Newlines(src[..0]) == 0 && LastLineStart(src[..0]) == 0
  {
  }

  lemma OneScanned(src: seq<Byte>, i: nat)
    requires i < |src|
    ensures Newlines(src[..i + 1]) == Newlines(src[..i]) + (if src[i] == NEWLINE then 1 else 0)
    ensures LastLineStart(src[..i + 1]) == if src[i] == NEWLINE then i + 1 else LastLineStart(src[..i])
  {
    assert src[..i + 1][..i] == src[..i];
  }

  lemma PresentedAt(src: seq<Byte>, offset: nat)
    ensures var at := Clamp(offset, |src|);
            Presented(src, offset) == (Newlines(src[..at]) + 1, at - LastLineStart(src[..at]) + 1)
  {
    LastNewlineStartsLine(src[..Clamp(offset, |src|)]);
    hide Newlines, LastLineStart, LastNewline;
  }

  /** The same by a scan that stops at the offset, with the line it falls on. */
  method Locate(src: seq<Byte>, offset: nat) returns (line: nat, col: nat, text: seq<Byte>)
    ensures (line, col) == Presented(src, offset)
    ensures var start := LastLineStart(src[..Clamp(offset, |src|)]);
            && start + |text| <= |src| && text == src[start..start + |text|]
            && NEWLINE !in text && (start + |text| < |src| ==> src[start + |text|] == NEWLINE)
  {
    var at := Clamp(offset, |src|);
    PresentedAt(src, offset);
    hide Newlines, LastLineStart, Presented;
    var lineStart := 0;
    line := 1;
    var i := 0;
    NothingScanned(src);
    while i < |src| && i < at
      invariant i <= at && line == Newlines(src[..i]) + 1 && lineStart == LastLineStart(src[..i])
    {
      OneScanned(src, i);
      if src[i] == NEWLINE {
        line := line + 1;
        lineStart := i + 1;
      }
      i := i + 1;
    }
    assert i == at;
    col := at - lineStart + 1;
    var end := lineStart;
    while end < |src| && src[end] != NEWLINE
      invariant lineStart <= end <= |src| && NEWLINE !in src[lineStart..end]
    {
      end := end + 1;
    }
    text := src[lineStart..end];
  }

  // ---------- the printer's line index ----------------------------------------------

  /** Where the lines of a text begin. */
  function Starts(src: seq<Byte>): (starts: seq<nat>)
    ensures |starts| == Newlines(src) + 1
  {
    if src == [] then [0]
    else Starts(src[..|src| - 1]) + (if src[|src| - 1] == NEWLINE then [|src|] else [])
  }

  predicate Increasing(xs: seq<nat>) { forall i, j | 0 <= i < j < |xs| :: xs[i] < xs[j] }

  method LineStarts(src: seq<Byte>) returns (starts: seq<nat>)
    ensures starts == Starts(src)
  {
    starts := [0];
    var i := 0;
    while i < |src|
      invariant i <= |src| && starts == Starts(src[..i])
    {
      assert src[..i + 1][..i] == src[..i];
      if src[i] == NEWLINE {
        starts := starts + [i + 1];
      }
      i := i + 1;
    }
    assert src[..i] == src;
  }

  /** Line starts increase, the first is zero, and none is past the end. */
  lemma {:induction false} StartsIncrease(src: seq<Byte>)
    ensures Increasing(Starts(src)) && Starts(src)[0] == 0
    ensures forall i | 0 <= i < |Starts(src)| :: Starts(src)[i] <= |src|
  {
    if src != [] {
      StartsIncrease(src[..|src| - 1]);
    }
  }

  /** A prefix's line starts are the first ones of the whole; the others are past the prefix. */
  lemma {:induction false} StartsOfPrefix(src: seq<Byte>, n: nat)
    requires n <= |src|
    ensures Starts(src[..n]) <= Starts(src)
    ensures forall i | |Starts(src[..n])| <= i < |Starts(src)| :: n < Starts(src)[i]
    decreases |src|
  {
    hide Newlines;
    if n == |src| {
      assert src[..n] == src;
    } else {
      StartsOfPrefix(src[..|src| - 1], n);
      assert src[..|src| - 1][..n] == src[..n];
    }
  }

  /** A binary search: the position of `x`, or where it would be inserted. */
  method BinarySearch(xs: seq<nat>, x: nat) returns (found: bool, at: nat)
    requires Increasing(xs)
    ensures found ==> at < |xs| && xs[at] == x
    ensures !found ==> at <= |xs| && (forall i | 0 <= i < at :: xs[i] < x) && forall i | at <= i < |xs| :: x < xs[i]
  {
    var lo, hi := 0, |xs|;
    while lo < hi
      invariant lo <= hi <= |xs|
      invariant (forall i | 0 <= i < lo :: xs[i] < x) && forall i | hi <= i < |xs| :: x < xs[i]
    {
      var mid := (lo + hi) / 2;
      if xs[mid] == x {
        return true, mid;
      }
      if xs[mid] < x {
        lo := mid + 1;
      } else {
        hi := mid;
      }
    }
    return false, lo;
  }

  /** The index's line is the one the counting resolver presents. */
  lemma IndexCountsNewlines(src: seq<Byte>, offset: nat, l: nat)
    requires offset <= |src| && l < |Starts(src)|
    requires Starts(src)[l] <= offset && (l + 1 < |Starts(src)| ==> offset < Starts(src)[l + 1])
    ensures l + 1 == Presented(src, offset).0
  {
    var before := src[..offset];
    StartsOfPrefix(src, offset);
    StartsIncrease(before);
    assert l < |Starts(before)|;
    assert Starts(src)[|Starts(before)| - 1] == Starts(before)[|Starts(before)| - 1] <= offset;
    StartsIncrease(src);
    assert l >= |Starts(before)| - 1;
  }

  /** The zero-based line containing a byte offset, by binary search over the index. */
  method LineOf(src: seq<Byte>, offset: nat) returns (line: nat)
    ensures line + 1 == Presented(src, offset).0
  {
    var starts := LineStarts(src);
    StartsIncrease(src);
    var found, at := BinarySearch(starts, offset);
    line := if found then at else at - 1;
    IndexCountsNewlines(src, Clamp(offset, |src|), line);
  }
}
