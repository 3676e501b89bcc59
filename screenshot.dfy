/**
 * The part of saving a screenshot that is not I/O: the pixel buffer read
 * back from the framebuffer is bottom-up, so its rows of 3 * width bytes
 * are reversed in place before the image file is written.
 */
module Screenshot {

  newtype byte = x: int | 0 <= x < 256

  // ---------------------------------------------------------------------
  // Row arithmetic, by repeated addition so that proofs stay linear
  // ---------------------------------------------------------------------

  /** The index at which row r starts when rows are w elements long. */
  function Offset(r: nat, w: nat): nat
  {
    if r == 0 then 0 else Offset(r - 1, w) + w
  }

  /** The row that index k lies in. */
  function RowIndex(k: nat, w: nat): nat
    requires w > 0
    decreases k
  {
    if k < w then 0 else RowIndex(k - w, w) + 1
  }

  /** The column that index k lies in. */
  function Column(k: nat, w: nat): nat
    requires w > 0
    decreases k
  {
    if k < w then k else Column(k - w, w)
  }

  lemma {:induction false} OffsetIsProduct(r: nat, w: nat)
    ensures Offset(r, w) == r * w == w * r
  {
    if r > 0 {
      OffsetIsProduct(r - 1, w);
      assert (r - 1) * w + w == r * w;
    }
  }

  lemma {:induction false} OffsetMono(r1: nat, r2: nat, w: nat)
    requires r1 < r2
    ensures Offset(r1, w) + w <= Offset(r2, w)
    decreases r2
  {
    if r1 + 1 < r2 {
      OffsetMono(r1, r2 - 1, w);
    }
  }

  /** Every index is a row start plus a column. */
  lemma {:induction false} Locate(k: nat, w: nat)
    requires w > 0
    ensures Column(k, w) < w
    ensures k == Offset(RowIndex(k, w), w) + Column(k, w)
    decreases k
  {
    if k >= w {
      Locate(k - w, w);
    }
  }

  /** Row r, column c is found again by RowIndex and Column. */
  lemma {:induction false} LocateRowColumn(r: nat, c: nat, w: nat)
    requires c < w
    ensures RowIndex(Offset(r, w) + c, w) == r
    ensures Column(Offset(r, w) + c, w) == c
    decreases r
  {
    if r > 0 {
      LocateRowColumn(r - 1, c, w);
    }
  }

  lemma RowBound(k: nat, w: nat, h: nat)
    requires w > 0 && k < Offset(h, w)
    ensures RowIndex(k, w) < h
  {
    Locate(k, w);
    var r := RowIndex(k, w);
    if h < r {
      OffsetMono(h, r, w);
    }
  }

  // ---------------------------------------------------------------------
  // The flip, as a function of the buffer
  // ---------------------------------------------------------------------

  /** Row r of a buffer whose rows are w elements long (empty past the end). */
  function RowOf<T>(s: seq<T>, w: nat, r: nat): seq<T>
  {
    var lo := Offset(r, w);
    if lo + w <= |s| then s[lo..lo + w] else []
  }

  /** The index whose element the flip moves to index k: the same column,
      in row h - 1 - (the row of k). */
  function FlipIndex(k: nat, rowLen: nat, h: nat): (j: nat)
    requires rowLen > 0 && k < Offset(h, rowLen)
    ensures j < Offset(h, rowLen)
  {
    RowBound(k, rowLen, h);
    var r := h - 1 - RowIndex(k, rowLen);
    Locate(k, rowLen);
    OffsetMono(r, h, rowLen);
    Offset(r, rowLen) + Column(k, rowLen)
  }

  /** The buffer with its rows in reverse order. */
  function Flipped<T>(s: seq<T>, rowLen: nat, h: nat): (t: seq<T>)
    requires |s| == rowLen * h
    ensures |t| == |s|
  {
    OffsetIsProduct(h, rowLen);
    seq(|s|, k requires 0 <= k < |s| => s[FlipIndex(k, rowLen, h)])
  }

  // ---------------------------------------------------------------------
  // Properties of the flip
  // ---------------------------------------------------------------------

  /** After the flip, the element at row r, column c is the original element
      at row h - 1 - r, column c. */
  lemma FlippedAt<T>(s: seq<T>, rowLen: nat, h: nat, r: nat, c: nat)
    requires |s| == rowLen * h
    requires r < h && c < rowLen
    ensures r * rowLen + c < |s| && (h - 1 - r) * rowLen + c < |s|
    ensures Flipped(s, rowLen, h)[r * rowLen + c] == s[(h - 1 - r) * rowLen + c]
  {
    OffsetIsProduct(h, rowLen);
    OffsetIsProduct(r, rowLen);
    OffsetIsProduct(h - 1 - r, rowLen);
    OffsetMono(r, h, rowLen);
    OffsetMono(h - 1 - r, h, rowLen);
    LocateRowColumn(r, c, rowLen);
  }

  /** Row by row: row r of the flipped buffer is row h - 1 - r of the original. */
  lemma FlippedRow<T>(s: seq<T>, rowLen: nat, h: nat, r: nat)
    requires |s| == rowLen * h && r < h
    ensures RowOf(Flipped(s, rowLen, h), rowLen, r) == RowOf(s, rowLen, h - 1 - r)
  {
    OffsetIsProduct(h, rowLen);
    OffsetMono(r, h, rowLen);
    OffsetMono(h - 1 - r, h, rowLen);
    var a, b := RowOf(Flipped(s, rowLen, h), rowLen, r), RowOf(s, rowLen, h - 1 - r);
    assert |a| == rowLen && |b| == rowLen;
    forall c | 0 <= c < rowLen
      ensures a[c] == b[c]
    {
      FlippedAt(s, rowLen, h, r, c);
      OffsetIsProduct(r, rowLen);
      OffsetIsProduct(h - 1 - r, rowLen);
    }
  }

  /** Flipping twice gives back the original buffer. */
  lemma FlipInvolutive<T>(s: seq<T>, rowLen: nat, h: nat)
    requires |s| == rowLen * h
    ensures Flipped(Flipped(s, rowLen, h), rowLen, h) == s
  {
    var f := Flipped(s, rowLen, h);
    var t := Flipped(f, rowLen, h);
    OffsetIsProduct(h, rowLen);
    forall k | 0 <= k < |s|
      ensures t[k] == s[k]
    {
      Locate(k, rowLen);
      RowBound(k, rowLen, h);
      var r, c := RowIndex(k, rowLen), Column(k, rowLen);
      var r' := h - 1 - r;
      OffsetMono(r', h, rowLen);
      LocateRowColumn(r', c, rowLen);
    }
  }

  /** With an odd number of rows the middle row stays where it is. */
  lemma MiddleRowFixed<T>(s: seq<T>, rowLen: nat, h: nat)
    requires |s| == rowLen * h && h % 2 == 1
    ensures RowOf(Flipped(s, rowLen, h), rowLen, h / 2) == RowOf(s, rowLen, h / 2)
  {
    FlippedRow(s, rowLen, h, h / 2);
  }

  /** Index k lies in row RowIndex(k) at column Column(k), and the flip
      reads it from the same column of the mirrored row. */
  lemma FlipIndexRow(k: nat, rowLen: nat, h: nat)
    requires rowLen > 0 && k < Offset(h, rowLen)
    ensures var r, c := RowIndex(k, rowLen), Column(k, rowLen);
      r < h && c < rowLen && k == Offset(r, rowLen) + c &&
      Offset(r, rowLen) + rowLen <= Offset(h, rowLen) &&
      Offset(h - 1 - r, rowLen) + rowLen <= Offset(h, rowLen) &&
      FlipIndex(k, rowLen, h) == Offset(h - 1 - r, rowLen) + c
  {
    Locate(k, rowLen);
    RowBound(k, rowLen, h);
    var r := RowIndex(k, rowLen);
    OffsetMono(r, h, rowLen);
    OffsetMono(h - 1 - r, h, rowLen);
  }

  /** If the row holding index k is the mirrored row of s, index k holds the
      byte the flip puts there. */
  lemma FlipAtFromRow<T>(s: seq<T>, t: seq<T>, rowLen: nat, h: nat, k: nat)
    requires |s| == Offset(h, rowLen) && |t| == |s| && k < |s| && rowLen > 0
    requires RowIndex(k, rowLen) < h
    requires RowOf(t, rowLen, RowIndex(k, rowLen)) == RowOf(s, rowLen, h - 1 - RowIndex(k, rowLen))
    ensures t[k] == s[FlipIndex(k, rowLen, h)]
  {
    FlipIndexRow(k, rowLen, h);
    var r, c := RowIndex(k, rowLen), Column(k, rowLen);
    assert RowOf(t, rowLen, r)[c] == t[k];
    assert RowOf(s, rowLen, h - 1 - r)[c] == s[FlipIndex(k, rowLen, h)];
  }

  /** A buffer whose every row r is row h - 1 - r of another is its flip. */
  lemma RowsDetermineFlip<T>(s: seq<T>, t: seq<T>, rowLen: nat, h: nat)
    requires |s| == rowLen * h && |t| == |s|
    requires forall r :: 0 <= r < h ==> RowOf(t, rowLen, r) == RowOf(s, rowLen, h - 1 - r)
    ensures t == Flipped(s, rowLen, h)
  {
    OffsetIsProduct(h, rowLen);
    forall k | 0 <= k < |s|
      ensures t[k] == Flipped(s, rowLen, h)[k]
    {
      RowBound(k, rowLen, h);
      var r := RowIndex(k, rowLen);
      assert RowOf(t, rowLen, r) == RowOf(s, rowLen, h - 1 - r);
      FlipAtFromRow(s, t, rowLen, h, k);
    }
  }

  // ---------------------------------------------------------------------
  // The in-place loops
  // ---------------------------------------------------------------------

  /** Where the byte now at index k came from after the ranges
      [top, top + len) and [bot, bot + len) are exchanged. */
  function Swapped(k: nat, top: nat, bot: nat, len: nat): nat
  {
    if top <= k < top + len then k - top + bot
    else if bot <= k < bot + len then k - bot + top
    else k
  }

  /** `after` is `before` with the two ranges exchanged and nothing else moved. */
  ghost predicate SwappedRanges(before: seq<byte>, after: seq<byte>, top: nat, bot: nat, len: nat)
  {
    |after| == |before| && top + len <= bot && bot + len <= |before| &&
    forall k :: 0 <= k < |after| ==> after[k] == before[Swapped(k, top, bot, len)]
  }

  /** The inner loop: swaps the len bytes starting at top with the len bytes
      starting at bot, one pair at a time. */
  method SwapRanges(a: array<byte>, top: nat, bot: nat, len: nat)
    requires top + len <= bot && bot + len <= a.Length
    modifies a
    ensures SwappedRanges(old(a[..]), a[..], top, bot, len)
  {
    var j := 0;
    while j < len
      invariant 0 <= j <= len
      invariant forall k :: 0 <= k < a.Length ==> a[k] == old(a[Swapped(k, top, bot, j)])
    {
      a[top + j], a[bot + j] := a[bot + j], a[top + j];
      j := j + 1;
    }
  }

  /** The state of the buffer after the first i passes of the outer loop:
      the i top rows and the i bottom rows are exchanged, the middle is not. */
  ghost predicate FlippedUpTo(cur: seq<byte>, orig: seq<byte>, rowLen: nat, h: nat, i: nat)
  {
    forall r :: 0 <= r < h ==> RowPlaced(cur, orig, rowLen, h, i, r)
  }

  /** Row r holds its mirror row if it is among the i top or i bottom rows,
      and itself otherwise. */
  ghost predicate RowPlaced(cur: seq<byte>, orig: seq<byte>, rowLen: nat, h: nat, i: nat, r: nat)
    requires r < h
  {
    RowOf(cur, rowLen, r) ==
      if r < i || h - 1 - i < r then RowOf(orig, rowLen, h - 1 - r) else RowOf(orig, rowLen, r)
  }

  /** Reverses, in place, the rows of a buffer of `height` rows of
      3 * `width` bytes: rows i and height - 1 - i are swapped for every
      i < height / 2. */
  method FlipRows(pixels: array<byte>, width: nat, height: nat)
    requires pixels.Length == 3 * width * height
    modifies pixels
    ensures pixels[..] == Flipped(old(pixels[..]), 3 * width, height)
  {
    ghost var orig := pixels[..];
    var rowLen := 3 * width;
    OffsetIsProduct(height, rowLen);
    assert pixels.Length == Offset(height, rowLen);
    var i := 0;
    while i < height / 2
      invariant 0 <= i <= height / 2
      invariant pixels.Length == Offset(height, rowLen)
      invariant FlippedUpTo(pixels[..], orig, rowLen, height, i)
    {
      var top := rowLen * i;
      var bot := rowLen * (height - 1 - i);
      RowPair(i, height, rowLen);
      ghost var before := pixels[..];
      SwapRanges(pixels, top, bot, rowLen);
      FlipStep(orig, before, pixels[..], rowLen, height, i);
      i := i + 1;
    }
    FlipDone(orig, pixels[..], rowLen, height, i);
  }

  /** Where the two rows a pass of the outer loop exchanges start, and that
      they do not overlap. */
  lemma RowPair(i: nat, h: nat, rowLen: nat)
    requires i < h / 2
    ensures rowLen * i == Offset(i, rowLen)
    ensures rowLen * (h - 1 - i) == Offset(h - 1 - i, rowLen)
    ensures Offset(i, rowLen) + rowLen <= Offset(h - 1 - i, rowLen)
    ensures Offset(h - 1 - i, rowLen) + rowLen <= Offset(h, rowLen)
  {
    OffsetIsProduct(i, rowLen);
    OffsetIsProduct(h - 1 - i, rowLen);
    OffsetMono(i, h - 1 - i, rowLen);
    OffsetMono(h - 1 - i, h, rowLen);
  }

  /** One pass of the outer loop extends the exchanged rows by one at each end. */
  lemma FlipStep(orig: seq<byte>, before: seq<byte>, after: seq<byte>, rowLen: nat, h: nat, i: nat)
    requires |before| == Offset(h, rowLen)
    requires i < h / 2
    requires FlippedUpTo(before, orig, rowLen, h, i)
    requires SwappedRanges(before, after, Offset(i, rowLen), Offset(h - 1 - i, rowLen), rowLen)
    ensures FlippedUpTo(after, orig, rowLen, h, i + 1)
  {
    var j := i + 1;
    forall r: nat | r < h
      ensures RowPlaced(after, orig, rowLen, h, j, r)
    {
      FlipStepRow(orig, before, after, rowLen, h, i, r);
    }
  }

  /** The step for one row. */
  lemma FlipStepRow(orig: seq<byte>, before: seq<byte>, after: seq<byte>, rowLen: nat, h: nat, i: nat, r: nat)
    requires |before| == Offset(h, rowLen)
    requires i < h / 2 && r < h
    requires FlippedUpTo(before, orig, rowLen, h, i)
    requires SwappedRanges(before, after, Offset(i, rowLen), Offset(h - 1 - i, rowLen), rowLen)
    ensures RowPlaced(after, orig, rowLen, h, i + 1, r)
  {
    if r == i {
      RowStepSwapped(before, after, rowLen, h, i);
      assert RowPlaced(before, orig, rowLen, h, i, h - 1 - i);
    } else if r == h - 1 - i {
      RowStepSwapped(before, after, rowLen, h, i);
      assert RowPlaced(before, orig, rowLen, h, i, i);
    } else {
      RowStepKept(before, after, rowLen, h, i, r);
      assert RowPlaced(before, orig, rowLen, h, i, r);
    }
  }

  /** When the outer loop ends every row has been exchanged with its mirror
      (the middle row of an odd height is its own mirror). */
  lemma FlipDone(orig: seq<byte>, cur: seq<byte>, rowLen: nat, h: nat, i: nat)
    requires |orig| == rowLen * h && |cur| == |orig|
    requires i == h / 2
    requires FlippedUpTo(cur, orig, rowLen, h, i)
    ensures cur == Flipped(orig, rowLen, h)
  {
    forall r | 0 <= r < h
      ensures RowOf(cur, rowLen, r) == RowOf(orig, rowLen, h - 1 - r)
    {
      assert RowPlaced(cur, orig, rowLen, h, i, r);
    }
    RowsDetermineFlip(orig, cur, rowLen, h);
  }

  /** A run of len bytes is either one of the two exchanged ranges or clear
      of both; the exchange puts the other range, or the run itself, there. */
  lemma RunCopied(before: seq<byte>, after: seq<byte>, top: nat, bot: nat, len: nat, lo: nat, slo: nat)
    requires SwappedRanges(before, after, top, bot, len)
    requires lo + len <= |after|
    requires (lo == top && slo == bot) || (lo == bot && slo == top) ||
             (lo == slo && (lo + len <= top || (top + len <= lo && lo + len <= bot) || bot + len <= lo))
    ensures after[lo..lo + len] == before[slo..slo + len]
  {
    forall k | lo <= k < lo + len
      ensures after[k] == before[k - lo + slo]
    {
      assert after[k] == before[Swapped(k, top, bot, len)];
    }
  }

  /** Exchanging rows i and h - 1 - i puts row h - 1 - i at row i and row i
      at row h - 1 - i. */
  lemma RowStepSwapped(before: seq<byte>, after: seq<byte>, rowLen: nat, h: nat, i: nat)
    requires |before| == Offset(h, rowLen)
    requires i < h - 1 - i
    requires SwappedRanges(before, after, Offset(i, rowLen), Offset(h - 1 - i, rowLen), rowLen)
    ensures RowOf(after, rowLen, i) == RowOf(before, rowLen, h - 1 - i)
    ensures RowOf(after, rowLen, h - 1 - i) == RowOf(before, rowLen, i)
  {
    var top, bot := Offset(i, rowLen), Offset(h - 1 - i, rowLen);
    OffsetMono(i, h - 1 - i, rowLen);
    OffsetMono(h - 1 - i, h, rowLen);
    RunCopied(before, after, top, bot, rowLen, top, bot);
    RunCopied(before, after, top, bot, rowLen, bot, top);
  }

  /** Exchanging rows i and h - 1 - i leaves every other row in place. */
  lemma RowStepKept(before: seq<byte>, after: seq<byte>, rowLen: nat, h: nat, i: nat, r: nat)
    requires |before| == Offset(h, rowLen)
    requires i < h - 1 - i && r < h && r != i && r != h - 1 - i
    requires SwappedRanges(before, after, Offset(i, rowLen), Offset(h - 1 - i, rowLen), rowLen)
    ensures RowOf(after, rowLen, r) == RowOf(before, rowLen, r)
  {
    var top, bot, lo := Offset(i, rowLen), Offset(h - 1 - i, rowLen), Offset(r, rowLen);
    OffsetMono(r, h, rowLen);
    if r < i {
      OffsetMono(r, i, rowLen);
      assert lo + rowLen <= top;
    } else if r < h - 1 - i {
      OffsetMono(i, r, rowLen);
      OffsetMono(r, h - 1 - i, rowLen);
      assert top + rowLen <= lo && lo + rowLen <= bot;
    } else {
      OffsetMono(h - 1 - i, r, rowLen);
      assert bot + rowLen <= lo;
    }
    RunCopied(before, after, top, bot, rowLen, lo, lo);
  }
}
