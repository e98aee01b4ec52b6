/** `split_with_overlap`: cut a text into windows of `windowSize` characters whose starts are
    `windowSize - overlapChars` apart. */
module Splitter {

  function Min(a: int, b: int): int {
    if a <= b then a else b
  }

  /** Python's `range(start, stop, step)` for a positive step: `start`, then steps of `step`,
      up to the last value below `stop`. */
  function Range(start: nat, stop: nat, step: nat): (r: seq<nat>)
    requires step >= 1
    ensures (|r| == 0) == (start >= stop)
    ensures forall k | 0 <= k < |r| :: start <= r[k] < stop
    ensures |r| > 0 ==> r[0] == start && stop <= r[|r| - 1] + step
    decreases stop - start
  {
    if start >= stop then [] else [start] + Range(start + step, stop, step)
  }

  /** Consecutive values of the range are `step` apart. */
  lemma {:induction false} RangeStep(start: nat, stop: nat, step: nat, k: nat)
    requires step >= 1 && k + 1 < |Range(start, stop, step)|
    ensures Range(start, stop, step)[k + 1] == Range(start, stop, step)[k] + step
    decreases k
  {
    if k > 0 {
      RangeStep(start + step, stop, step, k - 1);
    }
  }

  /** The `k`-th value of the range is `start + k * step`. */
  lemma {:induction false} RangeAt(start: nat, stop: nat, step: nat, k: nat)
    requires step >= 1 && k < |Range(start, stop, step)|
    ensures Range(start, stop, step)[k] == start + k * step
    decreases k
  {
    if k > 0 {
      RangeAt(start + step, stop, step, k - 1);
      assert k * step == (k - 1) * step + step;
    }
  }

  /** `range(0, n, step)` has ceil(n / step) elements. */
  lemma RangeCount(n: nat, step: nat)
    requires step >= 1
    ensures |Range(0, n, step)| == (n + step - 1) / step
  {
    var c := |Range(0, n, step)|;
    if c > 0 {
      RangeAt(0, n, step, c - 1);
      assert c * step == (c - 1) * step + step;
    }
    DivUnique(n + step - 1, step, c);
  }

  /** `q * step <= m < q * step + step` pins `q` down as `m / step`. */
  lemma DivUnique(m: nat, step: nat, q: nat)
    requires step >= 1 && q * step <= m < q * step + step
    ensures m / step == q
  {
    var d := m / step;
    assert m == d * step + m % step;
    assert (d + 1) * step == d * step + step;
    assert (q + 1) * step == q * step + step;
    if d < q {
      MulMono(d + 1, q, step);
    } else if d > q {
      MulMono(q + 1, d, step);
    }
  }

  lemma {:induction false} MulMono(a: nat, b: nat, c: nat)
    requires a <= b
    ensures a * c <= b * c
  {
    if a < b {
      MulMono(a, b - 1, c);
      assert b * c == (b - 1) * c + c;
    }
  }

  /** The chunks of `text`: `text[i : i + windowSize]` for each `i` in
      `range(0, len(text), windowSize - overlapChars)`; Python's slice stops at the end. */
  function SplitWithOverlap(text: string, windowSize: nat, overlapChars: int): (chunks: seq<string>)
    requires 0 < windowSize && overlapChars < windowSize
  {
    var starts := Range(0, |text|, windowSize - overlapChars);
    seq(|starts|, k requires 0 <= k < |starts| => text[starts[k]..Min(starts[k] + windowSize, |text|)])
  }

  /** There are ceil(|text| / step) chunks. */
  lemma SplitCount(text: string, windowSize: nat, overlapChars: int)
    requires 0 < windowSize && overlapChars < windowSize
    ensures var step := windowSize - overlapChars;
            |SplitWithOverlap(text, windowSize, overlapChars)| == (|text| + step - 1) / step
  {
    RangeCount(|text|, windowSize - overlapChars);
  }

  /** Chunk `k` is the text from `k * step` on, cut after `windowSize` characters or at the
      end of the text. */
  lemma SplitChunkAt(text: string, windowSize: nat, overlapChars: int, k: nat)
    requires 0 < windowSize && overlapChars < windowSize
    requires k < |SplitWithOverlap(text, windowSize, overlapChars)|
    ensures var step := windowSize - overlapChars;
            && k * step < |text|
            && SplitWithOverlap(text, windowSize, overlapChars)[k]
               == text[k * step..Min(k * step + windowSize, |text|)]
  {
    RangeAt(0, |text|, windowSize - overlapChars, k);
  }

  /** An empty text has no chunks. */
  lemma SplitEmpty(windowSize: nat, overlapChars: int)
    requires 0 < windowSize && overlapChars < windowSize
    ensures SplitWithOverlap("", windowSize, overlapChars) == []
  {
  }

  /** Every chunk is non-empty and at most `windowSize` long. */
  lemma SplitChunkBounds(text: string, windowSize: nat, overlapChars: int)
    requires 0 < windowSize && overlapChars < windowSize
    ensures forall c | c in SplitWithOverlap(text, windowSize, overlapChars) :: 0 < |c| <= windowSize
  {
  }

  /** Chunk starts: the first is 0, each next one is `step` further on, and the last window
      reaches the end of the text. */
  lemma SplitStarts(text: string, windowSize: nat, overlapChars: int)
    requires 0 < windowSize && overlapChars < windowSize
    ensures var step := windowSize - overlapChars;
            var starts := Range(0, |text|, step);
            && |starts| == |SplitWithOverlap(text, windowSize, overlapChars)|
            && (|starts| > 0 ==> starts[0] == 0 && |text| <= starts[|starts| - 1] + step)
            && forall k | 0 <= k < |starts| - 1 :: starts[k + 1] == starts[k] + step
  {
    var step := windowSize - overlapChars;
    forall k | 0 <= k < |Range(0, |text|, step)| - 1
      ensures Range(0, |text|, step)[k + 1] == Range(0, |text|, step)[k] + step
    {
      RangeStep(0, |text|, step, k);
    }
  }

  /** With a non-negative overlap the chunks cover the whole text: every character `p` lies in
      a chunk `k` that starts at or before `p` and reaches past it. */
  lemma SplitCoverage(text: string, windowSize: nat, overlapChars: int, p: nat)
    requires 0 <= overlapChars < windowSize && p < |text|
    ensures var starts := Range(0, |text|, windowSize - overlapChars);
            var chunks := SplitWithOverlap(text, windowSize, overlapChars);
            exists k | 0 <= k < |chunks| ::
              starts[k] <= p < starts[k] + |chunks[k]| && chunks[k][p - starts[k]] == text[p]
  {
    var step := windowSize - overlapChars;
    var starts := Range(0, |text|, step);
    var chunks := SplitWithOverlap(text, windowSize, overlapChars);
    SplitStarts(text, windowSize, overlapChars);
    var k := CoveringStart(starts, step, p);
    assert chunks[k][p - starts[k]] == text[p];
  }

  /** The last start at or before `p`, in a sequence starting at 0 with steps of `step`. */
  lemma {:induction false} CoveringStartExists(starts: seq<nat>, step: nat, p: nat, i: nat)
    returns (k: nat)
    requires step >= 1 && i < |starts| && starts[i] <= p
    requires forall j | 0 <= j < |starts| - 1 :: starts[j + 1] == starts[j] + step
    requires p < starts[|starts| - 1] + step
    ensures i <= k < |starts| && starts[k] <= p < starts[k] + step
    decreases |starts| - i
  {
    if p < starts[i] + step {
      k := i;
    } else {
      k := CoveringStartExists(starts, step, p, i + 1);
    }
  }

  lemma CoveringStart(starts: seq<nat>, step: nat, p: nat) returns (k: nat)
    requires step >= 1 && |starts| > 0 && starts[0] == 0
    requires forall j | 0 <= j < |starts| - 1 :: starts[j + 1] == starts[j] + step
    requires p < starts[|starts| - 1] + step
    ensures k < |starts| && starts[k] <= p < starts[k] + step
  {
    k := CoveringStartExists(starts, step, p, 0);
  }

  /** Consecutive chunks overlap: the part of chunk `k` past the step is where chunk `k + 1`
      begins. */
  lemma SplitOverlap(text: string, windowSize: nat, overlapChars: int, k: nat)
    requires 0 <= overlapChars < windowSize
    requires k + 1 < |SplitWithOverlap(text, windowSize, overlapChars)|
    ensures var step := windowSize - overlapChars;
            var chunks := SplitWithOverlap(text, windowSize, overlapChars);
            step <= |chunks[k]| && chunks[k][step..] <= chunks[k + 1]
  {
    var step := windowSize - overlapChars;
    var starts := Range(0, |text|, step);
    RangeStep(0, |text|, step, k);
    var a := starts[k];
    var e := Min(a + windowSize, |text|);
    var e' := Min(a + step + windowSize, |text|);
    assert a + step <= e <= e';
    var chunks := SplitWithOverlap(text, windowSize, overlapChars);
    assert chunks[k] == text[a..e];
    assert chunks[k + 1] == text[a + step..e'];
    SliceTail(text, a, e, step);
    SlicePrefix(text, a + step, e, e');
  }

  lemma SliceTail(t: string, a: nat, e: nat, d: nat)
    requires a + d <= e <= |t|
    ensures t[a..e][d..] == t[a + d..e]
  {
  }

  lemma SlicePrefix(t: string, a: nat, e: nat, e': nat)
    requires a <= e <= e' <= |t|
    ensures t[a..e] <= t[a..e']
  {
    assert t[a..e'][..e - a] == t[a..e];
  }

  /** Exactly one chunk comes out iff the text is non-empty and no longer than the step. */
  lemma SplitSingle(text: string, windowSize: nat, overlapChars: int)
    requires 0 < windowSize && overlapChars < windowSize
    ensures |SplitWithOverlap(text, windowSize, overlapChars)| == 1
            <==> 0 < |text| <= windowSize - overlapChars
  {
  }

  /** A text longer than the step but within the window yields two chunks, the whole text and
      its suffix from the step on, when the overlap is at most half the window (as every
      budget's is). */
  lemma SplitTwo(text: string, windowSize: nat, overlapChars: int)
    requires 0 <= overlapChars && 2 * overlapChars <= windowSize
    requires windowSize - overlapChars < |text| <= windowSize
    ensures SplitWithOverlap(text, windowSize, overlapChars) == [text, text[windowSize - overlapChars..]]
  {
    var step := windowSize - overlapChars;
    var starts := Range(0, |text|, step);
    RangeStep(0, |text|, step, 0);
    RangeAt(0, |text|, step, |starts| - 1);
    assert |starts| == 2;
    var chunks := SplitWithOverlap(text, windowSize, overlapChars);
    assert chunks[0] == text[0..|text|] == text;
    assert chunks[1] == text[step..|text|];
  }
}
