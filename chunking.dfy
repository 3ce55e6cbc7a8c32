/**
 The arithmetic behind `Uploader.count_chunks`: a sliding window of
 `chunkSize` tokens moved forward by `chunkSize - overlap` tokens over a
 text of `n` tokens. Window `k` starts at `k * stride` and ends at
 `min(k * stride + chunkSize, n)`; counting stops at the first window that
 reaches `n`, or once a window would start at or after `n`.

 This module gives the count in closed form and proves what the windows
 cover; the loop itself is `Upload.Uploader.CountChunks`.
 */
module Chunking {

  /** How far one window is from the next. */
  function Stride(chunkSize: int, overlap: int): (s: nat)
    requires overlap < chunkSize
    ensures s > 0
  {
    chunkSize - overlap
  }

  /** `ceil(x / d)`, counted one step of `d` at a time. */
  function CeilDiv(x: nat, d: nat): nat
    requires d > 0
    decreases x
  {
    if x == 0 then 0 else 1 + CeilDiv(Max0(x - d), d)
  }

  lemma MulMonotone(a: int, b: int, d: nat)
    ensures a <= b ==> a * d <= b * d
  {
    if a <= b {
      assert b * d == (b - a) * d + a * d;
      assert (b - a) * d >= 0;
    }
  }

  /** `ceil(x / d)` steps of `d` reach `x`. */
  lemma {:induction false} CeilDivCovers(x: nat, d: nat)
    requires d > 0
    ensures x <= CeilDiv(x, d) * d
  {
    if x > 0 {
      var c' := CeilDiv(Max0(x - d), d);
      CeilDivCovers(Max0(x - d), d);
      assert CeilDiv(x, d) * d == c' * d + d;
    }
  }

  /** One step fewer than `ceil(x / d)` falls short of `x`. */
  lemma {:induction false} CeilDivTight(x: nat, d: nat)
    requires d > 0
    ensures CeilDiv(x, d) == 0 || (CeilDiv(x, d) - 1) * d < x
  {
    if x > d {
      var c' := CeilDiv(x - d, d);
      CeilDivTight(x - d, d);
      assert c' * d == (c' - 1) * d + d;
    }
  }

  lemma CeilDivAtMost(x: nat, d: nat, q: nat)
    requires d > 0 && x <= q * d
    ensures CeilDiv(x, d) <= q
  {
    CeilDivTight(x, d);
    MulMonotone(q, CeilDiv(x, d) - 1, d);
  }

  lemma CeilDivAtLeast(x: nat, d: nat, q: nat)
    requires d > 0 && q > 0 && (q - 1) * d < x
    ensures q <= CeilDiv(x, d)
  {
    CeilDivCovers(x, d);
    MulMonotone(CeilDiv(x, d), q - 1, d);
  }

  /** `ceil(x / d)` is the least `q` with `x <= q * d`. */
  lemma CeilDivUnique(x: nat, d: nat, q: nat)
    requires d > 0 && x <= q * d && (q == 0 || (q - 1) * d < x)
    ensures CeilDiv(x, d) == q
  {
    CeilDivAtMost(x, d, q);
    if q > 0 {
      CeilDivAtLeast(x, d, q);
    }
  }

  function Min(a: int, b: int): int {
    if a <= b then a else b
  }

  function Max0(a: int): nat {
    if a <= 0 then 0 else a
  }

  /** The first token of window `k`. */
  function WindowStart(k: nat, chunkSize: int, overlap: int): int
    requires overlap < chunkSize
  {
    k * Stride(chunkSize, overlap)
  }

  /** One past the last token of window `k` in a text of `n` tokens. */
  function WindowEnd(k: nat, n: nat, chunkSize: int, overlap: int): int
    requires overlap < chunkSize
  {
    Min(WindowStart(k, chunkSize, overlap) + chunkSize, n)
  }

  /**
   The number of windows `count_chunks` counts for `n` tokens: one past the
   first window that reaches `n`, unless the windows run past `n` before that
   (which only happens when `overlap` is negative).
   */
  function ChunkEstimate(n: nat, chunkSize: int, overlap: int): nat
    requires overlap < chunkSize
  {
    var s := Stride(chunkSize, overlap);
    Min(1 + CeilDiv(Max0(n - chunkSize), s), CeilDiv(n, s))
  }

  /** No tokens, no chunks; some tokens, at least one chunk. */
  lemma ChunkEstimateZero(n: nat, chunkSize: int, overlap: int)
    requires overlap < chunkSize
    ensures ChunkEstimate(n, chunkSize, overlap) == 0 <==> n == 0
  {
    var s := Stride(chunkSize, overlap);
    if n > 0 {
      CeilDivAtLeast(n, s, 1);
    }
  }

  /**
   With a non-negative overlap, window `ceil(max(0, n - chunkSize) / stride)`
   is the first to reach `n`, and it starts before `n`.
   */
  lemma FirstWindowReachingEnd(n: nat, chunkSize: int, overlap: int)
    requires 0 <= overlap < chunkSize && n > 0
    ensures var k := CeilDiv(Max0(n - chunkSize), Stride(chunkSize, overlap));
            WindowStart(k, chunkSize, overlap) < n <= WindowStart(k, chunkSize, overlap) + chunkSize
  {
    var s := Stride(chunkSize, overlap);
    var x := Max0(n - chunkSize);
    var k := CeilDiv(x, s);
    CeilDivCovers(x, s);
    CeilDivTight(x, s);
    assert k * s == (k as int - 1) * s + s;
  }

  /**
   With a non-negative overlap the count is `1 + ceil(max(0, n - chunkSize) / stride)`
   for every non-empty text.
   */
  lemma ChunkEstimateClosedForm(n: nat, chunkSize: int, overlap: int)
    requires 0 <= overlap < chunkSize && n > 0
    ensures ChunkEstimate(n, chunkSize, overlap)
            == 1 + CeilDiv(Max0(n - chunkSize), Stride(chunkSize, overlap))
  {
    var s := Stride(chunkSize, overlap);
    var k := CeilDiv(Max0(n - chunkSize), s);
    FirstWindowReachingEnd(n, chunkSize, overlap);
    CeilDivAtLeast(n, s, k + 1);
  }

  /** With a non-negative overlap the last window ends exactly at `n` and starts before it. */
  lemma LastWindowEndsAtEnd(n: nat, chunkSize: int, overlap: int)
    requires 0 <= overlap < chunkSize && n > 0
    ensures ChunkEstimate(n, chunkSize, overlap) >= 1
    ensures WindowStart(ChunkEstimate(n, chunkSize, overlap) - 1, chunkSize, overlap) < n
    ensures WindowEnd(ChunkEstimate(n, chunkSize, overlap) - 1, n, chunkSize, overlap) == n
  {
    ChunkEstimateClosedForm(n, chunkSize, overlap);
    FirstWindowReachingEnd(n, chunkSize, overlap);
  }

  /**
   With a non-negative overlap the windows leave no gap: every token of the
   text lies in one of the counted windows. The result names such a window.
   */
  function WindowContaining(t: nat, n: nat, chunkSize: int, overlap: int): (k: nat)
    requires 0 <= overlap < chunkSize && t < n
    ensures k < ChunkEstimate(n, chunkSize, overlap)
    ensures WindowStart(k, chunkSize, overlap) <= t < WindowEnd(k, n, chunkSize, overlap)
  {
    LastWindowEndsAtEnd(n, chunkSize, overlap);
    var last := ChunkEstimate(n, chunkSize, overlap) - 1;
    var q := t / Stride(chunkSize, overlap);
    WindowOfToken(t, n, chunkSize, overlap);
    if q <= last then
      q
    else
      LastWindowHoldsTail(t, n, chunkSize, overlap);
      last
  }

  /** Token `t` lies in window `t / stride`, whenever windows are at least one stride long. */
  lemma WindowOfToken(t: nat, n: nat, chunkSize: int, overlap: int)
    requires 0 <= overlap < chunkSize && t < n
    ensures var q := t / Stride(chunkSize, overlap);
            WindowStart(q, chunkSize, overlap) <= t < WindowEnd(q, n, chunkSize, overlap)
  {
    DivBounds(t, Stride(chunkSize, overlap));
  }

  /** A token past the start of the last window lies in the last window. */
  lemma LastWindowHoldsTail(t: nat, n: nat, chunkSize: int, overlap: int)
    requires 0 <= overlap < chunkSize && t < n
    requires t / Stride(chunkSize, overlap) > ChunkEstimate(n, chunkSize, overlap) - 1
    ensures ChunkEstimate(n, chunkSize, overlap) >= 1
    ensures var last := ChunkEstimate(n, chunkSize, overlap) - 1;
            WindowStart(last, chunkSize, overlap) <= t < WindowEnd(last, n, chunkSize, overlap)
  {
    var s := Stride(chunkSize, overlap);
    LastWindowEndsAtEnd(n, chunkSize, overlap);
    var last := ChunkEstimate(n, chunkSize, overlap) - 1;
    var q := t / s;
    DivBounds(t, s);
    MulMonotone(last, q, s);
  }

  lemma DivBounds(t: nat, d: nat)
    requires d > 0
    ensures (t / d) * d <= t < (t / d) * d + d
  {
    assert t == (t / d) * d + t % d;
  }

  /** Consecutive counted windows overlap or touch. */
  lemma ConsecutiveWindowsTouch(n: nat, chunkSize: int, overlap: int, k: nat)
    requires 0 <= overlap < chunkSize && k + 1 < ChunkEstimate(n, chunkSize, overlap)
    ensures WindowStart(k + 1, chunkSize, overlap) <= WindowEnd(k, n, chunkSize, overlap)
  {
    var s := Stride(chunkSize, overlap);
    var c := ChunkEstimate(n, chunkSize, overlap);
    LastWindowEndsAtEnd(n, chunkSize, overlap);
    var later := c - 1 - (k + 1);
    assert (c - 1) * s == later * s + (k + 1) * s;
    assert later * s >= 0;
    assert WindowStart(k + 1, chunkSize, overlap) < n;
    assert WindowStart(k + 1, chunkSize, overlap) == WindowStart(k, chunkSize, overlap) + s;
  }

  /** The defaults of `count_chunks` (800 tokens, overlap 400) on texts of 800 and 1000 tokens. */
  lemma DefaultWindowExamples()
    ensures ChunkEstimate(800, 800, 400) == 1
    ensures ChunkEstimate(1000, 800, 400) == 2
  {
  }
}
