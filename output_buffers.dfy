/**
 * The two per-session buffers of the output pipeline: `outputHistory`, whose summed
 * UTF-8 size is kept at or under 10 MiB by dropping whole chunks from the front, and
 * `output`, the last 100 chunks.
 */
module OutputBuffers {
  import opened Text

  const MaxHistorySize: nat := 10 * 1024 * 1024
  const MaxOutputChunks: nat := 100

  /** `outputHistory.reduce((sum, buf) => sum + buf.length, 0)`. */
  function TotalBytes(h: seq<string>): nat {
    if h == [] then 0 else Utf8Length(h[0]) + TotalBytes(h[1..])
  }

  lemma {:induction false} TotalBytesAppend(a: seq<string>, b: seq<string>)
    ensures TotalBytes(a + b) == TotalBytes(a) + TotalBytes(b)
  {
    if a == [] {
      assert a + b == b;
    } else {
      assert (a + b)[0] == a[0] && (a + b)[1..] == a[1..] + b;
      TotalBytesAppend(a[1..], b);
    }
  }

  /** A longer suffix never weighs less. */
  lemma {:induction false} TotalBytesSuffixes(h: seq<string>, j: nat, k: nat)
    requires j <= k <= |h|
    ensures TotalBytes(h[k..]) <= TotalBytes(h[j..])
    decreases k - j
  {
    if j < k {
      assert h[j..][1..] == h[j + 1..];
      TotalBytesSuffixes(h, j + 1, k);
    }
  }

  /** The eviction loop of the data handler: shift while the total exceeds the cap. */
  function Evict(h: seq<string>): seq<string> {
    if TotalBytes(h) > MaxHistorySize && |h| > 0 then Evict(h[1..]) else h
  }

  /** Eviction keeps a suffix within the cap, and drops a chunk only while the total is over it. */
  lemma {:induction false} EvictKeepsLongestFittingSuffix(h: seq<string>)
    ensures var r := Evict(h);
      && |r| <= |h| && r == h[|h| - |r|..]
      && TotalBytes(r) <= MaxHistorySize
      && (|r| < |h| ==> TotalBytes(h[|h| - |r| - 1..]) > MaxHistorySize)
  {
    if TotalBytes(h) > MaxHistorySize && |h| > 0 {
      EvictKeepsLongestFittingSuffix(h[1..]);
      var r := Evict(h[1..]);
      assert h[1..][|h[1..]| - |r|..] == h[|h| - |r|..];
      if |r| + 1 < |h| {
        assert h[1..][|h[1..]| - |r| - 1..] == h[|h| - |r| - 1..];
      }
    }
  }

  /**
   * The history is the longest suffix of everything the session received whose
   * summed size is within the cap: eviction is only ever from the front.
   */
  ghost predicate HistoryFits(hist: seq<string>, received: seq<string>) {
    && |hist| <= |received|
    && hist == received[|received| - |hist|..]
    && TotalBytes(hist) <= MaxHistorySize
    && (|hist| < |received| ==> TotalBytes(received[|received| - |hist| - 1..]) > MaxHistorySize)
  }

  /** Appending a chunk and evicting keeps the history the longest fitting suffix. */
  lemma HistoryStep(hist: seq<string>, received: seq<string>, data: string)
    requires HistoryFits(hist, received)
    ensures HistoryFits(Evict(hist + [data]), received + [data])
  {
    var h' := hist + [data];
    var rcv := received + [data];
    var m := |received| - |hist|;
    assert h' == rcv[m..];
    EvictKeepsLongestFittingSuffix(h');
    var r := Evict(h');
    var k := |h'| - |r|;
    assert rcv[|rcv| - |r|..] == h'[k..];
    if |r| < |rcv| {
      if k > 0 {
        assert rcv[|rcv| - |r| - 1..] == h'[k - 1..];
      } else {
        assert rcv[m - 1..] == received[m - 1..] + [data];
        TotalBytesAppend(received[m - 1..], [data]);
      }
    }
  }

  /** There is only one longest fitting suffix, so the history is determined by what was received. */
  lemma HistoryFitsUnique(a: seq<string>, b: seq<string>, received: seq<string>)
    requires HistoryFits(a, received) && HistoryFits(b, received)
    ensures a == b
  {
    if |a| < |b| {
      LongerSuffixesOverCap(a, received, |b|);
    } else if |b| < |a| {
      LongerSuffixesOverCap(b, received, |a|);
    }
  }

  /** Every suffix longer than the history is over the cap. */
  lemma LongerSuffixesOverCap(h: seq<string>, received: seq<string>, k: nat)
    requires HistoryFits(h, received)
    requires |h| < k <= |received|
    ensures TotalBytes(received[|received| - k..]) > MaxHistorySize
  {
    TotalBytesSuffixes(received, |received| - k, |received| - |h| - 1);
  }

  /** `output.push(data); if (output.length > 100) output.shift()`. */
  function Window(output: seq<string>, data: string): seq<string> {
    var o := output + [data];
    if |o| > MaxOutputChunks then o[1..] else o
  }

  /** The window holds the most recent chunks received, at most 100 of them, in arrival order. */
  ghost predicate WindowFits(output: seq<string>, received: seq<string>) {
    && |output| == (if |received| < MaxOutputChunks then |received| else MaxOutputChunks)
    && output == received[|received| - |output|..]
  }

  lemma WindowStep(output: seq<string>, received: seq<string>, data: string)
    requires WindowFits(output, received)
    ensures WindowFits(Window(output, data), received + [data])
  {
    var rcv := received + [data];
    assert output + [data] == rcv[|received| - |output|..];
  }

  /** The history after the chunks of `received` arrived one by one into an empty history. */
  function HistoryOf(received: seq<string>): seq<string> {
    if received == [] then []
    else Evict(HistoryOf(received[..|received| - 1]) + [received[|received| - 1]])
  }

  /** The window after the chunks of `received` arrived one by one into an empty window. */
  function WindowOf(received: seq<string>): seq<string> {
    if received == [] then []
    else Window(WindowOf(received[..|received| - 1]), received[|received| - 1])
  }

  /** One more chunk is one more step of each buffer. */
  lemma BuffersOfAppend(received: seq<string>, data: string)
    ensures HistoryOf(received + [data]) == Evict(HistoryOf(received) + [data])
    ensures WindowOf(received + [data]) == Window(WindowOf(received), data)
  {
    assert (received + [data])[..|received|] == received;
  }

  /** Whatever arrived, the history is its longest suffix within the cap. */
  lemma {:induction false} HistoryOfFits(received: seq<string>)
    ensures HistoryFits(HistoryOf(received), received)
  {
    if received != [] {
      var r := received[..|received| - 1];
      HistoryOfFits(r);
      HistoryStep(HistoryOf(r), r, received[|received| - 1]);
      assert r + [received[|received| - 1]] == received;
    }
  }

  /** Whatever arrived, the window is its last 100 chunks (all of them while fewer arrived). */
  lemma {:induction false} WindowOfFits(received: seq<string>)
    ensures WindowFits(WindowOf(received), received)
  {
    if received != [] {
      var r := received[..|received| - 1];
      WindowOfFits(r);
      WindowStep(WindowOf(r), r, received[|received| - 1]);
      assert r + [received[|received| - 1]] == received;
    }
  }

  /** The restore payload, before filtering, is as large as the history it joins. */
  lemma {:induction false} ConcatBytes(h: seq<string>)
    ensures Utf8Length(Concat(h)) == TotalBytes(h)
  {
    if h != [] {
      ConcatBytes(h[1..]);
      Utf8LengthAppend(h[0], Concat(h[1..]));
    }
  }

  lemma {:induction false} Utf8LengthAppend(a: string, b: string)
    ensures Utf8Length(a + b) == Utf8Length(a) + Utf8Length(b)
  {
    if a == [] {
      assert a + b == b;
    } else {
      assert (a + b)[0] == a[0] && (a + b)[1..] == a[1..] + b;
      Utf8LengthAppend(a[1..], b);
    }
  }
}
