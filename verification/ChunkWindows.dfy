/** The overlapping windows a document is cut into (scripts/run_frc_chunk_length_sensitivity.py). */
module ChunkWindows {
  import opened Ordering

  function MinInt(a: int, b: int): int {
    if a <= b then a else b
  }

  /** Python's `tokens[start : start + length]`: a slice that ends with the tokens. */
  function Slice<T>(tokens: seq<T>, start: nat, length: nat): (window: seq<T>)
    requires start <= |tokens|
    ensures |window| == MinInt(length, |tokens| - start)
  {
    tokens[start..MinInt(start + length, |tokens|)]
  }

  function Overlap(length: nat, ratio: real): int {
    RoundHalfEven(length as real * ratio)
  }

  function StepOf(length: nat, ratio: real): (step: nat)
    ensures length >= 1 ==> (step <= length <==> Overlap(length, ratio) >= 0)
    ensures step >= 1
  {
    MaxInt(1, length - Overlap(length, ratio))
  }

  /** The overlap is the nearest whole number to the wanted share of a window, ties to the even one; a step is what the
      overlap leaves of a window, and at least one token. */
  lemma StepIs(length: nat, ratio: real)
    ensures -0.5 <= length as real * ratio - Overlap(length, ratio) as real <= 0.5
    ensures length as real * ratio - Overlap(length, ratio) as real in {-0.5, 0.5} ==> Overlap(length, ratio) % 2 == 0
    ensures Overlap(length, ratio) < length ==> StepOf(length, ratio) + Overlap(length, ratio) == length
    ensures Overlap(length, ratio) >= length ==> StepOf(length, ratio) == 1
  {
  }

  /** Where the k-th window starts. */
  function Start(k: nat, step: nat): nat {
    if k == 0 then 0 else Start(k - 1, step) + step
  }

  lemma {:induction false} StartMonotone(j: nat, k: nat, step: nat)
    requires j <= k
    ensures Start(j, step) <= Start(k, step)
  {
    if j < k {
      StartMonotone(j, k - 1, step);
    }
  }

  /** The windows start every `step` tokens, and only the last one may reach the end. */
  ghost predicate AreWindows<T>(tokens: seq<T>, length: nat, step: nat, windows: seq<seq<T>>) {
    && windows != []
    && (forall k | 0 <= k < |windows| ::
          Start(k, step) <= |tokens| && windows[k] == Slice(tokens, Start(k, step), length))
    && (forall k | 0 <= k < |windows| - 1 :: Start(k, step) + length < |tokens|)
  }

  predicate Reaches(n: nat, length: nat, step: nat, windows: nat)
    requires windows >= 1
  {
    Start(windows - 1, step) + length >= n
  }

  lemma EmptyText<T>(tokens: seq<T>, length: nat, step: nat)
    requires tokens == []
    ensures AreWindows(tokens, length, step, [[]])
  {
  }

  lemma OneMoreWindow<T>(tokens: seq<T>, length: nat, step: nat, windows: seq<seq<T>>)
    requires windows != [] ==> AreWindows(tokens, length, step, windows) && !Reaches(|tokens|, length, step, |windows|)
    requires Start(|windows|, step) <= |tokens|
    ensures AreWindows(tokens, length, step, windows + [Slice(tokens, Start(|windows|, step), length)])
  {
    hide Start, Slice;
  }

  /** The loop leaves through its break when the last window reaches the end; only a step that is longer
      than a window may take it past the end instead. */
  method ChunkText<T>(tokens: seq<T>, length: nat, ratio: real) returns (windows: seq<seq<T>>)
    requires length >= 1
    ensures AreWindows(tokens, length, StepOf(length, ratio), windows)
    ensures Reaches(|tokens|, length, StepOf(length, ratio), |windows|)
      || Start(|windows|, StepOf(length, ratio)) >= |tokens|
    ensures forall k | 0 <= k < |windows| :: |windows[k]| <= length
    ensures Overlap(length, ratio) >= 0 ==> Reaches(|tokens|, length, StepOf(length, ratio), |windows|)
  {
    hide Overlap, Slice, StepOf, AreWindows;
    if tokens == [] {
      windows := [[]];
      EmptyText(tokens, length, StepOf(length, ratio));
      return;
    }
    var step := StepOf(length, ratio);
    windows := [];
    var start := 0;
    while start < |tokens|
      invariant start == Start(|windows|, step)
      invariant windows != [] ==> AreWindows(tokens, length, step, windows)
      invariant windows != [] ==> !Reaches(|tokens|, length, step, |windows|)
      invariant forall k | 0 <= k < |windows| :: |windows[k]| <= length
      decreases |tokens| + step - start
    {
      OneMoreWindow(tokens, length, step, windows);
      windows := windows + [Slice(tokens, start, length)];
      if start + length >= |tokens| {
        return;
      }
      start := start + step;
    }
  }

  /** The first window, then each later one without the tokens it shares with its predecessor. */
  function Rebuild<T>(windows: seq<seq<T>>, shared: nat): seq<T> {
    if windows == [] then []
    else if |windows| == 1 then windows[0]
    else
      var last := windows[|windows| - 1];
      Rebuild(windows[..|windows| - 1], shared) + last[MinInt(shared, |last|)..]
  }

  lemma FirstSlice<T>(tokens: seq<T>, length: nat, step: nat, windows: seq<seq<T>>)
    requires AreWindows(tokens, length, step, windows)
    ensures windows != [] && windows[0] == tokens[..MinInt(Start(0, step) + length, |tokens|)]
  {
  }

  lemma FirstWindowExists<T>(tokens: seq<T>, length: nat, step: nat, windows: seq<seq<T>>)
    requires AreWindows(tokens, length, step, windows)
    ensures windows != []
  {
  }

  lemma FrontWindows<T>(tokens: seq<T>, length: nat, step: nat, windows: seq<seq<T>>)
    requires |windows| >= 2 && AreWindows(tokens, length, step, windows)
    ensures var n := |windows| - 1;
      && AreWindows(tokens, length, step, windows[..n])
      && Start(n, step) == Start(n - 1, step) + step <= |tokens|
      && Start(n - 1, step) + length < |tokens|
      && windows[n] == Slice(tokens, Start(n, step), length)
  {
    hide Slice;
  }

  lemma Glue<T>(tokens: seq<T>, before: nat, length: nat, step: nat)
    requires 1 <= step <= length && before + length < |tokens|
    ensures var last := Slice(tokens, before + step, length);
      MinInt(length - step, |last|) == length - step
      && tokens[..MinInt(before + length, |tokens|)] + last[length - step..] == tokens[..MinInt(before + step + length, |tokens|)]
  {
  }

  lemma {:induction false} RebuildPrefix<T>(tokens: seq<T>, length: nat, step: nat, windows: seq<seq<T>>)
    requires 1 <= step <= length && AreWindows(tokens, length, step, windows)
    ensures Rebuild(windows, length - step) == tokens[..MinInt(Start(|windows| - 1, step) + length, |tokens|)]
  {
    hide AreWindows, Start, Slice, MinInt;
    assert windows != [] by {
      FirstWindowExists(tokens, length, step, windows);
    }
    var n := |windows| - 1;
    if n == 0 {
      FirstSlice(tokens, length, step, windows);
    } else {
      FrontWindows(tokens, length, step, windows);
      RebuildPrefix(tokens, length, step, windows[..n]);
      Glue(tokens, Start(n - 1, step), length, step);
    }
  }

  /** What a window shares with its successor: its end is the other's beginning, `length - step` tokens of it. */
  lemma NeighboursShare<T>(tokens: seq<T>, length: nat, step: nat, windows: seq<seq<T>>, k: nat)
    requires 1 <= step <= length && AreWindows(tokens, length, step, windows) && k + 1 < |windows|
    ensures |windows[k]| == length && |windows[k + 1]| >= length - step
    ensures windows[k][step..] == windows[k + 1][..length - step]
  {
  }

  /** With an overlap of zero or more, the windows give the text back. */
  lemma RebuildsText<T>(tokens: seq<T>, length: nat, step: nat, windows: seq<seq<T>>)
    requires 1 <= step <= length && AreWindows(tokens, length, step, windows)
    requires Reaches(|tokens|, length, step, |windows|)
    ensures Rebuild(windows, length - step) == tokens
  {
    RebuildPrefix(tokens, length, step, windows);
    assert tokens[..|tokens|] == tokens;
  }

  /** The position lies in one of the first `count` windows. */
  predicate Covered(position: nat, count: nat, length: nat, step: nat) {
    exists k :: 0 <= k < count && Start(k, step) <= position < Start(k, step) + length
  }

  /** Every token is in a window exactly when the step is no longer than a window, or one window is enough. */
  lemma EveryTokenCovered<T>(tokens: seq<T>, length: nat, step: nat, windows: seq<seq<T>>)
    requires length >= 1 && step >= 1 && AreWindows(tokens, length, step, windows)
    requires Reaches(|tokens|, length, step, |windows|) || Start(|windows|, step) >= |tokens|
    ensures (forall p: nat | p < |tokens| :: Covered(p, |windows|, length, step))
      <==> step <= length || |tokens| <= length
  {
    if |tokens| <= length {
      assert forall p: nat | p < |tokens| :: Start(0, step) <= p ==> Covered(p, |windows|, length, step);
    } else if step <= length {
      forall p: nat | p < |tokens| ensures Covered(p, |windows|, length, step) {
        BeforeLastEnd(|windows|, p, length, step);
      }
    } else {
      assert !Covered(length, |windows|, length, step) by {
        forall k | 0 <= k < |windows| ensures Start(k, step) <= length ==> Start(k, step) + length <= length {
          if k >= 1 {
            StartMonotone(1, k, step);
          }
        }
      }
    }
  }

  /** With a step no longer than a window there is no gap before the end of the last one. */
  lemma {:induction false} BeforeLastEnd(count: nat, p: nat, length: nat, step: nat)
    requires count >= 1 && 1 <= step <= length && p < Start(count - 1, step) + length
    ensures Covered(p, count, length, step)
  {
    if p < Start(count - 1, step) {
      BeforeLastEnd(count - 1, p, length, step);
    }
  }
}
