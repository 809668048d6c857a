/** Ambient-light smoothing: a window of the last 50 sensor readings and the
    ladder that turns their mean into a strip brightness, in whole percent. */
module Brightness {

  const WindowSize := 50

  /** The cut-offs on the mean reading, ascending, and the level below each. */
  const Cutoffs: seq<int> := [320, 480, 1600, 6400, 16000, 24000]
  const Levels: seq<int> := [5, 10, 20, 30, 50, 70, 100]

  /** The window at boot: 50 zeros. */
  function InitialWindow(): (w: seq<int>)
    ensures |w| == WindowSize && forall i :: 0 <= i < |w| ==> w[i] == 0
  {
    seq(WindowSize, _ => 0)
  }

  function Sum(s: seq<int>): int {
    if s == [] then 0 else Sum(s[..|s| - 1]) + s[|s| - 1]
  }

  /** Appends the reading and keeps the last 50 entries (`values[-50:]`). */
  function Slide(window: seq<int>, reading: int): seq<int> {
    var appended := window + [reading];
    if |appended| > WindowSize then appended[|appended| - WindowSize..] else appended
  }

  /** The threshold ladder. `mean < c` is decided exactly as `sum < c * 50`. */
  function LevelPercent(sum: int): int {
    if sum < 320 * WindowSize then 5
    else if sum < 480 * WindowSize then 10
    else if sum < 1600 * WindowSize then 20
    else if sum < 6400 * WindowSize then 30
    else if sum < 16000 * WindowSize then 50
    else if sum < 24000 * WindowSize then 70
    else 100
  }

  /** How many cut-offs, from the k-th on, the mean has reached. */
  function CutoffsReached(sum: int, k: nat): (n: nat)
    requires k <= |Cutoffs|
    ensures n <= |Cutoffs| - k
    decreases |Cutoffs| - k
  {
    if k == |Cutoffs| then 0
    else if sum < Cutoffs[k] * WindowSize then 0
    else 1 + CutoffsReached(sum, k + 1)
  }

  lemma {:induction false} SumAppend(s: seq<int>, x: int)
    ensures Sum(s + [x]) == Sum(s) + x
  {
    assert (s + [x])[..|s + [x]| - 1] == s;
  }

  lemma {:induction false} SumPrepend(x: int, s: seq<int>)
    ensures Sum([x] + s) == x + Sum(s)
    decreases |s|
  {
    if s == [] {
      assert [x] + s == [x];
      assert [x][..0] == [];
    } else {
      var init := s[..|s| - 1];
      assert [x] + s == ([x] + init) + [s[|s| - 1]];
      SumAppend([x] + init, s[|s| - 1]);
      SumPrepend(x, init);
      SumAppend(init, s[|s| - 1]);
      assert init + [s[|s| - 1]] == s;
    }
  }

  /** A full window slides: the oldest reading leaves, the newest is last. */
  lemma {:induction false} SlideFullWindow(window: seq<int>, reading: int)
    requires |window| == WindowSize
    ensures Slide(window, reading) == window[1..] + [reading]
    ensures |Slide(window, reading)| == WindowSize
    ensures Sum(Slide(window, reading)) == Sum(window) - window[0] + reading
  {
    assert (window + [reading])[1..] == window[1..] + [reading];
    SumAppend(window[1..], reading);
    SumPrepend(window[0], window[1..]);
    assert [window[0]] + window[1..] == window;
  }

  /** The ladder is the level table indexed by the number of cut-offs reached. */
  lemma {:induction false} LevelFromTable(sum: int)
    ensures LevelPercent(sum) == Levels[CutoffsReached(sum, 0)]
  {
    var r0 := CutoffsReached(sum, 0);
    var r1 := CutoffsReached(sum, 1);
    var r2 := CutoffsReached(sum, 2);
    var r3 := CutoffsReached(sum, 3);
    var r4 := CutoffsReached(sum, 4);
    var r5 := CutoffsReached(sum, 5);
    assert CutoffsReached(sum, 6) == 0;
  }

  /** Brighter surroundings never dim the strip. */
  lemma LevelMonotone(a: int, b: int)
    requires a <= b
    ensures LevelPercent(a) <= LevelPercent(b)
  {
  }

  /** Mean 1000 gives 20 percent; mean 30000 gives full brightness. */
  lemma LevelExamples()
    ensures LevelPercent(1000 * WindowSize) == 20
    ensures LevelPercent(30000 * WindowSize) == 100
    ensures LevelPercent(Sum(InitialWindow())) == 5
  {
    var w := InitialWindow();
    ZeroSum(w);
  }

  lemma {:induction false} ZeroSum(s: seq<int>)
    requires forall i :: 0 <= i < |s| ==> s[i] == 0
    ensures Sum(s) == 0
  {
    if s != [] {
      ZeroSum(s[..|s| - 1]);
    }
  }
}
