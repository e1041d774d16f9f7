/** processor.go, the bookkeeping around the audio processors: tone-pattern
    lists, the stepping of a tone pattern through its lists, the Goertzel
    filter's counters and the round robin of the cycling filter, the
    processor stack, and the harmonic tone's construction. Go's `float64`
    is modelled by `real`: the arithmetic is exact, without rounding,
    infinities or NaN. */
module Processors {

  // ---- Tone-pattern lists ----

  /** Go's `int(r)` for a float: truncation toward zero. */
  function Trunc(r: real): (t: int)
    ensures r >= 0.0 ==> 0 <= t && t as real <= r < t as real + 1.0
    ensures r < 0.0 ==> t <= 0 && t as real - 1.0 < r <= t as real
  {
    if r >= 0.0 then r.Floor else -((-r).Floor)
  }

  /** How often `MakeTonePattern`'s inner loop runs for the count `r`: its
      truncation, or none when that is not positive. */
  function Count(r: real): (n: nat)
    ensures n > 0 ==> n as real <= r < n as real + 1.0
    ensures r < 1.0 <==> n == 0
  {
    if Trunc(r) > 0 then Trunc(r) else 0
  }

  /** `n` copies of `v`. */
  function Repeat(v: real, n: nat): (r: seq<real>)
    ensures |r| == n && forall i | 0 <= i < n :: r[i] == v
  {
    seq(n, _ => v)
  }

  /** The list of steps that alternating (value, count) pairs describe. */
  function Expanded(steps: seq<real>): seq<real>
    requires |steps| % 2 == 0
    decreases |steps|
  {
    if |steps| == 0 then []
    else Expanded(steps[..|steps| - 2]) + Repeat(steps[|steps| - 2], Count(steps[|steps| - 1]))
  }

  /** The sum of the counts of alternating (value, count) pairs. */
  function TotalCount(steps: seq<real>): nat
    requires |steps| % 2 == 0
    decreases |steps|
  {
    if |steps| == 0 then 0 else TotalCount(steps[..|steps| - 2]) + Count(steps[|steps| - 1])
  }

  /** `MakeTonePattern`: each value is appended as often as the
      following count says. An odd-length list makes Go read past its end. */
  method MakeTonePattern(steps: seq<real>) returns (out: seq<real>)
    requires |steps| % 2 == 0
    ensures out == Expanded(steps)
  {
    out := [];
    var i := 0;
    while i < |steps|
      invariant 0 <= i <= |steps| && i % 2 == 0
      invariant out == Expanded(steps[..i])
    {
      var n := Trunc(steps[i + 1]);
      var j := 0;
      while j < n
        invariant 0 <= j <= Count(steps[i + 1])
        invariant out == Expanded(steps[..i]) + Repeat(steps[i], j)
      {
        out := out + [steps[i]];
        j := j + 1;
      }
      assert steps[..i + 2][..i] == steps[..i];
      assert steps[..i + 2][i] == steps[i] && steps[..i + 2][i + 1] == steps[i + 1];
      i := i + 2;
    }
    assert steps[..i] == steps;
  }

  /** The pattern is as long as the counts add up to. */
  lemma {:induction false} ExpandedLength(steps: seq<real>)
    requires |steps| % 2 == 0
    ensures |Expanded(steps)| == TotalCount(steps)
    decreases |steps|
  {
    if |steps| > 0 {
      ExpandedLength(steps[..|steps| - 2]);
    }
  }

  /** Pairs expand one after the other, in order. */
  lemma {:induction false} ExpandedAppend(a: seq<real>, b: seq<real>)
    requires |a| % 2 == 0 && |b| % 2 == 0
    ensures Expanded(a + b) == Expanded(a) + Expanded(b)
    decreases |b|
  {
    if |b| == 0 {
      assert a + b == a;
    } else {
      var n := |b|;
      assert (a + b)[..|a + b| - 2] == a + b[..n - 2];
      assert (a + b)[|a + b| - 2] == b[n - 2] && (a + b)[|a + b| - 1] == b[n - 1];
      ExpandedAppend(a, b[..n - 2]);
    }
  }

  /** The first pair comes first: its value, as often as its count says. */
  lemma {:induction false} ExpandedFront(steps: seq<real>)
    requires |steps| >= 2 && |steps| % 2 == 0
    ensures Expanded(steps) == Repeat(steps[0], Count(steps[1])) + Expanded(steps[2..])
  {
    assert steps == steps[..2] + steps[2..];
    ExpandedAppend(steps[..2], steps[2..]);
    assert steps[..2][..0] == [];
  }

  /** Every entry of the pattern is one of the values (never a count). */
  lemma {:induction false} ExpandedValues(steps: seq<real>, j: int)
    requires |steps| % 2 == 0 && 0 <= j < |Expanded(steps)|
    ensures exists k :: 0 <= k < |steps| / 2 && Expanded(steps)[j] == steps[2 * k]
    decreases |steps|
  {
    var n := |steps|;
    var front := Expanded(steps[..n - 2]);
    if j < |front| {
      ExpandedValues(steps[..n - 2], j);
      var k :| 0 <= k < (n - 2) / 2 && front[j] == steps[..n - 2][2 * k];
      assert Expanded(steps)[j] == steps[2 * k];
    } else {
      assert Expanded(steps)[j] == steps[2 * ((n - 2) / 2)];
    }
  }

  /** The example in the source's comment: [1, 5, 0, 5] is five 1s, then five 0s. */
  lemma ExpandedExample()
    ensures Expanded([1.0, 5.0, 0.0, 5.0]) == [1.0, 1.0, 1.0, 1.0, 1.0, 0.0, 0.0, 0.0, 0.0, 0.0]
  {
    var s := [1.0, 5.0, 0.0, 5.0];
    assert Count(5.0) == 5;
    assert s[..2] == [1.0, 5.0] && s[..2][..0] == [];
    assert Expanded(s[..2]) == Repeat(1.0, 5);
  }

  /** The sum of a list of reals. */
  function Sum(s: seq<real>): real
    decreases |s|
  {
    if |s| == 0 then 0.0 else Sum(s[..|s| - 1]) + s[|s| - 1]
  }

  lemma {:induction false} SumAppend(a: seq<real>, b: seq<real>)
    ensures Sum(a + b) == Sum(a) + Sum(b)
    decreases |b|
  {
    if |b| == 0 {
      assert a + b == a;
    } else {
      assert (a + b)[..|a + b| - 1] == a + b[..|b| - 1];
      SumAppend(a, b[..|b| - 1]);
    }
  }

  lemma {:induction false} SumRepeat(v: real, n: nat)
    ensures Sum(Repeat(v, n)) == n as real * v
    decreases n
  {
    if n > 0 {
      assert Repeat(v, n)[..n - 1] == Repeat(v, n - 1);
      SumRepeat(v, n - 1);
    }
  }

  /** Each step spread evenly over `x` consecutive entries. */
  function Stretched(x: nat, steps: seq<real>): seq<real>
    decreases |steps|
  {
    if |steps| == 0 || x == 0 then []
    else Stretched(x, steps[..|steps| - 1]) + Repeat(steps[|steps| - 1] / x as real, x)
  }

  /** `StretchTonePattern`: a buffer of len(steps)*x entries, the k-th block
      of `x` entries each holding steps[k]/x. Go's `make` panics on a
      negative length, so a negative `x` is only allowed with no steps. */
  method StretchTonePattern(x: int, steps: seq<real>) returns (out: seq<real>)
    requires |steps| * x >= 0
    ensures x < 0 ==> out == []
    ensures x >= 0 ==> out == Stretched(x, steps)
  {
    var a := new real[|steps| * x];
    SignOfProduct(|steps|, x);
    var k := 0;
    while k < |steps|
      invariant 0 <= k <= |steps| && k * x <= a.Length
      invariant |steps| > 0 ==> x >= 0 && a[..k * x] == Stretched(x, steps[..k])
    {
      assert (k + 1) * x == k * x + x;
      assert (k + 1) * x <= |steps| * x by {
        MulMono(k + 1, |steps|, x);
      }
      var i := 0;
      while i < x
        invariant 0 <= i <= x
        invariant x > 0 ==> a[..k * x + i] == Stretched(x, steps[..k]) + Repeat(steps[k] / x as real, i)
      {
        a[k * x + i] := steps[k] / x as real;
        assert a[..k * x + i + 1] == a[..k * x + i] + [a[k * x + i]];
        i := i + 1;
      }
      assert steps[..k + 1][..k] == steps[..k];
      i := i;
      k := k + 1;
    }
    out := a[..];
    if |steps| > 0 {
      assert steps[..k] == steps && a[..] == a[..k * x];
    }
  }

  lemma SignOfProduct(n: nat, x: int)
    requires n * x >= 0
    ensures n > 0 ==> x >= 0
  {
    if n > 0 && x < 0 {
      MulMono(1, n, -x);
    }
  }

  lemma MulMono(a: int, b: int, x: int)
    requires a <= b && x >= 0
    ensures a * x <= b * x
  {
  }

  /** The stretched list has len(steps)*x entries. */
  lemma {:induction false} StretchedLength(x: nat, steps: seq<real>)
    ensures |Stretched(x, steps)| == |steps| * x
    decreases |steps|
  {
    if |steps| > 0 && x > 0 {
      StretchedLength(x, steps[..|steps| - 1]);
      assert |steps| * x == (|steps| - 1) * x + x;
    }
  }

  lemma {:induction false} StretchedAppend(x: nat, a: seq<real>, b: seq<real>)
    ensures Stretched(x, a + b) == Stretched(x, a) + Stretched(x, b)
    decreases |b|
  {
    if |b| == 0 || x == 0 {
      assert a + b == a || x == 0;
      if x > 0 { assert a + b == a; }
    } else {
      assert (a + b)[..|a + b| - 1] == a + b[..|b| - 1];
      StretchedAppend(x, a, b[..|b| - 1]);
    }
  }

  /** out[k*x + i] == steps[k] / x for every i < x: the k-th block is x
      copies of steps[k] / x. */
  lemma {:induction false} StretchedBlock(x: nat, steps: seq<real>, k: int)
    requires 0 <= k < |steps| && x > 0
    ensures |Stretched(x, steps)| == |steps| * x
    ensures k * x + x <= |steps| * x
    ensures Stretched(x, steps)[k * x..k * x + x] == Repeat(steps[k] / x as real, x)
  {
    StretchedLength(x, steps);
    StretchedLength(x, steps[..k]);
    assert steps == steps[..k] + ([steps[k]] + steps[k + 1..]);
    StretchedAppend(x, steps[..k], [steps[k]] + steps[k + 1..]);
    StretchedAppend(x, [steps[k]], steps[k + 1..]);
    assert [steps[k]][..0] == [];
    assert Stretched(x, [steps[k]]) == Repeat(steps[k] / x as real, x);
    MulMono(k + 1, |steps|, x);
    assert (k + 1) * x == k * x + x;
  }

  /** Over the reals each block adds up to its step again. */
  lemma StretchedBlockSum(x: nat, steps: seq<real>, k: int)
    requires 0 <= k < |steps| && x > 0
    ensures |Stretched(x, steps)| == |steps| * x && k * x + x <= |steps| * x
    ensures Sum(Stretched(x, steps)[k * x..k * x + x]) == steps[k]
  {
    StretchedBlock(x, steps, k);
    SumShare(steps[k], x);
  }

  /** x shares of s/x add up to s. */
  lemma SumShare(s: real, x: nat)
    requires x > 0
    ensures Sum(Repeat(s / x as real, x)) == s
  {
    SumRepeat(s / x as real, x);
  }

  /** Stretching keeps the total: the whole pattern adds up to the same. */
  lemma {:induction false} StretchedSum(x: nat, steps: seq<real>)
    requires x > 0
    ensures Sum(Stretched(x, steps)) == Sum(steps)
    decreases |steps|
  {
    if |steps| > 0 {
      var n := |steps|;
      StretchedSum(x, steps[..n - 1]);
      SumAppend(Stretched(x, steps[..n - 1]), Repeat(steps[n - 1] / x as real, x));
      SumShare(steps[n - 1], x);
    }
  }

  // ---- TonePattern ----

  /** The step index after `step`: one further, back to 0 past the end. */
  function Advance(step: int, n: int): int {
    if step + 1 >= n then 0 else step + 1
  }

  /** The step index after `count` samples, starting from `start`. */
  function StepAfter(start: int, n: int, count: nat): (r: int)
    requires count == 0 || 0 <= start < n
    ensures 0 <= start < n ==> 0 <= r < n
    decreases count
  {
    if count == 0 then start else Advance(StepAfter(start, n, count - 1), n)
  }

  /** The sum of the `count` step values consumed from `start` on. */
  function Consumed(steps: seq<real>, start: int, count: nat): real
    requires count == 0 || 0 <= start < |steps|
    decreases count
  {
    if count == 0 then 0.0
    else Consumed(steps, start, count - 1) + steps[StepAfter(start, |steps|, count - 1)]
  }

  /** The wrapping step index is the start plus the count, modulo the length. */
  lemma {:induction false} StepAfterMod(start: int, n: int, count: nat)
    requires 0 <= start < n
    ensures StepAfter(start, n, count) == (start + count) % n
    decreases count
  {
    if count > 0 {
      StepAfterMod(start, n, count - 1);
      AdvanceMod(start + count - 1, n);
    }
  }

  lemma AdvanceMod(a: int, n: int)
    requires a >= 0 && n > 0
    ensures Advance(a % n, n) == (a + 1) % n
  {
    var q, s := a / n, a % n;
    if s + 1 < n {
      ModUnique(a + 1, n, q, s + 1);
    } else {
      assert a + 1 == (q + 1) * n + 0;
      ModUnique(a + 1, n, q + 1, 0);
    }
  }

  lemma ModUnique(a: int, n: int, q: int, r: int)
    requires n > 0 && 0 <= r < n && a == q * n + r
    ensures a % n == r
  {
    var q', r' := a / n, a % n;
    assert a == q' * n + r';
    if q > q' {
      MulMono(1, q - q', n);
      assert false;
    } else if q < q' {
      MulMono(1, q' - q, n);
      assert false;
    }
  }

  /** Consuming in two runs is consuming in one: the second run starts
      where the first one stopped. */
  lemma {:induction false} ConsumedSplit(steps: seq<real>, start: int, c1: nat, c2: nat)
    requires 0 <= start < |steps|
    ensures Consumed(steps, start, c1 + c2) ==
            Consumed(steps, start, c1) + Consumed(steps, StepAfter(start, |steps|, c1), c2)
    decreases c2
  {
    if c2 > 0 {
      ConsumedSplit(steps, start, c1, c2 - 1);
      StepAfterSplit(start, |steps|, c1, c2 - 1);
    }
  }

  lemma {:induction false} StepAfterSplit(start: int, n: int, c1: nat, c2: nat)
    requires 0 <= start < n
    ensures StepAfter(start, n, c1 + c2) == StepAfter(StepAfter(start, n, c1), n, c2)
    decreases c2
  {
    if c2 > 0 {
      StepAfterSplit(start, n, c1, c2 - 1);
    }
  }

  /** `TonePattern`: a left and a right list of steps, each walked cyclically,
      with a running value per channel. */
  class TonePattern {
    var leftSteps: seq<real>
    var rightSteps: seq<real>
    var leftStep: int
    var rightStep: int
    var leftValue: real
    var rightValue: real

    /** Each step index is inside its list (or 0 for an empty list). */
    predicate Valid()
      reads this
    {
      (if |leftSteps| > 0 then 0 <= leftStep < |leftSteps| else leftStep == 0) &&
      (if |rightSteps| > 0 then 0 <= rightStep < |rightSteps| else rightStep == 0)
    }

    /** `NewSymmetricTonePattern`: the same list for both channels. */
    constructor Symmetric(steps: seq<real>)
      ensures Valid()
      ensures leftSteps == steps && rightSteps == steps
      ensures leftStep == 0 && rightStep == 0 && leftValue == 0.0 && rightValue == 0.0
    {
      leftSteps, rightSteps := steps, steps;
      leftStep, rightStep := 0, 0;
      leftValue, rightValue := 0.0, 0.0;
    }

    /** `TonePattern.Process` on an interleaved buffer: each even entry gets
        the left value after adding the next left step, each odd entry the
        right value after adding the next right step. Go indexes the lists,
        so a list must not be empty when its channel has samples. */
    method Process(p: array<real>)
      requires Valid()
      requires p.Length > 0 ==> |leftSteps| > 0
      requires p.Length > 1 ==> |rightSteps| > 0
      modifies this, p
      ensures Valid() && leftSteps == old(leftSteps) && rightSteps == old(rightSteps)
      ensures leftStep == StepAfter(old(leftStep), |leftSteps|, (p.Length + 1) / 2)
      ensures leftValue == old(leftValue) + Consumed(leftSteps, old(leftStep), (p.Length + 1) / 2)
      ensures rightStep == StepAfter(old(rightStep), |rightSteps|, p.Length / 2)
      ensures rightValue == old(rightValue) + Consumed(rightSteps, old(rightStep), p.Length / 2)
      ensures forall i | 0 <= i < p.Length && i % 2 == 0 ::
                p[i] == old(leftValue) + Consumed(leftSteps, old(leftStep), i / 2 + 1)
      ensures forall i | 0 <= i < p.Length && i % 2 == 1 ::
                p[i] == old(rightValue) + Consumed(rightSteps, old(rightStep), i / 2 + 1)
    {
      leftStep, leftValue := Channel(p, 0, leftSteps, leftStep, leftValue);
      rightStep, rightValue := Channel(p, 1, rightSteps, rightStep, rightValue);
    }
  }

  /** One of `Process`'s two loops: from entry `first` on, every second
      entry of the buffer gets the running value after adding the next
      step, the step index wrapping to 0 at the end of the list. The new
      index and value are returned; the other entries are left alone. */
  method Channel(p: array<real>, first: nat, steps: seq<real>, step0: int, value0: real)
    returns (step: int, value: real)
    requires first <= 1 && (if |steps| > 0 then 0 <= step0 < |steps| else step0 == 0)
    requires p.Length > first ==> |steps| > 0
    modifies p
    ensures if |steps| > 0 then 0 <= step < |steps| else step == 0
    ensures step == StepAfter(step0, |steps|, (p.Length - first + 1) / 2)
    ensures value == value0 + Consumed(steps, step0, (p.Length - first + 1) / 2)
    ensures forall j | 0 <= j < p.Length ::
              p[j] == if j % 2 == first then value0 + Consumed(steps, step0, j / 2 + 1) else old(p[j])
  {
    step, value := step0, value0;
    var i := first;
    while i < p.Length
      invariant first <= i <= p.Length + 1 && i % 2 == first
      invariant if |steps| > 0 then 0 <= step < |steps| else step == 0
      invariant step == StepAfter(step0, |steps|, i / 2)
      invariant value == value0 + Consumed(steps, step0, i / 2)
      invariant forall j | 0 <= j < p.Length ::
                  p[j] == if j < i && j % 2 == first then value0 + Consumed(steps, step0, j / 2 + 1) else old(p[j])
    {
      value := value + steps[step];
      step := step + 1;
      if step >= |steps| {
        step := 0;
      }
      p[i] := value;
      i := i + 2;
    }
  }

  // ---- Goertzel filters ----

  /** The running part of a Goertzel filter: the two previous outputs, the
      energy seen so far and the number of samples. */
  datatype GoertzelState = GoertzelState(sPrev: real, sPrev2: real, totalPower: real, n: int)
  {
    /** A filter between samples: a count that never went negative, and
        energy that is positive once a sample has been counted. */
    predicate Valid() {
      n >= 0 && totalPower >= 0.0 && (n > 0 ==> totalPower > 0.0)
    }
  }

  /** The state `Zero` leaves (and a new filter starts in). */
  const Cleared := GoertzelState(0.0, 0.0, 0.0, 0)

  /** One sample through the filter: the recurrence moves on, the count
      grows by one, and a total energy of 0 is replaced by 1 so that the
      division that follows is defined. */
  function Fed(st: GoertzelState, coeff: real, sample: real): (r: GoertzelState)
    ensures r.n == st.n + 1 && r.sPrev2 == st.sPrev
    ensures st.Valid() ==> r.Valid() && r.totalPower > 0.0
  {
    var s := sample + coeff * st.sPrev - st.sPrev2;
    var total := st.totalPower + sample * sample;
    GoertzelState(s, st.sPrev, if total == 0.0 then 1.0 else total, st.n + 1)
  }

  /** The normalized power the filter reports after a sample. */
  function Reported(st: GoertzelState, coeff: real): real
    requires st.n > 0 && st.totalPower > 0.0
  {
    Energy(st.sPrev, st.sPrev2, coeff) / st.totalPower / st.n as real
  }

  /** The power at the filter's frequency held in the last two outputs. */
  function Energy(sPrev: real, sPrev2: real, coeff: real): real {
    sPrev2 * sPrev2 + sPrev * sPrev - coeff * sPrev * sPrev2
  }

  /** The energy only grows while samples come in; a reset clears it. */
  lemma FedEnergy(st: GoertzelState, coeff: real, sample: real)
    requires st.Valid()
    ensures Fed(st, coeff, sample).totalPower >= st.totalPower
    ensures st.totalPower + sample * sample > 0.0 ==>
            Fed(st, coeff, sample).totalPower == st.totalPower + sample * sample
  {
    assert sample * sample >= 0.0;
  }

  /** `GoertzelFilter`. */
  class GoertzelFilter {
    var freq: real
    var sampleRate: real
    var sPrev: real
    var sPrev2: real
    var totalPower: real
    var n: int
    var normFreq: real
    var coeff: real

    function State(): GoertzelState
      reads this
    {
      GoertzelState(sPrev, sPrev2, totalPower, n)
    }

    predicate Valid()
      reads this
    {
      State().Valid()
    }

    /** The configuration fields: frequency, sample rate, normalized
        frequency and coefficient. */
    function Settings(): (real, real, real, real)
      reads this
    {
      (freq, sampleRate, normFreq, coeff)
    }

    /** `NewGoertzelFilter`: the frequency as a fraction of the sample rate
        and its coefficient 2·cos(2π·normFreq); `cosTurn` stands for
        cos(2π·x), which the model does not compute. */
    constructor (freq: real, sampleRate: real, cosTurn: real -> real)
      requires sampleRate != 0.0
      ensures Valid() && State() == Cleared
      ensures this.freq == freq && this.sampleRate == sampleRate
      ensures normFreq == freq / sampleRate && coeff == 2.0 * cosTurn(freq / sampleRate)
    {
      this.freq, this.sampleRate := freq, sampleRate;
      sPrev, sPrev2, totalPower, n := 0.0, 0.0, 0.0, 0;
      normFreq := freq / sampleRate;
      coeff := 2.0 * cosTurn(freq / sampleRate);
    }

    /** `Zero`: the running state is cleared; frequency, sample rate,
        normalized frequency and coefficient stay. */
    method Zero()
      modifies this
      ensures Valid() && State() == Cleared
      ensures freq == old(freq) && sampleRate == old(sampleRate)
      ensures normFreq == old(normFreq) && coeff == old(coeff)
    {
      sPrev := 0.0;
      sPrev2 := 0.0;
      totalPower := 0.0;
      n := 0;
    }

    /** `Calculate`: one sample through the filter, and the power it reports. */
    method Calculate(sample: real) returns (r: real)
      requires Valid()
      modifies this
      ensures Valid() && State() == Fed(old(State()), old(coeff), sample)
      ensures n >= 1 && totalPower > 0.0
      ensures r == Reported(State(), coeff)
      ensures freq == old(freq) && sampleRate == old(sampleRate)
      ensures normFreq == old(normFreq) && coeff == old(coeff)
    {
      var s := sample + coeff * sPrev - sPrev2;
      sPrev2 := sPrev;
      sPrev := s;
      n := n + 1;
      var power := sPrev2 * sPrev2 + sPrev * sPrev - coeff * sPrev * sPrev2;
      assert power == Energy(sPrev, sPrev2, coeff);
      totalPower := totalPower + sample * sample;
      if totalPower == 0.0 {
        totalPower := 1.0;
      }
      r := power / totalPower / n as real;
    }
  }

  /** The active filter and count after one sample: the count grows, and on
      reaching `resetEvery` it returns to 0 and the next filter (round
      robin) becomes active. */
  function NextActive(active: int, num: int, resetEvery: int, filters: nat): (r: (int, int))
    requires filters > 0
    ensures 0 <= active < filters ==> 0 <= r.0 < filters
    ensures r.0 != active ==> r.1 == 0
    ensures 0 <= num < resetEvery ==> 0 <= r.1 < resetEvery
  {
    if num + 1 >= resetEvery then (Advance(active, filters), 0) else (active, num + 1)
  }

  /** Every `resetEvery` samples the active filter moves on by one: after
      k full periods it is k places further round. */
  lemma {:induction false} RotationPeriod(active: int, resetEvery: int, filters: nat, k: nat)
    requires filters > 0 && resetEvery >= 1 && 0 <= active < filters
    ensures RunCounter(active, 0, resetEvery, filters, k * resetEvery) == (StepAfter(active, filters, k), 0)
    ensures StepAfter(active, filters, k) == (active + k) % filters
    decreases k
  {
    StepAfterMod(active, filters, k);
    if k > 0 {
      RotationPeriod(active, resetEvery, filters, k - 1);
      RunCounterSplit(active, 0, resetEvery, filters, (k - 1) * resetEvery, resetEvery);
      assert k * resetEvery == (k - 1) * resetEvery + resetEvery;
      OnePeriod(StepAfter(active, filters, k - 1), resetEvery, filters, 0);
    }
  }

  /** The counter after `count` samples. */
  function RunCounter(active: int, num: int, resetEvery: int, filters: nat, count: nat): (int, int)
    requires filters > 0
    decreases count
  {
    if count == 0 then (active, num)
    else
      var prev := RunCounter(active, num, resetEvery, filters, count - 1);
      NextActive(prev.0, prev.1, resetEvery, filters)
  }

  lemma {:induction false} RunCounterSplit(active: int, num: int, resetEvery: int, filters: nat, c1: nat, c2: nat)
    requires filters > 0
    ensures RunCounter(active, num, resetEvery, filters, c1 + c2) ==
            var mid := RunCounter(active, num, resetEvery, filters, c1);
            RunCounter(mid.0, mid.1, resetEvery, filters, c2)
    decreases c2
  {
    if c2 > 0 {
      RunCounterSplit(active, num, resetEvery, filters, c1, c2 - 1);
    }
  }

  /** From a count of `num` below the period, the active filter stays for
      the remaining samples of the period and then moves on. */
  lemma {:induction false} OnePeriod(active: int, resetEvery: int, filters: nat, num: nat)
    requires filters > 0 && resetEvery >= 1 && 0 <= active < filters && num < resetEvery
    ensures RunCounter(active, num, resetEvery, filters, resetEvery - num) == (Advance(active, filters), 0)
    decreases resetEvery - num
  {
    if num + 1 < resetEvery {
      RunCounterSplit(active, num, resetEvery, filters, 1, resetEvery - num - 1);
      assert RunCounter(active, num, resetEvery, filters, 1) == (active, num + 1);
      OnePeriod(active, resetEvery, filters, num + 1);
    } else {
      assert RunCounter(active, num, resetEvery, filters, 1) == (Advance(active, filters), 0);
    }
  }

  /** `CyclingGoertzelFilter`: several Goertzel filters fed the same
      samples, one of them reporting; every `resetEvery` samples the
      reporting one is cleared and the next one takes over. */
  class CyclingGoertzelFilter {
    var freq: real
    var sampleRate: real
    var resetEvery: int
    var filters: seq<GoertzelFilter>
    var active: int
    var num: int

    /** Distinct filters, each in a valid state, and an active index inside
        the list (0 for none). */
    predicate Valid()
      reads this, filters
    {
      (forall i, j | 0 <= i < j < |filters| :: filters[i] != filters[j]) &&
      (forall i | 0 <= i < |filters| :: filters[i].Valid()) &&
      (if |filters| > 0 then 0 <= active < |filters| else active == 0)
    }

    /** `NewCyclingGoertzelFilter`: `count` fresh filters, none active yet
        beyond the first. Go's `make` panics on a negative count. */
    constructor (freq: real, sampleRate: real, resetEvery: int, count: int, cosTurn: real -> real)
      requires sampleRate != 0.0 && count >= 0
      ensures Valid() && |filters| == count && active == 0 && num == 0
      ensures this.freq == freq && this.sampleRate == sampleRate && this.resetEvery == resetEvery
      ensures forall i | 0 <= i < count :: fresh(filters[i]) && filters[i].State() == Cleared &&
                filters[i].Settings() == (freq, sampleRate, freq / sampleRate, 2.0 * cosTurn(freq / sampleRate))
    {
      this.freq, this.sampleRate, this.resetEvery := freq, sampleRate, resetEvery;
      active, num := 0, 0;
      var fs: seq<GoertzelFilter> := [];
      var i := 0;
      while i < count
        invariant 0 <= i <= count && |fs| == i
        invariant forall j, k | 0 <= j < k < i :: fs[j] != fs[k]
        invariant forall j | 0 <= j < i :: fresh(fs[j]) && fs[j].State() == Cleared &&
                    fs[j].Settings() == (freq, sampleRate, freq / sampleRate, 2.0 * cosTurn(freq / sampleRate))
      {
        var g := new GoertzelFilter(freq, sampleRate, cosTurn);
        fs := fs + [g];
        i := i + 1;
      }
      filters := fs;
    }

    /** `Calculate`: every filter takes the sample, the active one's power
        is returned; when the count reaches `resetEvery` the active filter
        is cleared and the next one becomes active. With no filters Go
        panics only when the reset arrives. */
    method Calculate(sample: real) returns (r: real)
      requires Valid()
      requires |filters| > 0 || num + 1 < resetEvery
      modifies this, filters
      ensures Valid() && filters == old(filters) && resetEvery == old(resetEvery)
      ensures |filters| > 0 ==> (active, num) == NextActive(old(active), old(num), resetEvery, |filters|)
      ensures |filters| == 0 ==> active == 0 && num == old(num) + 1
      ensures freq == old(freq) && sampleRate == old(sampleRate)
      ensures forall i | 0 <= i < |filters| ::
                filters[i].Settings() == old(filters[i].Settings()) &&
                filters[i].State() == if old(num) + 1 >= resetEvery && i == old(active) then Cleared
                                      else Fed(old(filters[i].State()), old(filters[i].coeff), sample)
      ensures |filters| > 0 ==>
                var a := old(active);
                r == Reported(Fed(old(filters[a].State()), old(filters[a].coeff), sample), old(filters[a].coeff))
      ensures |filters| == 0 ==> r == 0.0
    {
      num := num + 1;
      var out := FeedAll(filters, active, sample);
      if num >= resetEvery {
        Rotate();
      }
      r := out;
    }

    /** The reset inside `Calculate`: the active filter is cleared, the
        count starts again and the next filter (wrapping to the first)
        becomes active. Go indexes the empty list and panics here. */
    method Rotate()
      requires Valid() && |filters| > 0
      modifies this, filters[active]
      ensures Valid() && filters == old(filters) && resetEvery == old(resetEvery)
      ensures active == Advance(old(active), |filters|) && num == 0
      ensures freq == old(freq) && sampleRate == old(sampleRate)
      ensures forall i | 0 <= i < |filters| ::
                filters[i].Settings() == old(filters[i].Settings()) &&
                filters[i].State() == if i == old(active) then Cleared else old(filters[i].State())
    {
      filters[active].Zero();
      num := 0;
      active := active + 1;
      if active >= |filters| {
        active := 0;
      }
    }
  }

  /** The loop of `CyclingGoertzelFilter.Calculate`: every filter of the
      list takes the sample in turn, and the power reported by the one at
      `active` is kept. */
  method FeedAll(filters: seq<GoertzelFilter>, active: int, sample: real) returns (out: real)
    requires forall j, k | 0 <= j < k < |filters| :: filters[j] != filters[k]
    requires forall j | 0 <= j < |filters| :: filters[j].Valid()
    modifies filters
    ensures forall j | 0 <= j < |filters| ::
              filters[j].Settings() == old(filters[j].Settings()) && filters[j].Valid() &&
              filters[j].State() == Fed(old(filters[j].State()), old(filters[j].coeff), sample)
    ensures 0 <= active < |filters| ==>
              old(filters[active].State()).Valid() &&
              out == Reported(Fed(old(filters[active].State()), old(filters[active].coeff), sample),
                              old(filters[active].coeff))
    ensures !(0 <= active < |filters|) ==> out == 0.0
  {
    out := 0.0;
    var i := 0;
    while i < |filters|
      invariant 0 <= i <= |filters|
      invariant forall j | 0 <= j < |filters| :: old(filters[j].State()).Valid()
      invariant forall j | 0 <= j < |filters| :: filters[j].Settings() == old(filters[j].Settings())
      invariant forall j | 0 <= j < i ::
                  filters[j].Valid() && filters[j].State() == Fed(old(filters[j].State()), old(filters[j].coeff), sample)
      invariant forall j | i <= j < |filters| :: filters[j].State() == old(filters[j].State()) && filters[j].Valid()
      invariant 0 <= active < i ==>
                  out == Reported(Fed(old(filters[active].State()), old(filters[active].coeff), sample),
                                  old(filters[active].coeff))
      invariant !(0 <= active < i) ==> out == 0.0
    {
      var temp := filters[i].Calculate(sample);
      if i == active {
        out := temp;
      }
      i := i + 1;
    }
  }

  // ---- Stack ----

  /** `Stack`: the processors a buffer goes through, in order. */
  class Stack<P> {
    var processors: seq<P>

    /** `NewStack`: a stack holding just `p`. */
    constructor (p: P)
      ensures processors == [p]
    {
      processors := [p];
    }

    /** `Add`: `p` goes last. */
    method Add(p: P)
      modifies this
      ensures processors == old(processors) + [p]
    {
      processors := processors + [p];
    }
  }

  // ---- HarmonicTone ----

  /** b to the power e. */
  function Power(b: real, e: nat): real
    decreases e
  {
    if e == 0 then 1.0 else b * Power(b, e - 1)
  }

  /** The phase step of harmonic i: (i+1)·distance^i times the base
      frequency, as a fraction of the sample rate. */
  function HarmonicStep(freq: real, distance: real, sampleRate: real, i: nat): real
    requires sampleRate != 0.0
  {
    (freq * ((i + 1) as real * Power(distance, i))) / sampleRate
  }

  /** The volume scale of `num` harmonics: 2^(num-1) / (2^num - 1). */
  function VolScale(num: nat): real
    requires num >= 1
  {
    PowerTwoAbove(num);
    Power(2.0, num - 1) / (Power(2.0, num) - 1.0)
  }

  lemma {:induction false} PowerTwoAbove(e: nat)
    ensures Power(2.0, e) >= 1.0
    ensures e >= 1 ==> Power(2.0, e) - 1.0 >= Power(2.0, e - 1)
    decreases e
  {
    if e >= 1 {
      PowerTwoAbove(e - 1);
    }
  }

  /** The volume scale lies in (0, 1]; it is 1 for a single harmonic. */
  lemma VolScaleBounds(num: nat)
    requires num >= 1
    ensures 0.0 < VolScale(num) <= 1.0
    ensures num == 1 ==> VolScale(num) == 1.0
  {
    PowerTwoAbove(num);
    PowerTwoAbove(num - 1);
    DivUnit(Power(2.0, num - 1), Power(2.0, num) - 1.0);
  }

  lemma DivUnit(a: real, b: real)
    requires 0.0 < a <= b
    ensures 0.0 < a / b <= 1.0
  {
    assert a / b * b == a;
  }

  /** `HarmonicTone` as far as its construction goes: one step and one
      phase per harmonic. */
  class HarmonicTone {
    var freq: real
    var sampleRate: real
    var numHarmonics: int
    var harmonicDistance: real
    var vibratoDistance: real
    var vibratoRate: real
    var step: array<real>
    var phase: array<real>
    var volScale: real
    var vibratoStep: real
    var vibratoExtent: real
    var vibratoPos: real

    /** `NewHarmonicTone`: Go panics for fewer than one harmonic. The steps
        come from `SetFreq`; a zero sample rate would give Go infinities,
        which reals do not have. */
    constructor (freq: real, sampleRate: real, num: int, distance: real)
      requires num >= 1 && sampleRate != 0.0
      ensures numHarmonics == num && step.Length == num && phase.Length == num && step != phase
      ensures fresh(step) && fresh(phase)
      ensures this.freq == freq && this.sampleRate == sampleRate && harmonicDistance == distance
      ensures volScale == VolScale(num)
      ensures forall i | 0 <= i < num :: phase[i] == 0.0 && step[i] == HarmonicStep(freq, distance, sampleRate, i)
      ensures vibratoDistance == 0.0 && vibratoRate == 0.0
      ensures vibratoStep == 0.0 && vibratoExtent == 0.0 && vibratoPos == 0.0
    {
      this.freq, this.sampleRate, numHarmonics, harmonicDistance := freq, sampleRate, num, distance;
      vibratoDistance, vibratoRate := 0.0, 0.0;
      vibratoStep, vibratoExtent, vibratoPos := 0.0, 0.0, 0.0;
      step := new real[num](_ => 0.0);
      phase := new real[num](_ => 0.0);
      volScale := VolScale(num);
      new;
      SetFreq(freq);
    }

    /** `SetFreq`: each harmonic's step for the new base frequency. */
    method SetFreq(freq: real)
      requires step.Length == numHarmonics && step != phase && sampleRate != 0.0
      modifies this, step
      ensures this.freq == freq && step.Length == numHarmonics
      ensures sampleRate == old(sampleRate) && harmonicDistance == old(harmonicDistance)
      ensures numHarmonics == old(numHarmonics) && volScale == old(volScale)
      ensures vibratoDistance == old(vibratoDistance) && vibratoRate == old(vibratoRate)
      ensures vibratoStep == old(vibratoStep) && vibratoExtent == old(vibratoExtent) && vibratoPos == old(vibratoPos)
      ensures step == old(step) && phase == old(phase)
      ensures forall i | 0 <= i < numHarmonics :: step[i] == HarmonicStep(freq, harmonicDistance, sampleRate, i)
    {
      this.freq := freq;
      var i := 0;
      while i < numHarmonics
        modifies step
        invariant 0 <= i <= numHarmonics && step.Length == numHarmonics
        invariant forall j | 0 <= j < i :: step[j] == HarmonicStep(freq, harmonicDistance, sampleRate, j)
      {
        step[i] := (freq * ((i + 1) as real * Power(harmonicDistance, i))) / sampleRate;
        i := i + 1;
      }
    }
  }
}
