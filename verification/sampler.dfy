/** The adaptive-bitrate sampler (`BufferManager` in
    zhiboApp/zhiboApp/other/File.swift): once per measurement tick it pushes
    the measured throughput into a window of recent samples, scores the
    trend of the queued-byte observations, and recommends raising, keeping or
    lowering the bitrate. The sampling thread and its clock are outside the
    model: each tick receives the current time and the measured throughput
    (the division of the bytes sent by the elapsed time) as inputs. Times and
    throughputs, Doubles in the source, are exact reals here. */
module Sampler {
  import opened Wire

  /** Throughput samples kept (`sampleCount`, set to 30 and never changed). */
  const SampleCount: nat := 30
  /** Queued-byte observations kept for the trend. */
  const GrowthWindow: nat := 3
  /** Pivot samples kept (`kPivotSamples`). */
  const PivotSamples: nat := 5
  /** Seconds to wait after a decrease before increasing again. */
  const SettlementDelay: real := 30.0
  /** Seconds to wait between two increases once a decrease has happened. */
  const IncreaseDelta: real := 10.0

  datatype BufferManager = BufferManager(
    sentBufferSize: seq<int>,
    bufferSize: seq<int>,
    stopUpdate: bool,
    hasFirstTurndown: bool,
    started: bool,
    previousVector: int,
    bwSamples: seq<real>,
    buffGrowth: seq<int>,
    turnSamples: seq<real>,
    previousTurndown: real,
    previousIncrease: real)

  /** The three windows within their capacities. */
  predicate Bounded(m: BufferManager)
  {
    |m.bwSamples| <= SampleCount && |m.buffGrowth| <= GrowthWindow && |m.turnSamples| <= PivotSamples
  }

  function Init(): (m: BufferManager)
    ensures Bounded(m) && m.stopUpdate && !m.started && !m.hasFirstTurndown
    ensures m.sentBufferSize == [] && m.bufferSize == [] && m.previousVector == 0
    ensures m.bwSamples == [] && m.buffGrowth == [] && m.turnSamples == []
    ensures m.previousTurndown == 0.0 && m.previousIncrease == 0.0
  {
    BufferManager([], [], true, false, false, 0, [], [], [], 0.0, 0.0)
  }

  /** `clear` puts every field back to the value `init` gives it. */
  function Clear(m: BufferManager): (m': BufferManager)
    ensures m' == Init()
  {
    m.(sentBufferSize := [], bufferSize := [], stopUpdate := true, hasFirstTurndown := false,
       started := false, previousVector := 0, bwSamples := [], buffGrowth := [], turnSamples := [],
       previousTurndown := 0.0, previousIncrease := 0.0)
  }

  /** `addSentBuffer`: one more send result for the coming tick. */
  function AddSentBuffer(m: BufferManager, size: int): (m': BufferManager)
    ensures m'.sentBufferSize == m.sentBufferSize + [size]
    ensures m' == m.(sentBufferSize := m'.sentBufferSize)
  {
    m.(sentBufferSize := m.sentBufferSize + [size])
  }

  /** `addBuffer`: one more queued-byte observation for the coming tick. */
  function AddBuffer(m: BufferManager, size: int): (m': BufferManager)
    ensures m'.bufferSize == m.bufferSize + [size]
    ensures m' == m.(bufferSize := m'.bufferSize)
  {
    m.(bufferSize := m.bufferSize + [size])
  }

  /** `start`: acts only when not yet started. */
  function Start(m: BufferManager): (m': BufferManager)
    ensures m.started ==> m' == m
    ensures !m.started ==> m' == m.(started := true, stopUpdate := false)
  {
    if !m.started then m.(started := true, stopUpdate := false) else m
  }

  /** `insert(x, at: 0)` followed by one `popLast` when the count exceeds
      `cap`: the newest entry in front, the oldest dropped. */
  function PushFront<T>(xs: seq<T>, x: T, cap: nat): (r: seq<T>)
    requires cap >= 1
    ensures |r| >= 1 && r[0] == x
    ensures |xs| <= cap ==> |r| <= cap
    ensures |r| == if |xs| + 1 > cap then |xs| else |xs| + 1
    ensures forall i :: 1 <= i < |r| ==> r[i] == xs[i - 1]
    ensures r[1..] <= xs
  {
    var ys := [x] + xs;
    if |ys| > cap then ys[..|ys| - 1] else ys
  }

  /** The score one observation earns against the one walked before it:
      -1 if larger, +1 if smaller, 0 if equal. */
  function Cmp(growth: int, previous: int): int
  {
    if growth > previous then -1 else if growth < previous then 1 else 0
  }

  /** The trend score, as a sum over positions: entry i (newest first) is
      compared with entry i - 1, and the newest with 0. */
  function Score(g: seq<int>): int
  {
    if |g| == 0 then 0
    else Score(g[..|g| - 1]) + Cmp(g[|g| - 1], if |g| == 1 then 0 else g[|g| - 2])
  }

  /** The walk over `buffGrowth` the tick performs, newest to oldest,
      starting from a previous value of 0. */
  method GrowthScore(g: seq<int>) returns (avg: int)
    ensures avg == Score(g)
    ensures -|g| <= avg <= |g|
  {
    avg := 0;
    var preValue := 0;
    var i := 0;
    while i < |g|
      invariant 0 <= i <= |g|
      invariant avg == Score(g[..i])
      invariant -i <= avg <= i
      invariant preValue == if i == 0 then 0 else g[i - 1]
    {
      assert g[..i + 1][..i] == g[..i];
      avg := avg + Cmp(g[i], preValue);
      preValue := g[i];
      i := i + 1;
    }
    assert g[..|g|] == g;
  }

  /** A buffer draining from tick to tick (each newer observation smaller,
      all positive) scores -n over n observations: the first comparison is
      against 0 and every later one finds the older observation larger. */
  lemma {:induction false} DrainingScore(g: seq<int>)
    requires forall i :: 0 <= i < |g| ==> g[i] > 0
    requires forall i :: 1 <= i < |g| ==> g[i - 1] < g[i]
    ensures Score(g) == -|g|
  {
    if |g| > 0 {
      DrainingScore(g[..|g| - 1]);
    }
  }

  /** A buffer growing from tick to tick (each newer observation larger)
      scores n - 2 over n >= 1 observations, which is positive from three on. */
  lemma {:induction false} GrowingScore(g: seq<int>)
    requires |g| >= 1
    requires forall i :: 0 <= i < |g| ==> g[i] > 0
    requires forall i :: 1 <= i < |g| ==> g[i - 1] > g[i]
    ensures Score(g) == |g| - 2
  {
    if |g| > 1 {
      GrowingScore(g[..|g| - 1]);
    }
  }

  /** Observations 100, 80, 60 in time order sit in the window as
      [60, 80, 100] and score -3. */
  lemma DrainingExample()
    ensures Score([60, 80, 100]) == -3
  {
    DrainingScore([60, 80, 100]);
  }

  /** The bitrate vector: -1 (decrease) on a positive score; +1 (increase) on
      a non-positive score when no decrease has happened yet, or when the
      last decrease is more than 30 s and the last increase more than 10 s
      old; 0 (hold) otherwise. */
  function Vector(score: int, hasFirstTurndown: bool, turndownDiff: real, increaseDiff: real): (vec: int)
    ensures vec == -1 <==> score > 0
    ensures vec == 1 <==>
      score <= 0 && (!hasFirstTurndown || (turndownDiff > SettlementDelay && increaseDiff > IncreaseDelta))
    ensures vec == 0 || vec == 1 || vec == -1
  {
    if score <= 0 && (!hasFirstTurndown || (turndownDiff > SettlementDelay && increaseDiff > IncreaseDelta)) then 1
    else if score > 0 then -1
    else 0
  }

  function SumR(xs: seq<real>): real
  {
    if |xs| == 0 then 0.0 else SumR(xs[..|xs| - 1]) + xs[|xs| - 1]
  }

  /** The pivot average, 0 over an empty window. */
  function Average(xs: seq<real>): real
  {
    if |xs| == 0 then 0.0 else SumR(xs) / (|xs| as real)
  }

  /** What a tick receives: the current time, the measured throughput and
      whether a callback is registered. */
  datatype TickInput = TickInput(now: real, detected: real, hasCallback: bool)

  /** What the callback receives: the vector, the pivot average and the
      measured throughput. */
  datatype Callback = Callback(vec: int, turnAvg: real, detected: real)

  /** The part of a tick that runs when queued-byte observations arrived:
      trend, vector, pivots. Returns the updated manager and the pivot
      average. */
  function Trend(m: BufferManager, input: TickInput, bw: seq<real>): (res: (BufferManager, real))
    requires |m.bufferSize| > 0 && |bw| >= 1
    ensures var (m', _) := res;
      && m'.buffGrowth == PushFront(m.buffGrowth, m.bufferSize[|m.bufferSize| - 1], GrowthWindow)
      && |m'.buffGrowth| >= 1 && m'.buffGrowth[0] == m.bufferSize[|m.bufferSize| - 1]
      && m'.buffGrowth[1..] <= m.buffGrowth
      && (|m.buffGrowth| <= GrowthWindow ==> |m'.buffGrowth| <= GrowthWindow)
      && m'.previousVector == Vector(Score(m'.buffGrowth), m.hasFirstTurndown,
                                     input.now - m.previousTurndown, input.now - m.previousIncrease)
      && m'.hasFirstTurndown == (m.hasFirstTurndown || m'.previousVector == -1)
      && m'.previousTurndown == (if m'.previousVector == -1 then input.now else m.previousTurndown)
      && (|m.turnSamples| <= PivotSamples ==> |m'.turnSamples| <= PivotSamples)
      && (m.previousVector < 0 && m'.previousVector >= 0 ==>
            |m'.turnSamples| > 0 && (m'.turnSamples[0] == bw[0] || m'.turnSamples[0] == input.detected))
      // The average is taken after the turn push, and a throughput above it
      // is pushed as a pivot too.
      && (var turns := Turned(m.turnSamples, m.previousVector, m'.previousVector, bw[0]);
          && res.1 == Average(turns)
          && m'.turnSamples == (if input.detected > res.1 then PushFront(turns, input.detected, PivotSamples) else turns))
      && m' == m.(buffGrowth := m'.buffGrowth, previousVector := m'.previousVector,
                  hasFirstTurndown := m'.hasFirstTurndown, previousTurndown := m'.previousTurndown,
                  turnSamples := m'.turnSamples)
  {
    var lastSize := m.bufferSize[|m.bufferSize| - 1];
    var growth := PushFront(m.buffGrowth, lastSize, GrowthWindow);
    var score := Score(growth);
    var vec := Vector(score, m.hasFirstTurndown, input.now - m.previousTurndown, input.now - m.previousIncrease);
    var hasFirst := if vec == -1 then true else m.hasFirstTurndown;
    var turndown := if vec == -1 then input.now else m.previousTurndown;
    var turns := Turned(m.turnSamples, m.previousVector, vec, bw[0]);
    var turnAvg := Average(turns);
    var turns' := if input.detected > turnAvg then PushFront(turns, input.detected, PivotSamples) else turns;
    (m.(buffGrowth := growth, previousVector := vec, hasFirstTurndown := hasFirst,
        previousTurndown := turndown, turnSamples := turns'), turnAvg)
  }

  /** The pivot window after a possible turn: when the vector stops
      decreasing, the newest throughput sample is pushed as a pivot. */
  function Turned(turns: seq<real>, previousVector: int, vec: int, newest: real): (t: seq<real>)
    ensures previousVector < 0 && vec >= 0 ==> |t| > 0 && t[0] == newest && t[1..] <= turns
    ensures !(previousVector < 0 && vec >= 0) ==> t == turns
    ensures |turns| <= PivotSamples ==> |t| <= PivotSamples
  {
    if previousVector < 0 && vec >= 0 then PushFront(turns, newest, PivotSamples) else turns
  }

  /** One pass of the sampling loop; a stopped manager does not tick. */
  function Tick(m: BufferManager, input: TickInput): (res: (BufferManager, Option<Callback>))
    ensures m.stopUpdate ==> res == (m, None)
    ensures !m.stopUpdate ==> var (m', cb) := res;
      // Both accumulators are drained.
      && m'.sentBufferSize == [] && m'.bufferSize == []
      // The new sample goes in front of a window of at most 30.
      && m'.bwSamples == PushFront(m.bwSamples, input.detected, SampleCount)
      && |m'.bwSamples| >= 1 && m'.bwSamples[0] == input.detected
      && (|m.bwSamples| <= SampleCount ==> |m'.bwSamples| <= SampleCount)
      && (Bounded(m) ==> Bounded(m'))
      // The callback fires exactly when one is registered.
      && (cb.Some? <==> input.hasCallback)
      && (cb.Some? ==> cb.value.detected == input.detected)
      && m'.previousIncrease ==
           (if input.hasCallback && cb.value.vec > 0 then input.now else m.previousIncrease)
      && m'.stopUpdate == m.stopUpdate && m'.started == m.started
    ensures !m.stopUpdate && |m.bufferSize| == 0 ==> var (m', cb) := res;
      // No observations: hold, and the trend state stays as it was.
      && (cb.Some? ==> cb.value.vec == 0 && cb.value.turnAvg == 0.0)
      && m'.buffGrowth == m.buffGrowth && m'.turnSamples == m.turnSamples
      && m'.previousVector == m.previousVector && m'.hasFirstTurndown == m.hasFirstTurndown
      && m'.previousTurndown == m.previousTurndown
    ensures !m.stopUpdate && |m.bufferSize| > 0 ==> var (m', cb) := res;
      // The latest observation leads a window of at most 3, the vector
      // follows from its score, and a decrease is remembered.
      && m'.buffGrowth == PushFront(m.buffGrowth, m.bufferSize[|m.bufferSize| - 1], GrowthWindow)
      && |m'.buffGrowth| >= 1 && m'.buffGrowth[0] == m.bufferSize[|m.bufferSize| - 1]
      && m'.buffGrowth[1..] <= m.buffGrowth
      && m'.previousVector == Vector(Score(m'.buffGrowth), m.hasFirstTurndown,
                                     input.now - m.previousTurndown, input.now - m.previousIncrease)
      && (cb.Some? ==> cb.value.vec == m'.previousVector)
      && m'.hasFirstTurndown == (m.hasFirstTurndown || m'.previousVector == -1)
      && m'.previousTurndown == (if m'.previousVector == -1 then input.now else m.previousTurndown)
      && (m.previousVector < 0 && m'.previousVector >= 0 ==>
            |m'.turnSamples| > 0 && m'.turnSamples[0] == input.detected)
      // The reported average is the pivot average after the turn push, and
      // a throughput above it becomes a pivot as well.
      && (var turns := Turned(m.turnSamples, m.previousVector, m'.previousVector, input.detected);
          && (cb.Some? ==> cb.value.turnAvg == Average(turns))
          && m'.turnSamples ==
               (if input.detected > Average(turns) then PushFront(turns, input.detected, PivotSamples) else turns))
  {
    if m.stopUpdate then (m, None)
    else
      var bw := PushFront(m.bwSamples, input.detected, SampleCount);
      if |m.bufferSize| == 0 then
        Report(m.(bwSamples := bw, sentBufferSize := [], bufferSize := []), input, 0, 0.0)
      else
        var (t, turnAvg) := Trend(m, input, bw);
        Report(t.(bwSamples := bw, sentBufferSize := [], bufferSize := []), input, t.previousVector, turnAvg)
  }

  /** The end of a tick: the callback, and the increase instant when it
      recommends an increase. */
  function Report(m: BufferManager, input: TickInput, vec: int, turnAvg: real): (res: (BufferManager, Option<Callback>))
    ensures res.0 == m.(previousIncrease := res.0.previousIncrease)
    ensures res.1.Some? <==> input.hasCallback
    ensures res.1.Some? ==> res.1.value == Callback(vec, turnAvg, input.detected)
    ensures res.0.previousIncrease == if input.hasCallback && vec > 0 then input.now else m.previousIncrease
  {
    if input.hasCallback then
      (if vec > 0 then m.(previousIncrease := input.now) else m, Some(Callback(vec, turnAvg, input.detected)))
    else (m, None)
  }

  /** A run of ticks. */
  function Ticks(m: BufferManager, inputs: seq<TickInput>): BufferManager
  {
    if |inputs| == 0 then m else Tick(Ticks(m, inputs[..|inputs| - 1]), inputs[|inputs| - 1]).0
  }

  /** However long the sampler runs, each window stays within its capacity
      and the latest throughput leads the sample window. */
  lemma {:induction false} TicksStayBounded(m: BufferManager, inputs: seq<TickInput>)
    requires Bounded(m)
    ensures Bounded(Ticks(m, inputs))
    ensures |inputs| > 0 && !m.stopUpdate ==>
      |Ticks(m, inputs).bwSamples| > 0 && Ticks(m, inputs).bwSamples[0] == inputs[|inputs| - 1].detected
  {
    if |inputs| > 0 {
      TicksStayBounded(m, inputs[..|inputs| - 1]);
      var before := Ticks(m, inputs[..|inputs| - 1]);
      assert before.stopUpdate == m.stopUpdate by {
        StopUpdateKept(m, inputs[..|inputs| - 1]);
      }
    }
  }

  /** Ticks never start or stop the sampler. */
  lemma {:induction false} StopUpdateKept(m: BufferManager, inputs: seq<TickInput>)
    ensures Ticks(m, inputs).stopUpdate == m.stopUpdate
    ensures Ticks(m, inputs).started == m.started
  {
    if |inputs| > 0 {
      StopUpdateKept(m, inputs[..|inputs| - 1]);
    }
  }

  /** Within the settlement delay after a decrease the sampler never
      recommends an increase. */
  lemma NoIncreaseWhileSettling(m: BufferManager, input: TickInput)
    requires !m.stopUpdate && |m.bufferSize| > 0
    requires m.hasFirstTurndown && input.now - m.previousTurndown <= SettlementDelay
    ensures Tick(m, input).0.previousVector != 1
    ensures Tick(m, input).1.Some? ==> Tick(m, input).1.value.vec != 1
  {
  }
}
