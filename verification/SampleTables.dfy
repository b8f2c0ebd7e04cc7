/** Finding a sample in an MP4 file by its tables (jni/alac/m4a.c lines 129-247), against what the tables mean by
    sections 8.6.1, 8.7.3, 8.7.4 and 8.7.5 of ISO/IEC 14496-12. */
module SampleTables {
  import opened Machine

  /** A run of chunks with equally many samples, from `first` (counted from one) to the next run's first. */
  datatype Run = Run(first: u32, samples: u32)

  /** A run of samples of the same duration. */
  datatype Times = Times(count: u32, duration: u32)

  /** `demux_res_t`, as far as it is looked at here. */
  datatype Tables = Tables(chunkRuns: seq<Run>, chunkOffsets: seq<u32>, sizes: seq<u32>, times: seq<Times>,
                           mdatOffset: u32, mdatLen: u32)

  // ---------------------------------------------------------------- what the tables mean

  /** The run that chunk c belongs to, among the first n. */
  function RunOf(t: Tables, c: nat, n: nat): (i: nat)
    requires 0 < n <= |t.chunkRuns|
    ensures i < n
    decreases n
  {
    if n == 1 || t.chunkRuns[n - 1].first <= c then n - 1 else RunOf(t, c, n - 1)
  }

  function SamplesIn(t: Tables, c: nat): nat
    requires t.chunkRuns != []
  {
    t.chunkRuns[RunOf(t, c, |t.chunkRuns|)].samples
  }

  /** The number of the first sample of chunk c: all samples in the chunks before it. */
  function FirstSample(t: Tables, c: nat): nat
    requires t.chunkRuns != []
    decreases c
  {
    if c <= 1 then 0 else FirstSample(t, c - 1) + SamplesIn(t, c - 1)
  }

  predicate Positive(t: Tables) {
    t.chunkRuns != [] && forall i :: 0 <= i < |t.chunkRuns| ==> t.chunkRuns[i].samples > 0
  }

  /** The chunk that holds a sample, looked for from chunk c on. */
  function ChunkOf(t: Tables, sample: nat, c: nat): (r: nat)
    requires Positive(t) && c >= 1 && FirstSample(t, c) <= sample
    ensures r >= c && FirstSample(t, r) <= sample < FirstSample(t, r + 1)
    decreases sample - FirstSample(t, c)
  {
    if sample < FirstSample(t, c + 1) then c else ChunkOf(t, sample, c + 1)
  }

  function SizeSum(sizes: seq<u32>, from: nat, end: nat): nat
    requires from <= end <= |sizes|
    decreases end
  {
    if from == end then 0 else SizeSum(sizes, from, end - 1) + sizes[end - 1]
  }

  /** Where a sample is in the file: behind the samples before it in its chunk. */
  function Offset(t: Tables, sample: nat): nat
    requires Positive(t) && sample < |t.sizes| && ChunkOf(t, sample, 1) <= |t.chunkOffsets|
  {
    var c := ChunkOf(t, sample, 1);
    t.chunkOffsets[c - 1] + SizeSum(t.sizes, FirstSample(t, c), sample)
  }

  // ---------------------------------------------------------------- runs of chunks

  predicate Ascending(t: Tables) {
    && Positive(t) && t.chunkRuns[0].first == 1
    && forall i, j :: 0 <= i < j < |t.chunkRuns| ==> t.chunkRuns[i].first < t.chunkRuns[j].first
  }

  /** Chunk c is in run i. */
  predicate InRun(t: Tables, i: nat, c: nat)
    requires i < |t.chunkRuns|
  {
    t.chunkRuns[i].first <= c && (i + 1 < |t.chunkRuns| ==> c < t.chunkRuns[i + 1].first)
  }

  lemma {:induction false} RunFound(t: Tables, i: nat, c: nat, n: nat)
    requires Ascending(t) && i < n <= |t.chunkRuns| && InRun(t, i, c)
    ensures RunOf(t, c, n) == i
    decreases n
  {
    if i < n - 1 {
      assert t.chunkRuns[i + 1].first <= t.chunkRuns[n - 1].first;
      RunFound(t, i, c, n - 1);
    }
  }

  /** Within a run every chunk adds the same number of samples. */
  lemma {:induction false} RunCounts(t: Tables, i: nat, k: nat)
    requires Ascending(t) && i < |t.chunkRuns|
    requires i + 1 < |t.chunkRuns| ==> t.chunkRuns[i].first + k <= t.chunkRuns[i + 1].first
    ensures FirstSample(t, t.chunkRuns[i].first + k)
            == FirstSample(t, t.chunkRuns[i].first) + Product(k, t.chunkRuns[i].samples)
    decreases k
  {
    hide Product;
    var f := t.chunkRuns[i].first;
    ProductSteps(k, t.chunkRuns[i].samples);
    if k == 0 {
    } else {
      RunCounts(t, i, k - 1);
      ProductSteps(k - 1, t.chunkRuns[i].samples);
      assert f >= 1 by { FirstsPositive(t, i); }
      RunFound(t, i, f + k - 1, |t.chunkRuns|);
    }
  }

  lemma FirstsPositive(t: Tables, i: nat)
    requires Ascending(t) && i < |t.chunkRuns|
    ensures t.chunkRuns[i].first >= 1
  {
  }

  function Product(x: int, y: int): int {
    x * y
  }

  lemma ProductSteps(k: nat, n: nat)
    ensures Product(0, n) == 0 && Product(k + 1, n) == Product(k, n) + n && Product(k, n) >= 0
  {
  }

  lemma {:induction false} FirstsRise(t: Tables, a: nat, b: nat)
    requires Positive(t) && 1 <= a <= b
    ensures FirstSample(t, a) + (b - a) <= FirstSample(t, b)
    decreases b
  {
    if a < b {
      FirstsRise(t, a, b - 1);
    }
  }

  /** Only one chunk holds a sample. */
  lemma {:induction false} ChunkFound(t: Tables, sample: nat, c: nat, from: nat)
    requires Positive(t) && 1 <= from <= c && FirstSample(t, from) <= sample
    requires FirstSample(t, c) <= sample < FirstSample(t, c + 1)
    ensures ChunkOf(t, sample, from) == c
    decreases c - from
  {
    if from < c {
      FirstsRise(t, from + 1, c);
      ChunkFound(t, sample, c, from + 1);
    }
  }

  // ---------------------------------------------------------------- get_sample_offset

  /** Tables as a file ought to have them, small enough for 32 bits. */
  predicate WellFormed(t: Tables) {
    && Ascending(t) && t.chunkOffsets != []
    && FirstSample(t, t.chunkRuns[|t.chunkRuns| - 1].first) < TWO32
  }

  /** The run in which the search of get_sample_offset ends. */
  method FindRun(t: Tables, sample: u32) returns (i: nat, totalSamples: u32)
    requires WellFormed(t)
    ensures i < |t.chunkRuns| && totalSamples == FirstSample(t, t.chunkRuns[i].first) <= sample
    ensures i + 1 < |t.chunkRuns| ==> sample < FirstSample(t, t.chunkRuns[i + 1].first)
  {
    hide Product, FirstSample, U32, Ascending;
    StartsAtNone(t);
    totalSamples := 0;
    i := 0;
    while i + 1 < |t.chunkRuns|
      invariant i < |t.chunkRuns| && totalSamples == FirstSample(t, t.chunkRuns[i].first) <= sample
    {
      var prev, chunk := t.chunkRuns[i], t.chunkRuns[i + 1].first;
      RunsRise(t, i);
      RunCounts(t, i, chunk - prev.first);
      NextFits(t, i);
      ProductSteps(chunk - prev.first, prev.samples);
      SmallStays(chunk - prev.first);
      SmallStays(Product(chunk - prev.first, prev.samples));
      SmallStays(totalSamples + Product(chunk - prev.first, prev.samples));
      var rangeSamples := U32(Product(U32(chunk - prev.first), prev.samples));
      if sample < U32(totalSamples + rangeSamples) {
        return;
      }
      totalSamples := U32(totalSamples + rangeSamples);
      i := i + 1;
    }
  }

  lemma SmallStays(x: nat)
    requires x < TWO32
    ensures U32(x) == x
  {
  }

  lemma StartsAtNone(t: Tables)
    requires Ascending(t)
    ensures t.chunkRuns != [] && t.chunkRuns[0].first == 1 && FirstSample(t, 1) == 0
    ensures forall i :: 0 <= i < |t.chunkRuns| ==> t.chunkRuns[i].samples > 0
  {
  }

  lemma RunsRise(t: Tables, i: nat)
    requires Ascending(t) && i + 1 < |t.chunkRuns|
    ensures t.chunkRuns[i].first < t.chunkRuns[i + 1].first
  {
  }

  lemma NextFits(t: Tables, i: nat)
    requires WellFormed(t) && i + 1 < |t.chunkRuns|
    ensures FirstSample(t, t.chunkRuns[i + 1].first) < TWO32
  {
    var n := |t.chunkRuns| - 1;
    FirstsPositive(t, i + 1);
    if i + 1 < n {
      FirstsRise(t, t.chunkRuns[i + 1].first, t.chunkRuns[n].first);
    }
  }

  /** The chunk get_sample_offset decides on, and its first sample. */
  method FindChunk(t: Tables, sample: u32) returns (chunk: nat, chunkSample: nat)
    requires WellFormed(t)
    ensures chunk == ChunkOf(t, sample, 1) && chunkSample == FirstSample(t, chunk)
  {
    hide Product, Quotient, FirstSample, ChunkOf, Ascending;
    var i, totalSamples := FindRun(t, sample);
    StartsAtNone(t);
    var prev := t.chunkRuns[i];
    FirstsPositive(t, i);
    if sample >= t.chunkRuns[0].samples {
      var k := Quotient(sample - totalSamples, prev.samples);
      chunk := prev.first + k;
      DivisionPlaces(sample - totalSamples, prev.samples);
      InThatRun(t, i, k, sample);
    } else {
      chunk := 1;
      InFirstRun(t, i, sample);
      assert prev.first == 1;
      if i + 1 < |t.chunkRuns| {
        RunsRise(t, i);
      }
    }
    assert chunk >= prev.first;
    ProductSteps(chunk - prev.first, prev.samples);
    chunkSample := totalSamples + Product(chunk - prev.first, prev.samples);
    RunCounts(t, i, chunk - prev.first);
    ChunkFound(t, sample, chunk, 1);
  }

  lemma DivisionPlaces(x: nat, d: nat)
    requires d > 0
    ensures Product(Quotient(x, d), d) <= x < Product(Quotient(x, d) + 1, d)
  {
    ProductSteps(x / d, d);
    assert x == x / d * d + x % d;
  }

  function Quotient(x: nat, d: nat): nat
    requires d > 0
  {
    x / d
  }

  /** The division finds the chunk within its run. */
  lemma InThatRun(t: Tables, i: nat, k: nat, sample: nat)
    requires Ascending(t) && i < |t.chunkRuns|
    requires var r := t.chunkRuns[i];
             var before := FirstSample(t, r.first);
             before + Product(k, r.samples) <= sample < before + Product(k + 1, r.samples)
    requires i + 1 < |t.chunkRuns| ==> sample < FirstSample(t, t.chunkRuns[i + 1].first)
    ensures var c := t.chunkRuns[i].first + k;
            InRun(t, i, c) && FirstSample(t, c) <= sample < FirstSample(t, c + 1)
  {
    hide Product;
    var r := t.chunkRuns[i];
    if i + 1 < |t.chunkRuns| {
      var len := t.chunkRuns[i + 1].first - r.first;
      RunCounts(t, i, len);
      if k >= len {
        ProductRises(len, k, r.samples);
        assert false;
      }
    }
    RunCounts(t, i, k);
    RunCounts(t, i, k + 1);
  }

  lemma ProductRises(a: nat, b: nat, n: nat)
    requires a <= b
    ensures Product(a, n) <= Product(b, n)
  {
  }

  /** A sample of the first chunk is found in the first run. */
  lemma InFirstRun(t: Tables, i: nat, sample: nat)
    requires WellFormed(t) && i < |t.chunkRuns| && sample < t.chunkRuns[0].samples
    requires FirstSample(t, t.chunkRuns[i].first) <= sample
    ensures i == 0 && FirstSample(t, 1) <= sample < FirstSample(t, 2)
  {
    RunFound(t, 0, 1, |t.chunkRuns|);
    if i > 0 {
      FirstsRise(t, 2, t.chunkRuns[i].first);
      assert false;
    }
  }

  /** `get_sample_offset`. */
  method GetSampleOffset(t: Tables, sample: u32) returns (offset: u32)
    requires t.chunkRuns == [] || t.chunkOffsets == [] || WellFormed(t)
    ensures sample >= |t.sizes| || t.chunkRuns == [] || t.chunkOffsets == [] ==> offset == 0
    ensures sample < |t.sizes| && WellFormed(t) && ChunkOf(t, sample, 1) <= |t.chunkOffsets| && Offset(t, sample) < TWO32
            && t.mdatOffset + t.mdatLen < TWO32
            ==> offset == if Offset(t, sample) > t.mdatOffset + t.mdatLen then 0 else Offset(t, sample)
  {
    hide ChunkOf, FirstSample, SizeSum;
    if sample >= |t.sizes| || |t.chunkRuns| == 0 || |t.chunkOffsets| == 0 {
      return 0;
    }
    var chunk, chunkSample := FindChunk(t, sample);
    FoundPlaces(t, sample);
    var fileOffset: u32;
    if chunk > |t.chunkOffsets| {
      fileOffset := t.chunkOffsets[|t.chunkOffsets| - 1];
    } else {
      fileOffset := t.chunkOffsets[chunk - 1];
    }
    if chunkSample > sample {
      return 0;
    }
    ghost var start := fileOffset;
    NoSizes(t.sizes, chunkSample);
    var i := chunkSample;
    while i < sample
      invariant chunkSample <= i <= sample && fileOffset == U32(start + SizeSum(t.sizes, chunkSample, i))
    {
      OneSize(t.sizes, chunkSample, i);
      SumWraps(start + SizeSum(t.sizes, chunkSample, i), t.sizes[i]);
      fileOffset := U32(fileOffset + t.sizes[i]);
      i := i + 1;
    }
    if fileOffset > U32(t.mdatOffset + t.mdatLen) {
      return 0;
    }
    return fileOffset;
  }

  lemma FoundPlaces(t: Tables, sample: nat)
    requires WellFormed(t)
    ensures ChunkOf(t, sample, 1) >= 1 && FirstSample(t, ChunkOf(t, sample, 1)) <= sample
  {
  }

  lemma NoSizes(sizes: seq<u32>, from: nat)
    requires from <= |sizes|
    ensures SizeSum(sizes, from, from) == 0
  {
  }

  lemma OneSize(sizes: seq<u32>, from: nat, end: nat)
    requires from <= end < |sizes|
    ensures SizeSum(sizes, from, end + 1) == SizeSum(sizes, from, end) + sizes[end]
  {
  }

  lemma SumWraps(a: nat, b: nat)
    ensures U32(U32(a) + b) == U32(a + b)
  {
  }

  // ---------------------------------------------------------------- get_sample_info

  /** How many samples the first n runs of the time table cover. */
  function Covered(times: seq<Times>, n: nat): nat
    requires n <= |times|
  {
    if n == 0 then 0 else Covered(times, n - 1) + times[n - 1].count
  }

  /** The sum that get_sample_info compares with: where run k ends, in 32 bits. */
  function End(times: seq<Times>, k: nat): u32
    requires k < |times|
  {
    U32(Covered(times, k + 1))
  }

  /** `get_sample_info`: the sample's size and the duration of the first run whose end is beyond it; refused exactly when
      there is no such sample or no such run. */
  method GetSampleInfo(t: Tables, sample: u32) returns (ok: bool, duration: u32, size: u32, ghost run: nat)
    ensures ok <==> sample < |t.sizes| && exists k :: 0 <= k < |t.times| && sample < End(t.times, k)
    ensures ok ==> && size == t.sizes[sample]
                   && run < |t.times| && duration == t.times[run].duration
                   && sample < End(t.times, run) && forall j :: 0 <= j < run ==> End(t.times, j) <= sample
  {
    duration, size, run := 0, 0, 0;
    if sample >= |t.sizes| {
      return false, 0, 0, 0;
    }
    if |t.times| == 0 {
      return false, 0, 0, 0;
    }
    var accum: u32, cur := 0, 0;
    SumWraps(0, t.times[0].count);
    while U32(t.times[cur].count + accum) <= sample
      invariant 0 <= cur < |t.times| && accum == U32(Covered(t.times, cur))
      invariant U32(t.times[cur].count + accum) == End(t.times, cur)
      invariant forall j :: 0 <= j < cur ==> End(t.times, j) <= sample
      decreases |t.times| - cur
    {
      accum := U32(accum + t.times[cur].count);
      cur := cur + 1;
      if cur >= |t.times| {
        return false, 0, 0, 0;
      }
      SumWraps(Covered(t.times, cur), t.times[cur].count);
    }
    return true, t.times[cur].duration, t.sizes[sample], cur;
  }

  /** The run that covers a sample is the one found if and only if it ends below 2^32; if not, its end has wrapped and
      the search passes it. */
  lemma RunFoundExactly(times: seq<Times>, sample: u32, k: nat)
    requires k < |times| && Covered(times, k) <= sample < Covered(times, k + 1)
    ensures forall j :: 0 <= j < k ==> End(times, j) <= sample
    ensures sample < End(times, k) <==> Covered(times, k + 1) < TWO32
  {
    forall j | 0 <= j < k
      ensures End(times, j) <= sample
    {
      CoveredRises(times, j + 1, k);
    }
  }

  /** A sample that is covered and refused. */
  lemma WrappedRunIsPassed()
    ensures var times, sample := [Times(0xffff_fffe, 1), Times(3, 2)], 0xffff_fffe;
            && Covered(times, 1) <= sample < Covered(times, 2)
            && forall k :: 0 <= k < |times| ==> End(times, k) <= sample
  {
    var times := [Times(0xffff_fffe, 1), Times(3, 2)];
    assert Covered(times, 1) == Covered(times, 0) + times[0].count;
  }

  /** Every sample below the total is covered by a run. */
  lemma {:induction false} CoveringRun(times: seq<Times>, sample: nat, n: nat) returns (k: nat)
    requires n <= |times| && sample < Covered(times, n)
    ensures k < n && Covered(times, k) <= sample < Covered(times, k + 1)
  {
    if Covered(times, n - 1) <= sample {
      k := n - 1;
    } else {
      k := CoveringRun(times, sample, n - 1);
    }
  }

  /** As long as the times cover less than 2^32 samples, all those covered are found and no others. */
  lemma AllCoveredFound(times: seq<Times>, sample: u32)
    requires Covered(times, |times|) < TWO32
    ensures (exists k :: 0 <= k < |times| && sample < End(times, k)) <==> sample < Covered(times, |times|)
  {
    if sample < Covered(times, |times|) {
      var k := CoveringRun(times, sample, |times|);
      CoveredRises(times, k + 1, |times|);
      RunFoundExactly(times, sample, k);
    } else {
      forall k | 0 <= k < |times|
        ensures End(times, k) <= sample
      {
        CoveredRises(times, k + 1, |times|);
      }
    }
  }

  lemma {:induction false} CoveredRises(times: seq<Times>, n: nat, m: nat)
    requires n <= m <= |times|
    ensures Covered(times, n) <= Covered(times, m)
    decreases m - n
  {
    if n == m {
    } else {
      CoveredRises(times, n, m - 1);
    }
  }
}
