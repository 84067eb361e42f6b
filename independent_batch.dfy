/**
 * `sample_batch`: one initial buffer, cloned once per sample, and the
 * single-row decode loop run on each clone in turn. The decoder's incremental
 * state is one object for the whole call, so every sample is decoded after
 * the history of the samples before it.
 */
module IndependentBatch {
  import opened Wrappers
  import opened Vocabulary
  import opened Decoding
  import opened TokenBuffer
  import opened SingleSample

  /** One entry of the encoder's output dict, seen along its sample axis. */
  datatype EncoderField<T> = Batched(items: seq<T>) | Unsliceable(value: T)

  const EncoderOutKey: string := "encoder_out"
  const PaddingMaskKey: string := "encoder_padding_mask"

  /**
   * `field[s:s+1]`: sample `s`'s entry, or nothing when there is no such
   * sample; a value that cannot be sliced is kept whole (the `except` branch).
   */
  function SliceField<T>(f: EncoderField<T>, s: nat): EncoderField<T> {
    match f
    case Batched(items) => Batched(if s < |items| then items[s..s + 1] else [])
    case Unsliceable(_) => f
  }

  /** The per-sample slices of a batched entry for samples `0` to `n - 1`. */
  function SampleSlices<T>(items: seq<T>, n: nat): (parts: seq<seq<T>>)
    ensures |parts| == n
    ensures forall s :: 0 <= s < n ==> parts[s] == SliceField(Batched(items), s).items
  {
    seq(n, s requires 0 <= s < n => SliceField(Batched(items), s).items)
  }

  /**
   * The per-sample slices of a batched entry, for samples `0` to `n - 1`,
   * put back together in order, give the first `n` items: the slices
   * partition the batch, each item going to exactly one sample.
   */
  lemma {:induction false} SlicesPartition<T>(items: seq<T>, n: nat)
    requires n <= |items|
    ensures Join(SampleSlices(items, n)) == items[..n]
  {
    if n > 0 {
      var parts := SampleSlices(items, n);
      SlicesPartition(items, n - 1);
      assert parts[..n - 1] == SampleSlices(items, n - 1);
      assert parts[n - 1] == [items[n - 1]];
      assert items[..n] == items[..n - 1] + [items[n - 1]];
    }
  }

  /**
   * The encoder output handed to the decoder for sample `s`: every key of the
   * whole batch's output, each sliced to sample `s`.
   */
  function SliceEncoderOut<T>(all: map<string, EncoderField<T>>, s: nat): (r: map<string, EncoderField<T>>)
    requires EncoderOutKey in all && PaddingMaskKey in all
    ensures r.Keys == all.Keys
    ensures forall key :: key in all ==> r[key] == SliceField(all[key], s)
  {
    map key | key in all :: SliceField(all[key], s)
  }

  /**
   * The loop at lines 194-225 on `n` clones of `b0`: sample after sample, each
   * decoded by the single-row loop from the history the earlier ones left.
   */
  function RunSamples(b0: seq<int>, n: nat, h: seq<Event>, d: Oracle, m: int): (r: (seq<seq<int>>, seq<Event>))
    requires |b0| >= 1
    ensures |r.0| == n
    ensures h <= r.1
  {
    if n == 0 then ([], h)
    else
      var (bs, h1) := RunSamples(b0, n - 1, h, d, m);
      var (b, h2) := RunFrom(b0, 1, h1, d, m);
      (bs + [b], h2)
  }

  /** The schedules of the finished samples `bs`, one after another. */
  function Schedules(b0: seq<int>, bs: seq<seq<int>>, m: int): seq<Event>
    requires |b0| >= 1 && forall s :: 0 <= s < |bs| ==> |bs[s]| == |b0|
  {
    if bs == [] then [] else Schedules(b0, bs[..|bs| - 1], m) + Schedule(b0, bs[|bs| - 1], 1, m)
  }

  /**
   * One more finished sample: when the history so far is `h` followed by the
   * schedules of `bs`, appending the schedule of `b` gives `h` followed by the
   * schedules of `bs + [b]`.
   */
  lemma SchedulesSnoc(b0: seq<int>, bs: seq<seq<int>>, b: seq<int>, m: int, h: seq<Event>, h1: seq<Event>, h2: seq<Event>)
    requires |b0| >= 1 && |b| == |b0| && forall s :: 0 <= s < |bs| ==> |bs[s]| == |b0|
    requires h1 == h + Schedules(b0, bs, m) && h2 == h1 + Schedule(b0, b, 1, m)
    ensures h2 == h + Schedules(b0, bs + [b], m)
  {
    assert (bs + [b])[..|bs|] == bs;
    var earlier, next := Schedules(b0, bs, m), Schedule(b0, b, 1, m);
    assert Schedules(b0, bs + [b], m) == earlier + next;
    assert (h + earlier) + next == h + (earlier + next);
  }

  /** `sample_batch` returns `n` buffers, each a resolved decode of the same initial buffer. */
  lemma {:induction false} RunSamplesResolved(b0: seq<int>, n: nat, h: seq<Event>, d: Oracle, m: int, size: nat)
    requires |b0| >= 1 && DrawsInRange(d, size)
    requires forall k :: 0 <= k < |b0| ==> 0 <= b0[k] < size
    ensures |RunSamples(b0, n, h, d, m).0| == n
    ensures forall s :: 0 <= s < n ==> Resolved(b0, RunSamples(b0, n, h, d, m).0[s], m, size)
  {
    if n > 0 {
      var (bs, h1) := RunSamples(b0, n - 1, h, d, m);
      RunSamplesResolved(b0, n - 1, h, d, m, size);
      RunResolves(b0, h1, d, m, size);
    }
  }

  /** `n` samples come back, each as long as the initial buffer. */
  lemma {:induction false} RunSamplesShape(b0: seq<int>, n: nat, h: seq<Event>, d: Oracle, m: int)
    requires |b0| >= 1
    ensures |RunSamples(b0, n, h, d, m).0| == n
    ensures forall s :: 0 <= s < n ==> |RunSamples(b0, n, h, d, m).0[s]| == |b0|
  {
    if n > 0 {
      var (bs, h1) := RunSamples(b0, n - 1, h, d, m);
      RunSamplesShape(b0, n - 1, h, d, m);
      RunFromFrame(b0, 1, h1, d, m);
    }
  }

  /** The history of the per-sample loop is the samples' schedules, one after another. */
  lemma {:induction false} RunSamplesHistory(b0: seq<int>, n: nat, h: seq<Event>, d: Oracle, m: int)
    requires |b0| >= 1
    ensures |RunSamples(b0, n, h, d, m).0| == n
    ensures forall s :: 0 <= s < n ==> |RunSamples(b0, n, h, d, m).0[s]| == |b0|
    ensures RunSamples(b0, n, h, d, m).1 == h + Schedules(b0, RunSamples(b0, n, h, d, m).0, m)
  {
    if n > 0 {
      var prev := RunSamples(b0, n - 1, h, d, m);
      RunSamplesHistory(b0, n - 1, h, d, m);
      RunFromSchedule(b0, 1, prev.1, d, m);
      var last := RunFrom(b0, 1, prev.1, d, m);
      assert RunSamples(b0, n, h, d, m) == (prev.0 + [last.0], last.1);
      SchedulesSnoc(b0, prev.0, last.0, m, h, prev.1, last.1);
    }
  }

  /**
   * Sample `s` of the per-sample loop is decoded exactly as `sample` would
   * decode it after the calls and draws of samples `0` to `s - 1`.
   */
  lemma {:induction false} RunSamplesSharedAt(b0: seq<int>, n: nat, h: seq<Event>, d: Oracle, m: int, s: nat)
    requires |b0| >= 1 && s < n
    ensures |RunSamples(b0, n, h, d, m).0[s]| == |b0|
    ensures forall t :: 0 <= t < s ==> |RunSamples(b0, n, h, d, m).0[t]| == |b0|
    ensures RunSamples(b0, n, h, d, m).0[s]
      == RunFrom(b0, 1, h + Schedules(b0, RunSamples(b0, n, h, d, m).0[..s], m), d, m).0
  {
    var prev := RunSamples(b0, n - 1, h, d, m);
    var last := RunFrom(b0, 1, prev.1, d, m);
    var all := RunSamples(b0, n, h, d, m).0;
    assert all == prev.0 + [last.0];
    if s < n - 1 {
      RunSamplesSharedAt(b0, n - 1, h, d, m, s);
      assert all[..s] == prev.0[..s];
      assert all[s] == prev.0[s];
    } else {
      RunSamplesHistory(b0, n - 1, h, d, m);
      assert all[..s] == prev.0;
    }
  }

  /**
   * The shared incremental state: sample `s` is decoded exactly as `sample`
   * would decode it after the calls and draws of samples `0` to `s - 1`.
   */
  lemma RunSamplesShared(b0: seq<int>, n: nat, h: seq<Event>, d: Oracle, m: int)
    requires |b0| >= 1
    ensures |RunSamples(b0, n, h, d, m).0| == n
    ensures forall s :: 0 <= s < n ==> |RunSamples(b0, n, h, d, m).0[s]| == |b0|
    ensures forall s :: 0 <= s < n ==>
      RunSamples(b0, n, h, d, m).0[s]
      == RunFrom(b0, 1, h + Schedules(b0, RunSamples(b0, n, h, d, m).0[..s], m), d, m).0
  {
    RunSamplesShape(b0, n, h, d, m);
    forall s | 0 <= s < n
      ensures RunSamples(b0, n, h, d, m).0[s]
        == RunFrom(b0, 1, h + Schedules(b0, RunSamples(b0, n, h, d, m).0[..s], m), d, m).0
    {
      RunSamplesSharedAt(b0, n, h, d, m, s);
    }
  }

  /** `[sampled_tokens.clone() for _ in range(num_samples)]`: `n` fresh, distinct copies. */
  method CloneRows(row: array<int>, n: nat) returns (clones: seq<array<int>>)
    ensures |clones| == n
    ensures forall s :: 0 <= s < n ==> fresh(clones[s]) && clones[s][..] == row[..]
    ensures forall s, t :: 0 <= s < t < n ==> clones[s] != clones[t]
  {
    clones := [];
    while |clones| < n
      invariant |clones| <= n
      invariant forall s :: 0 <= s < |clones| ==> fresh(clones[s]) && clones[s][..] == row[..]
      invariant forall s, t :: 0 <= s < t < |clones| ==> clones[s] != clones[t]
    {
      var c := new int[row.Length](k requires 0 <= k < row.Length reads row => row[k]);
      clones := clones + [c];
    }
  }

  /**
   * One pass of the loop at lines 194-225: decode clone `s` with the shared
   * decoder and append its tokens.
   */
  method DecodeNext(v: Vocab, clones: seq<array<int>>, dec: Decoder, ghost b0: seq<int>, ghost h0: seq<Event>,
                    s: nat, ghost bs: seq<seq<int>>, outs: seq<seq<string>>)
    returns (outs': seq<seq<string>>, ghost bs': seq<seq<int>>)
    requires v.Valid() && dec.Valid() && DrawsInRange(dec.draw, v.Size())
    requires |b0| >= 1 && forall k :: 0 <= k < |b0| ==> 0 <= b0[k] < v.Size()
    requires s < |clones| && clones[s][..] == b0
    requires |bs| == s && (bs, dec.trace) == RunSamples(b0, s, h0, dec.draw, v.MaskIdx())
    modifies dec, clones[s]
    ensures dec.Valid()
    ensures (bs', dec.trace) == RunSamples(b0, s + 1, h0, dec.draw, v.MaskIdx())
    ensures bs' == bs + [clones[s][..]]
    ensures Resolved(b0, clones[s][..], v.MaskIdx(), v.Size())
    ensures outs' == outs + [v.Detokenize(clones[s][1..])]
  {
    RunResolves(b0, dec.trace, dec.draw, v.MaskIdx(), v.Size());
    var tokens := clones[s];
    Run(tokens, dec, v.MaskIdx());
    bs' := bs + [tokens[..]];
    assert tokens[1..] == tokens[..][1..];
    outs' := outs + [v.Detokenize(tokens[1..])];
  }

  /**
   * The loop at lines 194-225: decode each clone in turn with the shared
   * decoder and append its tokens to the result.
   */
  method DecodeClones(v: Vocab, clones: seq<array<int>>, dec: Decoder, ghost b0: seq<int>)
    returns (outs: seq<seq<string>>)
    requires v.Valid() && dec.Valid() && DrawsInRange(dec.draw, v.Size())
    requires |b0| >= 1 && forall k :: 0 <= k < |b0| ==> 0 <= b0[k] < v.Size()
    requires forall s :: 0 <= s < |clones| ==> clones[s][..] == b0
    requires forall s, t :: 0 <= s < t < |clones| ==> clones[s] != clones[t]
    modifies dec, set s | 0 <= s < |clones| :: clones[s]
    ensures dec.Valid()
    ensures |outs| == |clones|
    ensures dec.trace == RunSamples(b0, |clones|, old(dec.trace), dec.draw, v.MaskIdx()).1
    ensures forall s :: 0 <= s < |clones| ==>
      clones[s][..] == RunSamples(b0, |clones|, old(dec.trace), dec.draw, v.MaskIdx()).0[s]
    ensures forall s :: 0 <= s < |clones| ==>
      && Resolved(b0, RunSamples(b0, |clones|, old(dec.trace), dec.draw, v.MaskIdx()).0[s], v.MaskIdx(), v.Size())
      && outs[s] == v.Detokenize(RunSamples(b0, |clones|, old(dec.trace), dec.draw, v.MaskIdx()).0[s][1..])
  {
    var m := v.MaskIdx();
    outs := [];
    ghost var h0 := dec.trace;
    ghost var bs: seq<seq<int>> := [];
    for s := 0 to |clones|
      invariant dec.Valid()
      invariant |outs| == |bs| == s
      invariant (bs, dec.trace) == RunSamples(b0, s, h0, dec.draw, m)
      invariant forall j :: 0 <= j < s ==> clones[j][..] == bs[j]
      invariant forall j :: 0 <= j < s ==> Resolved(b0, bs[j], m, v.Size()) && outs[j] == v.Detokenize(bs[j][1..])
      invariant forall j :: s <= j < |clones| ==> clones[j][..] == b0
    {
      outs, bs := DecodeNext(v, clones, dec, b0, h0, s, bs, outs);
    }
  }

  /**
   * What a successful batch call returns: `n` token lists, the decodes of
   * `RunSamples` on the initial buffer, and the history of the call.
   */
  ghost predicate SamplesOf(v: Vocab, L: nat, partial: seq<string>, n: nat, draw: Oracle,
                            outs: seq<seq<string>>, calls: seq<Event>)
    requires v.Valid() && Initial(v, L, partial).Ok? && DrawsInRange(draw, v.Size())
  {
    var b0 := Initial(v, L, partial).value;
    var (bs, t) := RunSamples(b0, n, [], draw, v.MaskIdx());
    && |bs| == n && |outs| == n && calls == t
    && forall s :: 0 <= s < n ==>
      Resolved(b0, bs[s], v.MaskIdx(), v.Size()) && outs[s] == v.Detokenize(bs[s][1..])
  }

  /** Every sample has L tokens and keeps the partial sequence's known entries other than `<mask>` verbatim. */
  lemma SamplesKeepPartial(v: Vocab, L: nat, partial: seq<string>, n: nat, draw: Oracle,
                           outs: seq<seq<string>>, calls: seq<Event>)
    requires v.Valid() && Initial(v, L, partial).Ok? && DrawsInRange(draw, v.Size())
    requires SamplesOf(v, L, partial, n, draw, outs, calls)
    ensures |outs| == n
    ensures forall s :: 0 <= s < n ==> |outs[s]| == L
    ensures forall s, k :: 0 <= s < n && 0 <= k < |partial| && partial[k] in v.index && partial[k] != MaskToken ==>
      outs[s][k] == partial[k]
  {
    var b0 := Initial(v, L, partial).value;
    var (bs, t) := RunSamples(b0, n, [], draw, v.MaskIdx());
    forall s | 0 <= s < n
      ensures |outs[s]| == L
      ensures forall k :: 0 <= k < |partial| && partial[k] in v.index && partial[k] != MaskToken ==> outs[s][k] == partial[k]
    {
      FixedEntriesComeBack(v, L, partial, bs[s]);
    }
  }

  /**
   * The loop body shared by both batch entry points: clone the initial row
   * `n` times and decode the clones with one decoder.
   */
  method CloneAndDecode(v: Vocab, L: nat, partial: seq<string>, n: nat, tokens: array<int>, draw: Oracle)
    returns (outs: seq<seq<string>>, ghost calls: seq<Event>)
    requires v.Valid() && DrawsInRange(draw, v.Size()) && Initial(v, L, partial).Ok?
    requires tokens[..] == Initial(v, L, partial).value
    ensures SamplesOf(v, L, partial, n, draw, outs, calls)
  {
    var dec := new Decoder(draw);
    var clones := CloneRows(tokens, n);
    outs := DecodeClones(v, clones, dec, tokens[..]);
    calls := dec.trace;
  }

  /**
   * `sample_batch` as written: the clones are made only inside `if device:`,
   * so with a falsy `device` the first read of `all_sampled_tokens` (line 196)
   * raises, unless there are no samples to decode.
   */
  method SampleBatch(v: Vocab, L: nat, n: nat, partial: seq<string>, device: bool, draw: Oracle)
    returns (r: Result<seq<seq<string>>, SampleError>, ghost calls: seq<Event>)
    requires v.Valid() && DrawsInRange(draw, v.Size())
    ensures Initial(v, L, partial).Err? ==> r == Err(Initial(v, L, partial).error)
    ensures Initial(v, L, partial).Ok? && !device && n > 0 ==> r == Err(BuffersUndefined)
    ensures Initial(v, L, partial).Ok? && (device || n == 0) ==>
      r.Ok? && SamplesOf(v, L, partial, n, draw, r.value, calls)
  {
    var init := InitRow(v, L, partial);
    if init.Err? {
      return Err(init.error), [];
    }
    if !device && n > 0 {
      return Err(BuffersUndefined), [];
    }
    var outs;
    outs, calls := CloneAndDecode(v, L, partial, n, init.value, draw);
    r := Ok(outs);
  }

  /**
   * `sample_batch` with the clones made whatever `device` is: `n` samples,
   * each with L tokens and the partial sequence's known entries other than
   * `<mask>` in place.
   */
  method SampleIndependent(v: Vocab, L: nat, n: nat, partial: seq<string>, draw: Oracle)
    returns (r: Result<seq<seq<string>>, SampleError>, ghost calls: seq<Event>)
    requires v.Valid() && DrawsInRange(draw, v.Size())
    ensures r.Err? <==> Initial(v, L, partial).Err?
    ensures r.Err? ==> r.error == Initial(v, L, partial).error
    ensures r.Ok? ==> SamplesOf(v, L, partial, n, draw, r.value, calls)
    ensures r.Ok? ==> |r.value| == n && forall s :: 0 <= s < n ==> |r.value[s]| == L
    ensures r.Ok? ==> forall s, k :: 0 <= s < n && 0 <= k < |partial| && partial[k] in v.index && partial[k] != MaskToken ==>
      r.value[s][k] == partial[k]
  {
    var init := InitRow(v, L, partial);
    if init.Err? {
      return Err(init.error), [];
    }
    var outs;
    outs, calls := CloneAndDecode(v, L, partial, n, init.value, draw);
    SamplesKeepPartial(v, L, partial, n, draw, outs, calls);
    r := Ok(outs);
  }
}
