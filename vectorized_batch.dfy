/**
 * `sample_batch2`: the initial buffer repeated once per sample into one
 * two-dimensional buffer, decoded with one decoder call per step on all rows
 * at once; each row's slot then takes its own draw if it is still masked.
 */
module VectorizedBatch {
  import opened Wrappers
  import opened Vocabulary
  import opened Decoding
  import opened TokenBuffer
  import opened SingleSample

  /** Every row has `w` slots. */
  predicate Rect(rows: seq<seq<int>>, w: nat) {
    forall r :: 0 <= r < |rows| ==> |rows[r]| == w
  }

  /** `sampled_tokens[:, :i]`: the first `i` slots of every row. */
  function Prefixes(rows: seq<seq<int>>, i: nat): (p: seq<seq<int>>)
    requires forall r :: 0 <= r < |rows| ==> i <= |rows[r]|
    ensures |p| == |rows|
    ensures forall r :: 0 <= r < |rows| ==> p[r] == rows[r][..i]
  {
    seq(|rows|, r requires 0 <= r < |rows| => rows[r][..i])
  }

  /**
   * The inner loop at lines 317-321 at step `i`, from row `j` on: a masked
   * slot gets a draw for its row. With `extra`, the print at line 320 makes
   * one more draw first, whose value is thrown away.
   */
  function DrawRows(rows: seq<seq<int>>, i: nat, j: nat, h: seq<Event>, d: Oracle, m: int, extra: bool)
    : (res: (seq<seq<int>>, seq<Event>))
    requires j <= |rows| && forall r :: 0 <= r < |rows| ==> i < |rows[r]|
    ensures |res.0| == |rows|
    ensures forall r :: 0 <= r < |rows| ==> |res.0[r]| == |rows[r]|
    ensures forall r :: 0 <= r < j ==> res.0[r] == rows[r]
    ensures forall r, k :: 0 <= r < |rows| && 0 <= k < |rows[r]| && (k != i || rows[r][i] != m) ==>
      res.0[r][k] == rows[r][k]
    ensures h <= res.1
    decreases |rows| - j
  {
    if j == |rows| then (rows, h)
    else if rows[j][i] == m then
      var h1 := if extra then h + [Draw(j, d(h, j))] else h;
      var x := d(h1, j);
      DrawRows(rows[j := rows[j][i := x]], i, j + 1, h1 + [Draw(j, x)], d, m, extra)
    else
      DrawRows(rows, i, j + 1, h, d, m, extra)
  }

  /** Every row from `j` on whose slot `i` is masked gets a drawn index there. */
  lemma {:induction false} DrawRowsFills(rows: seq<seq<int>>, i: nat, j: nat, h: seq<Event>, d: Oracle, m: int,
                                         extra: bool, size: nat)
    requires j <= |rows| && forall r :: 0 <= r < |rows| ==> i < |rows[r]|
    requires DrawsInRange(d, size)
    ensures forall r :: j <= r < |rows| && rows[r][i] == m ==> 0 <= DrawRows(rows, i, j, h, d, m, extra).0[r][i] < size
    decreases |rows| - j
  {
    if j < |rows| {
      if rows[j][i] == m {
        var h1 := if extra then h + [Draw(j, d(h, j))] else h;
        var x := d(h1, j);
        var rows' := rows[j := rows[j][i := x]];
        DrawRowsFills(rows', i, j + 1, h1 + [Draw(j, x)], d, m, extra, size);
      } else {
        DrawRowsFills(rows, i, j + 1, h, d, m, extra, size);
      }
    }
  }

  /** The inner loop only draws: it adds no decoder call. */
  lemma {:induction false} DrawRowsCalls(rows: seq<seq<int>>, i: nat, j: nat, h: seq<Event>, d: Oracle, m: int,
                                         extra: bool)
    requires j <= |rows| && forall r :: 0 <= r < |rows| ==> i < |rows[r]|
    ensures DecodeCalls(DrawRows(rows, i, j, h, d, m, extra).1) == DecodeCalls(h)
    decreases |rows| - j
  {
    if j < |rows| {
      if rows[j][i] == m {
        var h1 := if extra then h + [Draw(j, d(h, j))] else h;
        var x := d(h1, j);
        DrawRowsCalls(rows[j := rows[j][i := x]], i, j + 1, h1 + [Draw(j, x)], d, m, extra);
        assert DecodeCalls(h1) == DecodeCalls(h) by {
          if extra {
            assert (h + [Draw(j, d(h, j))])[..|h|] == h;
          }
        }
        assert (h1 + [Draw(j, x)])[..|h1|] == h1;
      } else {
        DrawRowsCalls(rows, i, j + 1, h, d, m, extra);
      }
    }
  }

  /**
   * Step `i` of the loop at lines 288-321: one decoder call on the prefixes
   * of all rows comes first, then only draws; the rows keep their number and
   * width.
   */
  function VecAdvance(rows: seq<seq<int>>, i: nat, h: seq<Event>, d: Oracle, m: int, extra: bool)
    : (r: (seq<seq<int>>, seq<Event>))
    requires forall r :: 0 <= r < |rows| ==> i < |rows[r]|
    ensures |r.0| == |rows| && forall k :: 0 <= k < |rows| ==> |r.0[k]| == |rows[k]|
    ensures h + [Decode(Prefixes(rows, i))] <= r.1
  {
    DrawRows(rows, i, 0, h + [Decode(Prefixes(rows, i))], d, m, extra)
  }

  /**
   * Steps `i` to `w - 1` of the loop at lines 288-321 on rows of `w` slots:
   * the rows keep their number and the history is only ever extended.
   */
  function VecRunFrom(rows: seq<seq<int>>, w: nat, i: nat, h: seq<Event>, d: Oracle, m: int, extra: bool)
    : (r: (seq<seq<int>>, seq<Event>))
    requires 1 <= i <= w && Rect(rows, w)
    ensures |r.0| == |rows|
    ensures h <= r.1
    decreases w - i
  {
    if i == w then (rows, h)
    else
      var (rows1, h1) := VecAdvance(rows, i, h, d, m, extra);
      VecRunFrom(rows1, w, i + 1, h1, d, m, extra)
  }

  /**
   * Decoding all rows from step `i` keeps the number of rows and their width,
   * never touches a slot before `i`, and keeps every fixed slot of every row.
   */
  lemma {:induction false} VecRunFromFrame(rows: seq<seq<int>>, w: nat, i: nat, h: seq<Event>, d: Oracle, m: int,
                                           extra: bool)
    requires 1 <= i <= w && Rect(rows, w)
    ensures |VecRunFrom(rows, w, i, h, d, m, extra).0| == |rows|
    ensures Rect(VecRunFrom(rows, w, i, h, d, m, extra).0, w)
    ensures forall r :: 0 <= r < |rows| ==> VecRunFrom(rows, w, i, h, d, m, extra).0[r][..i] == rows[r][..i]
    ensures forall r, k :: 0 <= r < |rows| && i <= k < w && rows[r][k] != m ==>
      VecRunFrom(rows, w, i, h, d, m, extra).0[r][k] == rows[r][k]
    decreases w - i
  {
    if i < w {
      var (rows1, h1) := VecAdvance(rows, i, h, d, m, extra);
      VecRunFromFrame(rows1, w, i + 1, h1, d, m, extra);
      var out := VecRunFrom(rows1, w, i + 1, h1, d, m, extra).0;
      forall r | 0 <= r < |rows|
        ensures out[r][..i] == rows[r][..i]
        ensures out[r][i] == rows1[r][i]
      {
        assert out[r][..i] == out[r][..i + 1][..i];
        assert rows1[r][..i] == rows1[r][..i + 1][..i];
        assert out[r][..i + 1][i] == rows1[r][..i + 1][i];
      }
    }
  }

  /** Every slot masked when step `i` begins, in every row, ends up holding a drawn index. */
  lemma {:induction false} VecRunFromFills(rows: seq<seq<int>>, w: nat, i: nat, h: seq<Event>, d: Oracle, m: int,
                                           extra: bool, size: nat)
    requires 1 <= i <= w && Rect(rows, w) && DrawsInRange(d, size)
    ensures |VecRunFrom(rows, w, i, h, d, m, extra).0| == |rows|
    ensures Rect(VecRunFrom(rows, w, i, h, d, m, extra).0, w)
    ensures forall r, k :: 0 <= r < |rows| && i <= k < w && rows[r][k] == m ==>
      0 <= VecRunFrom(rows, w, i, h, d, m, extra).0[r][k] < size
    decreases w - i
  {
    VecRunFromFrame(rows, w, i, h, d, m, extra);
    if i < w {
      var (rows1, h1) := VecAdvance(rows, i, h, d, m, extra);
      DrawRowsFills(rows, i, 0, h + [Decode(Prefixes(rows, i))], d, m, extra, size);
      VecRunFromFills(rows1, w, i + 1, h1, d, m, extra, size);
      VecRunFromFrame(rows1, w, i + 1, h1, d, m, extra);
      var out := VecRunFrom(rows1, w, i + 1, h1, d, m, extra).0;
      forall r | 0 <= r < |rows|
        ensures out[r][i] == rows1[r][i]
      {
        assert out[r][..i + 1][i] == rows1[r][..i + 1][i];
      }
    }
  }

  /** The prefixes of all rows at steps `i` to `w - 1`, in order. */
  function CallsFrom(rows: seq<seq<int>>, i: nat, w: nat): (c: seq<seq<seq<int>>>)
    requires i <= w && Rect(rows, w)
    ensures |c| == w - i
    ensures forall s :: 0 <= s < w - i ==> c[s] == Prefixes(rows, i + s)
    decreases w - i
  {
    if i == w then [] else [Prefixes(rows, i)] + CallsFrom(rows, i + 1, w)
  }

  /**
   * The decoder is called once per step, in order, each time on the final
   * prefixes of all rows.
   */
  lemma {:induction false} VecRunFromCalls(rows: seq<seq<int>>, w: nat, i: nat, h: seq<Event>, d: Oracle, m: int,
                                           extra: bool)
    requires 1 <= i <= w && Rect(rows, w)
    ensures Rect(VecRunFrom(rows, w, i, h, d, m, extra).0, w)
    ensures DecodeCalls(VecRunFrom(rows, w, i, h, d, m, extra).1)
         == DecodeCalls(h) + CallsFrom(VecRunFrom(rows, w, i, h, d, m, extra).0, i, w)
    decreases w - i
  {
    VecRunFromFrame(rows, w, i, h, d, m, extra);
    if i < w {
      var (rows1, h1) := VecAdvance(rows, i, h, d, m, extra);
      var (out, t) := VecRunFrom(rows1, w, i + 1, h1, d, m, extra);
      VecRunFromCalls(rows1, w, i + 1, h1, d, m, extra);
      VecAdvanceCalls(rows, i, h, d, m, extra);
      PrefixesOfFrame(out, rows, i);
      assert CallsFrom(out, i, w) == [Prefixes(out, i)] + CallsFrom(out, i + 1, w);
    }
  }

  /** One step adds exactly one decoder call, on the prefixes of all rows. */
  lemma VecAdvanceCalls(rows: seq<seq<int>>, i: nat, h: seq<Event>, d: Oracle, m: int, extra: bool)
    requires forall r :: 0 <= r < |rows| ==> i < |rows[r]|
    ensures DecodeCalls(VecAdvance(rows, i, h, d, m, extra).1) == DecodeCalls(h) + [Prefixes(rows, i)]
  {
    var h0 := h + [Decode(Prefixes(rows, i))];
    DrawRowsCalls(rows, i, 0, h0, d, m, extra);
    assert h0[..|h|] == h;
  }

  /** Rows that agree on their first `i` slots have the same prefixes at step `i`. */
  lemma PrefixesOfFrame(out: seq<seq<int>>, rows: seq<seq<int>>, i: nat)
    requires |out| == |rows|
    requires forall r :: 0 <= r < |rows| ==> i <= |rows[r]| && i <= |out[r]| && out[r][..i] == rows[r][..i]
    ensures Prefixes(out, i) == Prefixes(rows, i)
  {
  }

  /** `sampled_tokens.repeat(n, 1)`: `n` copies of one row. */
  function Repeat(b0: seq<int>, n: nat): (rows: seq<seq<int>>)
    ensures |rows| == n && Rect(rows, |b0|)
    ensures forall r :: 0 <= r < n ==> rows[r] == b0
  {
    seq(n, _ => b0)
  }

  /** The loop of `sample_batch2` on `n` copies of `b0` leaves `n` resolved rows. */
  lemma VecRunResolves(b0: seq<int>, n: nat, h: seq<Event>, d: Oracle, m: int, extra: bool, size: nat)
    requires |b0| >= 1 && DrawsInRange(d, size)
    requires forall k :: 0 <= k < |b0| ==> 0 <= b0[k] < size
    ensures |VecRunFrom(Repeat(b0, n), |b0|, 1, h, d, m, extra).0| == n
    ensures forall r :: 0 <= r < n ==> Resolved(b0, VecRunFrom(Repeat(b0, n), |b0|, 1, h, d, m, extra).0[r], m, size)
  {
    var out := VecRunFrom(Repeat(b0, n), |b0|, 1, h, d, m, extra).0;
    VecRunFromFrame(Repeat(b0, n), |b0|, 1, h, d, m, extra);
    VecRunFromFills(Repeat(b0, n), |b0|, 1, h, d, m, extra, size);
    forall r | 0 <= r < n
      ensures Resolved(b0, out[r], m, size)
    {
      assert out[r][0] == out[r][..1][0];
    }
  }

  /**
   * Without the extra draw, vectorised decoding of a single row is exactly
   * the decoding `sample` does: same final buffer, same history.
   */
  lemma {:induction false} VecRunOneRow(b: seq<int>, i: nat, h: seq<Event>, d: Oracle, m: int)
    requires 1 <= i <= |b|
    ensures VecRunFrom([b], |b|, i, h, d, m, false) == ([RunFrom(b, i, h, d, m).0], RunFrom(b, i, h, d, m).1)
    decreases |b| - i
  {
    if i < |b| {
      var (b1, h1) := Advance(b, i, h, d, m);
      assert Prefixes([b], i) == [b[..i]];
      var h0 := h + [Decode([b[..i]])];
      if b[i] == m {
        var x := d(h0, 0);
        assert [b][0 := [b][0][i := x]] == [b1];
        assert DrawRows([b1], i, 1, h0 + [Draw(0, x)], d, m, false) == ([b1], h1);
      } else {
        assert DrawRows([b], i, 1, h0, d, m, false) == ([b], h0);
      }
      assert VecAdvance([b], i, h, d, m, false) == ([b1], h1);
      VecRunOneRow(b1, i + 1, h1, d, m);
    }
  }

  /** An oracle whose draw depends on how far the generator has advanced. */
  function Parity(h: seq<Event>, row: nat): int {
    |h| % 2
  }

  /**
   * With the print at line 320, one row decoded by `sample_batch2` and the
   * same row decoded by `sample` under the same generator differ: the first
   * masked slot takes the draw after the discarded one.
   */
  lemma PrintDrawBreaksParity(b: seq<int>, m: int)
    requires |b| >= 2 && b[1] == m
    ensures var out := VecRunFrom([b], |b|, 1, [], Parity, m, true).0; |out| == 1 && |out[0]| == |b| && out[0][1] == 0
    ensures var out := RunFrom(b, 1, [], Parity, m).0; |out| == |b| && out[1] == 1
    ensures VecRunFrom([b], |b|, 1, [], Parity, m, true).0 != [RunFrom(b, 1, [], Parity, m).0]
  {
    var h0 := [Decode(Prefixes([b], 1))];
    var rows1 := VecAdvance([b], 1, [], Parity, m, true).0;
    var h1 := VecAdvance([b], 1, [], Parity, m, true).1;
    assert rows1 == [b[1 := 0]] by {
      var x := Parity(h0 + [Draw(0, Parity(h0, 0))], 0);
      assert x == 0;
      assert [b][0 := [b][0][1 := x]] == [b[1 := 0]];
    }
    VecRunFromFrame(rows1, |b|, 2, h1, Parity, m, true);
    var out := VecRunFrom(rows1, |b|, 2, h1, Parity, m, true).0;
    assert out[0][1] == out[0][..2][1];

    var (b1, g1) := Advance(b, 1, [], Parity, m);
    assert b1 == b[1 := 1];
    RunFromFrame(b1, 2, g1, Parity, m);
    var single := RunFrom(b1, 2, g1, Parity, m).0;
    assert single[1] == single[..2][1];
  }

  /** The contents of a two-dimensional buffer, row by row. */
  ghost function Rows(a: array2<int>): (rows: seq<seq<int>>)
    reads a
    ensures |rows| == a.Length0 && Rect(rows, a.Length1)
    ensures forall r, k :: 0 <= r < a.Length0 && 0 <= k < a.Length1 ==> rows[r][k] == a[r, k]
  {
    seq(a.Length0, r requires 0 <= r < a.Length0 reads a =>
      seq(a.Length1, k requires 0 <= k < a.Length1 reads a => a[r, k]))
  }

  /** `sampled_tokens.repeat(n, 1)` on the initial row. */
  method RepeatRow(row: array<int>, n: nat) returns (a: array2<int>)
    ensures fresh(a) && a.Length0 == n && a.Length1 == row.Length
    ensures Rows(a) == Repeat(row[..], n)
  {
    a := new int[n, row.Length]((r, k) requires 0 <= k < row.Length reads row => row[k]);
    forall r | 0 <= r < n
      ensures Rows(a)[r] == row[..]
    {
      assert |Rows(a)[r]| == row.Length;
    }
  }

  /** Step `i` of the loop at lines 288-321. */
  method VecStep(a: array2<int>, dec: Decoder, i: nat, m: int, extra: bool)
    requires 1 <= i < a.Length1 && dec.Valid()
    modifies a, dec
    ensures dec.Valid()
    ensures (Rows(a), dec.trace) == VecAdvance(old(Rows(a)), i, old(dec.trace), dec.draw, m, extra)
  {
    var prefixes := seq(a.Length0, r requires 0 <= r < a.Length0 reads a =>
      seq(i, k requires 0 <= k < i reads a => a[r, k]));
    forall r | 0 <= r < a.Length0
      ensures prefixes[r] == Rows(a)[r][..i]
    {
    }
    assert prefixes == Prefixes(Rows(a), i);
    dec.Call(prefixes);
    ghost var rows0, h0 := Rows(a), dec.trace;
    for j := 0 to a.Length0
      invariant dec.Valid()
      invariant DrawRows(rows0, i, 0, h0, dec.draw, m, extra) == DrawRows(Rows(a), i, j, dec.trace, dec.draw, m, extra)
    {
      DrawRow(a, dec, i, j, m, extra);
    }
  }

  /** One pass of the loop at lines 317-321: row `j`'s slot `i`, if still masked. */
  method DrawRow(a: array2<int>, dec: Decoder, i: nat, j: nat, m: int, extra: bool)
    requires 1 <= i < a.Length1 && j < a.Length0 && dec.Valid()
    modifies a, dec
    ensures dec.Valid()
    ensures old(a[j, i]) != m ==> Rows(a) == old(Rows(a)) && dec.trace == old(dec.trace)
    ensures old(a[j, i]) == m ==>
      var h1 := if extra then old(dec.trace) + [Draw(j, dec.draw(old(dec.trace), j))] else old(dec.trace);
      && Rows(a) == old(Rows(a))[j := old(Rows(a))[j][i := dec.draw(h1, j)]]
      && dec.trace == h1 + [Draw(j, dec.draw(h1, j))]
    ensures DrawRows(old(Rows(a)), i, j, old(dec.trace), dec.draw, m, extra)
         == DrawRows(Rows(a), i, j + 1, dec.trace, dec.draw, m, extra)
  {
    ghost var before := Rows(a);
    if a[j, i] == m {
      if extra {
        var shown := dec.Multinomial(j);
      }
      var x := dec.Multinomial(j);
      a[j, i] := x;
      forall r | 0 <= r < a.Length0
        ensures Rows(a)[r] == before[j := before[j][i := x]][r]
      {
      }
      assert Rows(a) == before[j := before[j][i := x]];
    } else {
      assert Rows(a) == before;
    }
  }

  /** The loop at lines 288-321: steps 1 to L on all rows. */
  method VecRun(a: array2<int>, dec: Decoder, m: int, extra: bool)
    requires a.Length1 >= 1 && dec.Valid()
    modifies a, dec
    ensures dec.Valid()
    ensures (Rows(a), dec.trace) == VecRunFrom(old(Rows(a)), a.Length1, 1, old(dec.trace), dec.draw, m, extra)
  {
    for i := 1 to a.Length1
      invariant dec.Valid()
      invariant VecRunFrom(old(Rows(a)), a.Length1, 1, old(dec.trace), dec.draw, m, extra)
             == VecRunFrom(Rows(a), a.Length1, i, dec.trace, dec.draw, m, extra)
    {
      VecStep(a, dec, i, m, extra);
    }
  }

  /**
   * The loop at lines 326-329: the tokens of slots 1 to L of rows 0 to
   * `n - 1`, or the error of reading a row the buffer does not have.
   */
  method CollectRows(v: Vocab, a: array2<int>, n: nat) returns (r: Result<seq<seq<string>>, SampleError>)
    requires v.Valid() && a.Length1 >= 1
    requires forall j, k :: 0 <= j < a.Length0 && 0 <= k < a.Length1 ==> 0 <= a[j, k] < |v.toks|
    ensures r.Err? <==> n > a.Length0
    ensures r.Err? ==> r.error == RowOutOfRange(a.Length0)
    ensures r.Ok? ==> |r.value| == n && forall s :: 0 <= s < n ==> r.value[s] == v.Detokenize(Rows(a)[s][1..])
  {
    var outs := [];
    for s := 0 to n
      invariant s <= a.Length0
      invariant |outs| == s
      invariant forall j :: 0 <= j < s ==> outs[j] == v.Detokenize(Rows(a)[j][1..])
    {
      if s >= a.Length0 {
        return Err(RowOutOfRange(s));
      }
      var row := seq(a.Length1 - 1, k requires 0 <= k < a.Length1 - 1 reads a => a[s, k + 1]);
      assert row == Rows(a)[s][1..];
      outs := outs + [v.Detokenize(row)];
    }
    r := Ok(outs);
  }

  /**
   * What a successful vectorised call returns: the tokens of the first `n`
   * of `rowCount` copies of the initial buffer decoded together, and the
   * history of the call.
   */
  ghost predicate VecSamplesOf(v: Vocab, L: nat, partial: seq<string>, rowCount: nat, n: nat, draw: Oracle, extra: bool,
                               outs: seq<seq<string>>, calls: seq<Event>)
    requires v.Valid() && Initial(v, L, partial).Ok? && DrawsInRange(draw, v.Size())
  {
    var b0 := Initial(v, L, partial).value;
    var (rows, t) := VecRunFrom(Repeat(b0, rowCount), L + 1, 1, [], draw, v.MaskIdx(), extra);
    && n <= rowCount && |rows| == rowCount && |outs| == n && calls == t
    && forall s :: 0 <= s < n ==>
      Resolved(b0, rows[s], v.MaskIdx(), v.Size()) && outs[s] == v.Detokenize(rows[s][1..])
  }

  /**
   * One vectorised sample without the printed draw is the sample `sample`
   * returns: the same tokens and the same history of calls and draws.
   */
  lemma OneVectorizedSampleIsSample(v: Vocab, L: nat, partial: seq<string>, draw: Oracle,
                                    outs: seq<seq<string>>, calls: seq<Event>)
    requires v.Valid() && Initial(v, L, partial).Ok? && DrawsInRange(draw, v.Size())
    requires VecSamplesOf(v, L, partial, 1, 1, draw, false, outs, calls)
    ensures var b0 := Initial(v, L, partial).value;
      var (b, t) := RunFrom(b0, 1, [], draw, v.MaskIdx());
      Resolved(b0, b, v.MaskIdx(), v.Size()) && outs == [v.Detokenize(b[1..])] && calls == t
  {
    var b0 := Initial(v, L, partial).value;
    assert Repeat(b0, 1) == [b0];
    VecRunOneRow(b0, 1, [], draw, v.MaskIdx());
    RunResolves(b0, [], draw, v.MaskIdx(), v.Size());
  }

  /** Decode `rowCount` copies of the initial row together, then collect `n` of them. */
  method RepeatAndDecode(v: Vocab, L: nat, partial: seq<string>, rowCount: nat, n: nat, tokens: array<int>,
                         draw: Oracle, extra: bool)
    returns (r: Result<seq<seq<string>>, SampleError>, ghost calls: seq<Event>)
    requires v.Valid() && DrawsInRange(draw, v.Size()) && Initial(v, L, partial).Ok?
    requires tokens[..] == Initial(v, L, partial).value
    ensures r.Err? <==> n > rowCount
    ensures r.Err? ==> r.error == RowOutOfRange(rowCount)
    ensures r.Ok? ==> VecSamplesOf(v, L, partial, rowCount, n, draw, extra, r.value, calls)
  {
    ghost var b0 := tokens[..];
    var a := RepeatRow(tokens, rowCount);
    var dec := new Decoder(draw);
    VecRun(a, dec, v.MaskIdx(), extra);
    VecRunResolves(b0, rowCount, [], draw, v.MaskIdx(), extra, v.Size());
    VecRunFromFrame(Repeat(b0, rowCount), L + 1, 1, [], draw, v.MaskIdx(), extra);
    calls := dec.trace;
    r := CollectRows(v, a, n);
  }

  /**
   * `sample_batch2` as written: the rows are repeated only inside
   * `if device:`, so with a falsy `device` the buffer keeps one row and
   * collecting a second sample (line 327) raises; and every masked slot is
   * drawn twice, the first draw only printed (line 320).
   */
  method SampleBatch2(v: Vocab, L: nat, n: nat, partial: seq<string>, device: bool, draw: Oracle)
    returns (r: Result<seq<seq<string>>, SampleError>, ghost calls: seq<Event>)
    requires v.Valid() && DrawsInRange(draw, v.Size())
    ensures Initial(v, L, partial).Err? ==> r == Err(Initial(v, L, partial).error)
    ensures Initial(v, L, partial).Ok? && !device && n > 1 ==> r == Err(RowOutOfRange(1))
    ensures Initial(v, L, partial).Ok? && (device || n <= 1) ==>
      r.Ok? && VecSamplesOf(v, L, partial, if device then n else 1, n, draw, true, r.value, calls)
  {
    var init := InitRow(v, L, partial);
    if init.Err? {
      return Err(init.error), [];
    }
    var rowCount := if device then n else 1;
    r, calls := RepeatAndDecode(v, L, partial, rowCount, n, init.value, draw, true);
  }

  /**
   * `sample_batch2` with the rows repeated whatever `device` is and without
   * the printed draw: `n` samples, each with L tokens and the partial
   * sequence's known entries other than `<mask>` in place.
   */
  method SampleVectorized(v: Vocab, L: nat, n: nat, partial: seq<string>, draw: Oracle)
    returns (r: Result<seq<seq<string>>, SampleError>, ghost calls: seq<Event>)
    requires v.Valid() && DrawsInRange(draw, v.Size())
    ensures r.Err? <==> Initial(v, L, partial).Err?
    ensures r.Err? ==> r.error == Initial(v, L, partial).error
    ensures r.Ok? ==> VecSamplesOf(v, L, partial, n, n, draw, false, r.value, calls)
    ensures r.Ok? ==> |r.value| == n && forall s :: 0 <= s < n ==> |r.value[s]| == L
    ensures r.Ok? ==> forall s, k :: 0 <= s < n && 0 <= k < |partial| && partial[k] in v.index && partial[k] != MaskToken ==>
      r.value[s][k] == partial[k]
  {
    var init := InitRow(v, L, partial);
    if init.Err? {
      return Err(init.error), [];
    }
    r, calls := RepeatAndDecode(v, L, partial, n, n, init.value, draw, false);
    ghost var b0 := Initial(v, L, partial).value;
    ghost var rows := VecRunFrom(Repeat(b0, n), L + 1, 1, [], draw, v.MaskIdx(), false).0;
    forall s | 0 <= s < n
      ensures |r.value[s]| == L
      ensures forall k :: 0 <= k < |partial| && partial[k] in v.index && partial[k] != MaskToken ==> r.value[s][k] == partial[k]
    {
      FixedEntriesComeBack(v, L, partial, rows[s]);
    }
  }
}
