/**
 * `sample`: one buffer row, decoded one position at a time. At step `i` the
 * decoder sees the first `i` slots; slot `i` takes the drawn index only if it
 * still holds the mask index.
 */
module SingleSample {
  import opened Wrappers
  import opened Vocabulary
  import opened Decoding
  import opened TokenBuffer

  /** Step `i` of the decode loop on buffer `b` after history `h`. */
  function Advance(b: seq<int>, i: nat, h: seq<Event>, d: Oracle, m: int): (r: (seq<int>, seq<Event>))
    requires 1 <= i < |b|
    ensures |r.0| == |b|
    ensures forall k :: 0 <= k < |b| && k != i ==> r.0[k] == b[k]
    ensures b[i] != m ==> r.0[i] == b[i]
    ensures |h| < |r.1| && r.1[..|h|] == h && r.1[|h|] == Decode([b[..i]])
  {
    var h1 := h + [Decode([b[..i]])];
    if b[i] == m then (b[i := d(h1, 0)], h1 + [Draw(0, d(h1, 0))]) else (b, h1)
  }

  /**
   * Steps `i` to `|b| - 1` of the decode loop: the buffer keeps its length
   * and the history is only ever extended.
   */
  function RunFrom(b: seq<int>, i: nat, h: seq<Event>, d: Oracle, m: int): (r: (seq<int>, seq<Event>))
    requires 1 <= i <= |b|
    ensures |r.0| == |b|
    ensures h <= r.1
    decreases |b| - i
  {
    if i == |b| then (b, h)
    else
      var (b1, h1) := Advance(b, i, h, d, m);
      var r := RunFrom(b1, i + 1, h1, d, m);
      r
  }

  /**
   * `b` is a finished decode of `b0`: same length, the start token kept,
   * every slot that did not hold the mask index kept, and every slot an
   * index of the dictionary.
   */
  predicate Resolved(b0: seq<int>, b: seq<int>, m: int, size: nat) {
    && |b| == |b0| >= 1
    && b[0] == b0[0]
    && (forall k :: 1 <= k < |b0| && b0[k] != m ==> b[k] == b0[k])
    && (forall k :: 0 <= k < |b| ==> 0 <= b[k] < size)
  }

  /** Decoding from step `i` never touches the slots before `i` and keeps every fixed slot. */
  lemma {:induction false} RunFromFrame(b: seq<int>, i: nat, h: seq<Event>, d: Oracle, m: int)
    requires 1 <= i <= |b|
    ensures |RunFrom(b, i, h, d, m).0| == |b|
    ensures RunFrom(b, i, h, d, m).0[..i] == b[..i]
    ensures forall k :: i <= k < |b| && b[k] != m ==> RunFrom(b, i, h, d, m).0[k] == b[k]
    decreases |b| - i
  {
    if i < |b| {
      var (b1, h1) := Advance(b, i, h, d, m);
      RunFromFrame(b1, i + 1, h1, d, m);
      var out := RunFrom(b1, i + 1, h1, d, m).0;
      assert out[..i] == b[..i] by {
        assert out[..i] == out[..i + 1][..i];
        assert b1[..i] == b1[..i + 1][..i];
      }
      assert out[i] == b1[i] by {
        assert out[..i + 1][i] == b1[..i + 1][i];
      }
    }
  }

  /** Every slot still masked when step `i` begins ends up holding a drawn index. */
  lemma {:induction false} RunFromFills(b: seq<int>, i: nat, h: seq<Event>, d: Oracle, m: int, size: nat)
    requires 1 <= i <= |b| && DrawsInRange(d, size)
    ensures |RunFrom(b, i, h, d, m).0| == |b|
    ensures forall k :: i <= k < |b| && b[k] == m ==> 0 <= RunFrom(b, i, h, d, m).0[k] < size
    decreases |b| - i
  {
    RunFromFrame(b, i, h, d, m);
    if i < |b| {
      var (b1, h1) := Advance(b, i, h, d, m);
      RunFromFills(b1, i + 1, h1, d, m, size);
      RunFromFrame(b1, i + 1, h1, d, m);
      var out := RunFrom(b1, i + 1, h1, d, m).0;
      assert out[i] == b1[i] by {
        assert out[..i + 1][i] == b1[..i + 1][i];
      }
    }
  }

  /** The whole loop of `sample` leaves a resolved buffer. */
  lemma RunResolves(b0: seq<int>, h: seq<Event>, d: Oracle, m: int, size: nat)
    requires |b0| >= 1 && DrawsInRange(d, size)
    requires forall k :: 0 <= k < |b0| ==> 0 <= b0[k] < size
    ensures Resolved(b0, RunFrom(b0, 1, h, d, m).0, m, size)
  {
    RunFromFrame(b0, 1, h, d, m);
    RunFromFills(b0, 1, h, d, m, size);
    var out := RunFrom(b0, 1, h, d, m).0;
    assert out[0] == out[..1][0];
  }

  /**
   * The events of steps `i` onward for a buffer that started as `init` and
   * ended as `final`: at every step one decoder call on the final prefix,
   * followed by one draw exactly when the slot was masked, whose value is
   * the slot's final content.
   */
  function Schedule(init: seq<int>, final: seq<int>, i: nat, m: int): seq<Event>
    requires 1 <= i <= |init| && |final| == |init|
    decreases |init| - i
  {
    if i == |init| then []
    else
      [Decode([final[..i]])]
      + (if init[i] == m then [Draw(0, final[i])] else [])
      + Schedule(init, final, i + 1, m)
  }

  /** The schedule from step `i` depends only on which slots from `i` on are masked. */
  lemma {:induction false} ScheduleSuffix(a: seq<int>, a': seq<int>, final: seq<int>, i: nat, m: int)
    requires 1 <= i <= |a| && |a'| == |a| == |final|
    requires forall k :: i <= k < |a| ==> a[k] == a'[k]
    ensures Schedule(a, final, i, m) == Schedule(a', final, i, m)
    decreases |a| - i
  {
    if i < |a| {
      ScheduleSuffix(a, a', final, i + 1, m);
    }
  }

  /**
   * The decoder is called once per step, in order, on the final contents of
   * the prefix, and a draw is made exactly at the masked steps: the history
   * of a decode is its schedule.
   */
  lemma {:induction false} RunFromSchedule(b: seq<int>, i: nat, h: seq<Event>, d: Oracle, m: int)
    requires 1 <= i <= |b|
    ensures |RunFrom(b, i, h, d, m).0| == |b|
    ensures RunFrom(b, i, h, d, m).1 == h + Schedule(b, RunFrom(b, i, h, d, m).0, i, m)
    decreases |b| - i
  {
    RunFromFrame(b, i, h, d, m);
    if i < |b| {
      var (b1, h1) := Advance(b, i, h, d, m);
      RunFromSchedule(b1, i + 1, h1, d, m);
      RunFromFrame(b1, i + 1, h1, d, m);
      var out := RunFrom(b1, i + 1, h1, d, m).0;
      ScheduleSuffix(b1, b, out, i + 1, m);
      assert out[..i] == b[..i] by {
        assert out[..i] == out[..i + 1][..i];
        assert b1[..i] == b1[..i + 1][..i];
      }
      assert out[i] == b1[i] by {
        assert out[..i + 1][i] == b1[..i + 1][i];
      }
    }
  }

  /** The decoder calls of a schedule: one per step, each on the final prefix up to that step. */
  lemma {:induction false} ScheduleCalls(init: seq<int>, final: seq<int>, i: nat, m: int)
    requires 1 <= i <= |init| && |final| == |init|
    ensures DecodeCalls(Schedule(init, final, i, m))
         == seq(|init| - i, s requires 0 <= s < |init| - i => [final[..i + s]])
    decreases |init| - i
  {
    if i < |init| {
      var head := [Decode([final[..i]])] + (if init[i] == m then [Draw(0, final[i])] else []);
      ScheduleCalls(init, final, i + 1, m);
      DecodeCallsAppend(head, Schedule(init, final, i + 1, m));
      DecodeCallsAppend([Decode([final[..i]])], if init[i] == m then [Draw(0, final[i])] else []);
      assert DecodeCalls([Decode([final[..i]])]) == [[final[..i]]] by {
        assert [Decode([final[..i]])][..0] == [];
      }
      if init[i] == m {
        assert [Draw(0, final[i])][..0] == [];
      }
    }
  }

  /** Every slot pending at step `i` or later has its final value drawn in the schedule. */
  lemma {:induction false} ScheduleDrawsPending(init: seq<int>, final: seq<int>, i: nat, m: int)
    requires 1 <= i <= |init| && |final| == |init|
    ensures forall k :: i <= k < |init| && init[k] == m ==> Draw(0, final[k]) in Schedule(init, final, i, m)
    decreases |init| - i
  {
    if i < |init| {
      ScheduleDrawsPending(init, final, i + 1, m);
    }
  }

  /**
   * An entry of the partial sequence whose index is not the mask index comes
   * back as the token of that index, so a known entry other than `<mask>`
   * comes back verbatim.
   */
  lemma FixedEntriesComeBack(v: Vocab, L: nat, partial: seq<string>, b: seq<int>)
    requires v.Valid() && Initial(v, L, partial).Ok?
    requires Resolved(Initial(v, L, partial).value, b, v.MaskIdx(), v.Size())
    ensures |v.Detokenize(b[1..])| == L
    ensures forall k :: 0 <= k < |partial| && v.GetIdx(partial[k]).Ok? && v.GetIdx(partial[k]).value != v.MaskIdx() ==>
      v.Detokenize(b[1..])[k] == v.toks[v.GetIdx(partial[k]).value]
    ensures forall k :: 0 <= k < |partial| && partial[k] in v.index && partial[k] != MaskToken ==>
      v.Detokenize(b[1..])[k] == partial[k]
  {
    var b0 := Initial(v, L, partial).value;
    var out := v.Detokenize(b[1..]);
    forall k | 0 <= k < |partial| && v.GetIdx(partial[k]).Ok? && v.GetIdx(partial[k]).value != v.MaskIdx()
      ensures out[k] == v.toks[v.GetIdx(partial[k]).value]
    {
      assert b0[k + 1] == v.GetIdx(partial[k]).value;
      assert b[k + 1] == b0[k + 1];
    }
    forall k | 0 <= k < |partial| && partial[k] in v.index && partial[k] != MaskToken
      ensures out[k] == partial[k]
    {
      MaskIdxOnlyForMask(v, partial[k]);
    }
  }

  /**
   * The tokens of a resolved buffer: exactly L of them, and when every entry
   * of the partial sequence is a known token other than `<mask>`, the joined
   * output starts with the joined partial sequence.
   */
  lemma OutputKeepsPartial(v: Vocab, L: nat, partial: seq<string>, b: seq<int>)
    requires v.Valid() && Initial(v, L, partial).Ok?
    requires Resolved(Initial(v, L, partial).value, b, v.MaskIdx(), v.Size())
    ensures |v.Detokenize(b[1..])| == L
    ensures (forall k :: 0 <= k < |partial| ==> partial[k] in v.index && partial[k] != MaskToken) ==>
      Join(partial) <= Join(v.Detokenize(b[1..]))
  {
    var out := v.Detokenize(b[1..]);
    FixedEntriesComeBack(v, L, partial, b);
    if forall k :: 0 <= k < |partial| ==> partial[k] in v.index && partial[k] != MaskToken {
      JoinStartsWith(partial, out);
    }
  }

  /**
   * A partial sequence passed as a Python string is iterated character by
   * character; when the dictionary knows every character, the joined output
   * starts with that string.
   */
  lemma StringPartialKept(v: Vocab, L: nat, s: string, b: seq<int>)
    requires v.Valid() && Initial(v, L, Symbols(s)).Ok?
    requires Resolved(Initial(v, L, Symbols(s)).value, b, v.MaskIdx(), v.Size())
    requires forall k :: 0 <= k < |s| ==> [s[k]] in v.index
    ensures s <= Join(v.Detokenize(b[1..]))
  {
    OutputKeepsPartial(v, L, Symbols(s), b);
    JoinSymbols(s);
  }

  /** Step `i` of the loop at lines 136-146. */
  method Step(tokens: array<int>, dec: Decoder, i: nat, m: int)
    requires 1 <= i < tokens.Length && dec.Valid()
    modifies tokens, dec
    ensures dec.Valid()
    ensures (tokens[..], dec.trace) == Advance(old(tokens[..]), i, old(dec.trace), dec.draw, m)
  {
    dec.Call([tokens[..i]]);
    if tokens[i] == m {
      var x := dec.Multinomial(0);
      tokens[i] := x;
    }
  }

  /** The loop at lines 136-146: steps 1 to L on one buffer row. */
  method Run(tokens: array<int>, dec: Decoder, m: int)
    requires tokens.Length >= 1 && dec.Valid()
    modifies tokens, dec
    ensures dec.Valid()
    ensures (tokens[..], dec.trace) == RunFrom(old(tokens[..]), 1, old(dec.trace), dec.draw, m)
  {
    for i := 1 to tokens.Length
      invariant dec.Valid()
      invariant RunFrom(old(tokens[..]), 1, old(dec.trace), dec.draw, m)
             == RunFrom(tokens[..], i, dec.trace, dec.draw, m)
    {
      Step(tokens, dec, i, m);
    }
  }

  /**
   * `sample`: the tokens of slots 1 to L after the decode loop, together with
   * the history of decoder calls and draws the call made.
   */
  method Sample(v: Vocab, L: nat, partial: seq<string>, draw: Oracle)
    returns (r: Result<seq<string>, SampleError>, ghost calls: seq<Event>)
    requires v.Valid() && DrawsInRange(draw, v.Size())
    ensures r.Err? <==> Initial(v, L, partial).Err?
    ensures r.Err? ==> r.error == Initial(v, L, partial).error
    ensures r.Ok? ==>
      var b0 := Initial(v, L, partial).value;
      var (b, t) := RunFrom(b0, 1, [], draw, v.MaskIdx());
      && Resolved(b0, b, v.MaskIdx(), v.Size())
      && r.value == v.Detokenize(b[1..])
      && calls == t == Schedule(b0, b, 1, v.MaskIdx())
      && Consistent(calls, draw)
      && forall k :: 0 <= k < |partial| && partial[k] == MaskToken ==> Draw(0, b[k + 1]) in calls
    ensures r.Ok? ==> |r.value| == L
    ensures r.Ok? ==> forall k :: 0 <= k < |partial| && partial[k] in v.index && partial[k] != MaskToken ==>
      r.value[k] == partial[k]
  {
    var init := InitRow(v, L, partial);
    if init.Err? {
      return Err(init.error), [];
    }
    var tokens := init.value;
    var dec := new Decoder(draw);
    Run(tokens, dec, v.MaskIdx());
    ghost var b0 := Initial(v, L, partial).value;
    RunResolves(b0, [], draw, v.MaskIdx(), v.Size());
    RunFromSchedule(b0, 1, [], draw, v.MaskIdx());
    EntriesFixOrPend(v, L, partial);
    ScheduleDrawsPending(b0, tokens[..], 1, v.MaskIdx());
    FixedEntriesComeBack(v, L, partial, tokens[..]);
    assert tokens[1..] == tokens[..][1..];
    r := Ok(v.Detokenize(tokens[1..]));
    calls := dec.trace;
  }
}
