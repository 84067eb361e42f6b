/**
 * The decoder together with the softmax and multinomial draw that follow it,
 * seen only through what the samplers do with it: call it on a prefix of the
 * token buffer, and draw an index for one row of its output.
 */
module Decoding {

  /**
   * One interaction with the decoder during a sampling call: a decoder call
   * on the token prefixes of every row of the buffer, or a multinomial draw
   * for one row.
   */
  datatype Event = Decode(prefixes: seq<seq<int>>) | Draw(row: nat, value: int)

  /**
   * The index drawn for `row` after the history `h` of this call. The
   * incremental state the decoder builds is a function of the calls made so
   * far, and the generator's position of the draws made so far, so both are
   * functions of `h`; the weights, the encoder output, the temperature and
   * the generator's state on entry are fixed for the call.
   */
  type Oracle = (seq<Event>, nat) -> int

  /** `torch.multinomial` over a distribution on V indices returns one of them. */
  ghost predicate DrawsInRange(d: Oracle, size: nat) {
    forall h, row :: 0 <= d(h, row) < size
  }

  /** Every draw in `t` is what the oracle answers for the history before it. */
  ghost predicate Consistent(t: seq<Event>, d: Oracle) {
    forall p :: 0 <= p < |t| && t[p].Draw? ==> t[p].value == d(t[..p], t[p].row)
  }

  /** The prefixes the decoder was called on, in order. */
  function DecodeCalls(t: seq<Event>): seq<seq<seq<int>>> {
    if t == [] then []
    else DecodeCalls(t[..|t| - 1]) + (if t[|t| - 1].Decode? then [t[|t| - 1].prefixes] else [])
  }

  lemma {:induction false} DecodeCallsAppend(a: seq<Event>, b: seq<Event>)
    ensures DecodeCalls(a + b) == DecodeCalls(a) + DecodeCalls(b)
  {
    if b == [] {
      assert a + b == a;
    } else {
      assert (a + b)[..|a + b| - 1] == a + b[..|b| - 1];
      DecodeCallsAppend(a, b[..|b| - 1]);
    }
  }

  /**
   * The decoder of one sampling call. `trace` stands for the incremental
   * state (and the generator's position): it starts empty, as
   * `incremental_state = dict()` does, and every call or draw extends it.
   */
  class Decoder {
    const draw: Oracle
    var trace: seq<Event>

    ghost predicate Valid()
      reads this
    {
      Consistent(trace, draw)
    }

    constructor (draw: Oracle)
      ensures Valid()
      ensures this.draw == draw && trace == []
    {
      this.draw := draw;
      trace := [];
    }

    /** `self.decoder(prefix, encoder_out, incremental_state=...)`. */
    method Call(prefixes: seq<seq<int>>)
      requires Valid()
      modifies this
      ensures Valid()
      ensures trace == old(trace) + [Decode(prefixes)]
    {
      trace := trace + [Decode(prefixes)];
      assert forall p :: 0 <= p < |old(trace)| ==> trace[..p] == old(trace)[..p];
    }

    /** `torch.multinomial(probs, 1)` for one row of the last call's output. */
    method Multinomial(row: nat) returns (x: int)
      requires Valid()
      modifies this
      ensures Valid()
      ensures x == draw(old(trace), row)
      ensures trace == old(trace) + [Draw(row, x)]
    {
      x := draw(trace, row);
      trace := trace + [Draw(row, x)];
      assert trace[..|old(trace)|] == old(trace);
      assert forall p :: 0 <= p < |old(trace)| ==> trace[..p] == old(trace)[..p];
    }
  }
}
