/**
 * The decoder's dictionary: a list of tokens and the map from a token to its
 * index. `get_idx` and `get_tok` are the two lookups the samplers use.
 */
module Vocabulary {
  import opened Wrappers

  const MaskToken: string := "<mask>"
  const StartToken: string := "<cath>"

  /**
   * `toks[i]` is the token with index `i`; `index` maps a token back to its
   * index. `unk` is the index an unknown token falls back to, or `None` when
   * looking up an unknown token is an error.
   */
  datatype Vocab = Vocab(toks: seq<string>, index: map<string, nat>, unk: Option<nat>)
  {
    predicate Valid() {
      && (forall t :: t in index ==> index[t] < |toks| && toks[index[t]] == t)
      && MaskToken in index
      && StartToken in index
      && (unk.Some? ==> unk.value < |toks|)
    }

    /** The number of indices, V. */
    function Size(): nat {
      |toks|
    }

    /** The index of `<mask>`, the value of every slot still to be sampled. */
    function MaskIdx(): (m: nat)
      requires Valid()
      ensures m < Size() && toks[m] == MaskToken
    {
      index[MaskToken]
    }

    /** The index of `<cath>`, the start token in slot 0. */
    function StartIdx(): (s: nat)
      requires Valid()
      ensures s < Size() && toks[s] == StartToken
    {
      index[StartToken]
    }

    /** `get_idx`: a known token maps to the index whose token it is. */
    function GetIdx(t: string): (r: Result<nat, string>)
      requires Valid()
      ensures r.Ok? ==> r.value < Size()
      ensures t in index ==> r.Ok? && toks[r.value] == t
      ensures t !in index && unk.Some? ==> r == Ok(unk.value)
      ensures r.Err? <==> t !in index && unk.None?
      ensures r.Err? ==> r.error == t
    {
      if t in index then Ok(index[t])
      else if unk.Some? then Ok(unk.value)
      else Err(t)
    }

    /** `get_tok` applied to every index of `ids`. */
    function Detokenize(ids: seq<int>): (r: seq<string>)
      requires forall k :: 0 <= k < |ids| ==> 0 <= ids[k] < |toks|
      ensures |r| == |ids|
      ensures forall k :: 0 <= k < |ids| ==> r[k] == toks[ids[k]]
    {
      seq(|ids|, k requires 0 <= k < |ids| => toks[ids[k]])
    }
  }

  /**
   * A token of the dictionary has the mask index exactly when it is `<mask>`:
   * every other entry of a partial sequence that the dictionary knows fixes
   * its slot.
   */
  lemma MaskIdxOnlyForMask(v: Vocab, t: string)
    requires v.Valid() && t in v.index
    ensures v.index[t] == v.MaskIdx() <==> t == MaskToken
  {
    if v.index[t] == v.MaskIdx() {
      assert t == v.toks[v.index[t]] == v.toks[v.MaskIdx()];
    }
  }

  /**
   * `''.join(parts)` (and, on any element type, concatenating parts in
   * order); with one-element parts the result has one element per part.
   */
  function Join<T>(ts: seq<seq<T>>): (r: seq<T>)
    ensures (forall k :: 0 <= k < |ts| ==> |ts[k]| == 1) ==> |r| == |ts|
  {
    if ts == [] then [] else Join(ts[..|ts| - 1]) + ts[|ts| - 1]
  }

  lemma {:induction false} JoinAppend<T>(a: seq<seq<T>>, b: seq<seq<T>>)
    ensures Join(a + b) == Join(a) + Join(b)
  {
    if b == [] {
      assert a + b == a;
    } else {
      assert (a + b)[..|a + b| - 1] == a + b[..|b| - 1];
      JoinAppend(a, b[..|b| - 1]);
    }
  }

  /** A sequence of parts that begins with `head` joins to a sequence that begins with `Join(head)`. */
  lemma JoinStartsWith<T>(head: seq<seq<T>>, ts: seq<seq<T>>)
    requires |head| <= |ts| && forall k :: 0 <= k < |head| ==> ts[k] == head[k]
    ensures Join(head) <= Join(ts)
  {
    assert ts[..|head|] == head;
    var tail := ts[|head|..];
    assert head + tail == ts;
    JoinAppend(head, tail);
    var jh, jt := Join(head), Join(tail);
    assert (jh + jt)[..|jh|] == jh;
  }

  /** The entries a Python string passed as the partial sequence is iterated as: its characters. */
  function Symbols(s: string): (ts: seq<string>)
    ensures |ts| == |s|
    ensures forall k :: 0 <= k < |s| ==> ts[k] == [s[k]] && ts[k] != MaskToken
  {
    seq(|s|, k requires 0 <= k < |s| => [s[k]])
  }

  /** Joining the characters of a string gives the string back. */
  lemma {:induction false} JoinSymbols(s: string)
    ensures Join(Symbols(s)) == s
  {
    if s != [] {
      var init := s[..|s| - 1];
      assert Symbols(s)[..|s| - 1] == Symbols(init);
      JoinSymbols(init);
      assert s == init + [s[|s| - 1]];
    }
  }
}
