/**
 * The token buffer every sampler starts from: `L + 1` slots, the start token
 * in slot 0, the partial sequence's entries from slot 1 on, and the mask
 * index everywhere else.
 */
module TokenBuffer {
  import opened Wrappers
  import opened Vocabulary

  /** Why a sampling call raises instead of returning sequences. */
  datatype SampleError =
    | UnknownSymbol(symbol: string)   // `get_idx` of an entry the dictionary does not know
    | SlotOutOfRange(slot: nat)       // the partial sequence writes past slot L
    | BuffersUndefined                // `all_sampled_tokens` read but never bound
    | RowOutOfRange(row: nat)         // a buffer row that does not exist is read

  /**
   * The error the initialisation loop stops at when it reaches entry `i`:
   * the lookup of entry `i` comes first, the write into slot `i + 1` second.
   * The loop raises only these two errors, and a write past the end is
   * always the write into slot L + 1.
   */
  function FirstFailure(v: Vocab, L: nat, partial: seq<string>, i: nat): (r: Option<SampleError>)
    requires v.Valid() && i <= |partial|
    ensures r.Some? ==> r.value.UnknownSymbol? || r.value.SlotOutOfRange?
    ensures r.Some? && r.value.UnknownSymbol? ==> exists k :: i <= k < |partial| && r.value.symbol == partial[k]
    ensures i <= L && r.Some? && r.value.SlotOutOfRange? ==> r.value.slot == L + 1
    decreases |partial| - i
  {
    if i == |partial| then None
    else if v.GetIdx(partial[i]).Err? then Some(UnknownSymbol(partial[i]))
    else if i + 1 > L then Some(SlotOutOfRange(i + 1))
    else FirstFailure(v, L, partial, i + 1)
  }

  /** Symbol `k` of the partial sequence is known and its slot exists. */
  predicate Fits(v: Vocab, L: nat, partial: seq<string>, k: nat)
    requires v.Valid() && k < |partial|
  {
    v.GetIdx(partial[k]).Ok? && k + 1 <= L
  }

  /** The error raised at entry `k` when it does not fit. */
  function ErrorAt(v: Vocab, partial: seq<string>, k: nat): SampleError
    requires v.Valid() && k < |partial|
  {
    if v.GetIdx(partial[k]).Err? then UnknownSymbol(partial[k]) else SlotOutOfRange(k + 1)
  }

  /** Initialisation fails exactly when some entry is unknown or lands past slot L. */
  lemma {:induction false} FirstFailureNone(v: Vocab, L: nat, partial: seq<string>, i: nat)
    requires v.Valid() && i <= |partial|
    ensures FirstFailure(v, L, partial, i).None?
        <==> (forall k :: i <= k < |partial| ==> v.GetIdx(partial[k]).Ok?)
             && (i == |partial| || |partial| <= L)
    decreases |partial| - i
  {
    if i < |partial| {
      FirstFailureNone(v, L, partial, i + 1);
    }
  }

  /**
   * The error raised is the one at the first entry that does not fit: every
   * earlier entry was known and had a slot.
   */
  lemma {:induction false} FirstFailureIsFirst(v: Vocab, L: nat, partial: seq<string>, i: nat)
    requires v.Valid() && i <= |partial|
    requires FirstFailure(v, L, partial, i).Some?
    ensures exists k :: (i <= k < |partial| && !Fits(v, L, partial, k)
      && (forall j :: i <= j < k ==> Fits(v, L, partial, j))
      && FirstFailure(v, L, partial, i).value == ErrorAt(v, partial, k))
    decreases |partial| - i
  {
    if !Fits(v, L, partial, i) {
      assert FirstFailure(v, L, partial, i).value == ErrorAt(v, partial, i);
    } else {
      FirstFailureIsFirst(v, L, partial, i + 1);
      var k :| i + 1 <= k < |partial| && !Fits(v, L, partial, k)
        && (forall j :: i + 1 <= j < k ==> Fits(v, L, partial, j))
        && FirstFailure(v, L, partial, i + 1).value == ErrorAt(v, partial, k);
      assert forall j :: i <= j < k ==> Fits(v, L, partial, j);
    }
  }

  /** The index written for entry `t`, once its lookup is known to succeed. */
  function SymbolIdx(v: Vocab, t: string, otherwise: nat): nat
    requires v.Valid()
  {
    match v.GetIdx(t)
    case Ok(x) => x
    case Err(_) => otherwise
  }

  /**
   * The buffer after lines 112-117 of `sample` (and the same lines of the two
   * batch samplers), or the error they raise.
   */
  function Initial(v: Vocab, L: nat, partial: seq<string>): (r: Result<seq<int>, SampleError>)
    requires v.Valid()
    ensures r.Ok? <==> |partial| <= L && forall k :: 0 <= k < |partial| ==> v.GetIdx(partial[k]).Ok?
    ensures r.Ok? ==> |r.value| == L + 1 && r.value[0] == v.StartIdx()
    ensures r.Ok? ==> forall k :: 0 <= k < |partial| ==> r.value[k + 1] == v.GetIdx(partial[k]).value
    ensures r.Ok? ==> forall k :: |partial| < k <= L ==> r.value[k] == v.MaskIdx()
    ensures r.Ok? ==> forall k :: 0 <= k <= L ==> r.value[k] < v.Size()
  {
    FirstFailureNone(v, L, partial, 0);
    match FirstFailure(v, L, partial, 0)
    case Some(e) => Err(e)
    case None =>
      Ok(seq(L + 1, k requires 0 <= k <= L =>
        if k == 0 then v.StartIdx()
        else if k <= |partial| then SymbolIdx(v, partial[k - 1], v.MaskIdx())
        else v.MaskIdx()))
  }

  /**
   * An entry of the partial sequence that the dictionary knows and that is
   * not `<mask>` fixes its slot to its own index; a `<mask>` entry leaves its
   * slot pending, to be drawn.
   */
  lemma EntriesFixOrPend(v: Vocab, L: nat, partial: seq<string>)
    requires v.Valid() && Initial(v, L, partial).Ok?
    ensures forall k :: 0 <= k < |partial| && partial[k] in v.index && partial[k] != MaskToken ==>
      Initial(v, L, partial).value[k + 1] != v.MaskIdx()
      && v.toks[Initial(v, L, partial).value[k + 1]] == partial[k]
    ensures forall k :: 0 <= k < |partial| && partial[k] == MaskToken ==>
      Initial(v, L, partial).value[k + 1] == v.MaskIdx()
  {
    forall k | 0 <= k < |partial| && partial[k] in v.index && partial[k] != MaskToken
      ensures Initial(v, L, partial).value[k + 1] != v.MaskIdx()
    {
      MaskIdxOnlyForMask(v, partial[k]);
    }
  }

  /**
   * `torch.full((1, 1+L), mask_idx)`, slot 0 set to `<cath>`, then the
   * partial sequence written in from slot 1, one entry at a time.
   */
  method InitRow(v: Vocab, L: nat, partial: seq<string>) returns (r: Result<array<int>, SampleError>)
    requires v.Valid()
    ensures r.Ok? <==> Initial(v, L, partial).Ok?
    ensures r.Ok? ==> fresh(r.value) && r.value[..] == Initial(v, L, partial).value
    ensures r.Err? ==> r.error == Initial(v, L, partial).error
  {
    FirstFailureNone(v, L, partial, 0);
    var mask := v.MaskIdx();
    var tokens := new int[L + 1](_ => mask);
    tokens[0] := v.StartIdx();
    var i := 0;
    while i < |partial|
      invariant 0 <= i <= |partial| && i <= L
      invariant FirstFailure(v, L, partial, 0) == FirstFailure(v, L, partial, i)
      invariant tokens[0] == v.StartIdx()
      invariant forall k :: 0 <= k < i ==>
        v.GetIdx(partial[k]).Ok? && tokens[k + 1] == v.GetIdx(partial[k]).value
      invariant forall k :: i < k <= L ==> tokens[k] == mask
    {
      var x := v.GetIdx(partial[i]);
      if x.Err? {
        return Err(UnknownSymbol(partial[i]));
      }
      if i + 1 > L {
        return Err(SlotOutOfRange(i + 1));
      }
      tokens[i + 1] := x.value;
      i := i + 1;
    }
    FirstFailureNone(v, L, partial, i);
    r := Ok(tokens);
  }
}
