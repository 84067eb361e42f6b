# Token-buffer sampling of the GVP-Transformer inverse-folding model

This project models the sequence-sampling core of `GVPTransformerModel` in
`esm/inverse_folding/gvp_transformer.py`. It covers three entry points: `sample`, `sample_batch` and
`sample_batch2`. Each builds a token buffer of `L + 1` dictionary indices:
- slot 0 holds `<cath>`;
- slots 1 to L hold `<mask>`, except where a partial sequence writes its entries.

Each then walks the steps `i = 1 .. L` in order. At each step it calls the decoder on the prefix
`buffer[0:i]`. It writes a drawn index into slot `i` only if that slot still holds the mask
index. It returns the tokens of slots 1 to L.

What the model covers in each entry point:
- `sample` decodes one row.
- `sample_batch` clones the row once per sample and decodes the clones one after another. All of
  them share one incremental decoder state.
- `sample_batch2` repeats the row into one two-dimensional buffer. It decodes all rows with one
  decoder call per step, then draws for each row whose slot is still masked.

The model keeps the source's form:
- **Buffers.** The buffer is an `array<int>` filled in place by loops (`TokenBuffer.InitRow`,
  `SingleSample.Step`, `SingleSample.Run`).
  - The clones of `sample_batch` are a sequence of fresh, distinct arrays.
  - The buffer of `sample_batch2` is an `array2<int>`.
- **The decoder.** The decoder, the temperature division, the softmax and `torch.multinomial`
  are one *oracle*: a function from the history of the current call and a row to an index.
  - The history is the sequence of decoder calls (with the prefixes they saw) and draws (with
    their values) made so far in the call.
  - The incremental state and the random generator's position are both functions of that
    history, so the oracle captures what the decoder and the generator can depend on.
  - The class `Decoding.Decoder` owns that history. It is created empty for every call, as
    `incremental_state = dict()` is, and its two methods append a call or a draw.
- **Proofs.** Every loop method is proved equal to a function on values:
  - `Initial` for the initialisation loop;
  - `Advance` / `RunFrom` for the decode loop of `sample`;
  - `RunSamples` for `sample_batch`;
  - `DrawRows` / `VecRunFrom` for `sample_batch2`.

  The properties of the samplers are proved about those functions.
- **The dictionary.** `Vocabulary.Vocab` has tokens by index, an index by token, and an optional
  fallback index for unknown tokens. With no fallback, looking up an unknown token is an error.
  The dictionary class itself (`esm/data.py`) is not part of this model, so both behaviours are
  kept.
- **The partial sequence.** It is a sequence of tokens, each looked up whole. A `<mask>` entry
  leaves its slot to be drawn; any other known entry fixes its slot. A Python string passed as the
  partial sequence is the sequence of its characters (`Vocabulary.Symbols`).
- **Errors.** Errors are values of `TokenBuffer.SampleError`:
  - an unknown entry;
  - a partial sequence that writes past slot L;
  - the unbound list of clones in `sample_batch`;
  - a missing buffer row in `sample_batch2`.

## Model

| member | source | states |
|---|---|---|
| Vocabulary.Vocab.MaskIdx | esm/inverse_folding/gvp_transformer.py:112 | the mask index is an index of the dictionary whose token is `<mask>` |
| Vocabulary.Vocab.StartIdx | esm/inverse_folding/gvp_transformer.py:114 | the start index is an index of the dictionary whose token is `<cath>` |
| Vocabulary.Vocab.GetIdx | esm/inverse_folding/gvp_transformer.py:117 | a known token maps to an index whose token is that token; an unknown token gets exactly the fallback index when there is one; a lookup fails exactly when the token is unknown and there is no fallback; the failure names the token |
| Vocabulary.Vocab.Detokenize | esm/inverse_folding/gvp_transformer.py:150 | `get_tok` over a sequence of indices: one token per index, each the token of its index |
| Vocabulary.MaskIdxOnlyForMask | esm/inverse_folding/gvp_transformer.py:117 | a token of the dictionary has the mask index if and only if it is `<mask>` |
| Vocabulary.Join | esm/inverse_folding/gvp_transformer.py:150 | `''.join` of the tokens (and concatenation of parts in general); with one-character tokens the joined string has one character per token |
| Vocabulary.JoinAppend | esm/inverse_folding/gvp_transformer.py:150 | `''.join` of two concatenated token lists is the concatenation of their joins |
| Vocabulary.JoinStartsWith | esm/inverse_folding/gvp_transformer.py:150 | when a token list begins with `head`, its join begins with the join of `head` |
| Vocabulary.Symbols | esm/inverse_folding/gvp_transformer.py:116 | a Python string iterated by `enumerate` gives one one-character entry per character, none of them `<mask>` |
| Vocabulary.JoinSymbols | esm/inverse_folding/gvp_transformer.py:116-117 | joining the characters of a string gives the string back |
| Decoding.DecodeCallsAppend | esm/inverse_folding/gvp_transformer.py:137-141 | the decoder calls in a history split at any point are the calls before it followed by the calls after it |
| Decoding.Decoder.constructor | esm/inverse_folding/gvp_transformer.py:120 | a decoder starts every sampling call with an empty history |
| Decoding.Decoder.Call | esm/inverse_folding/gvp_transformer.py:137-141 | a decoder call on the prefixes appends exactly that call to the history and keeps every earlier draw consistent with the oracle |
| Decoding.Decoder.Multinomial | esm/inverse_folding/gvp_transformer.py:146 | a draw returns the oracle's answer for the history so far and the row, and appends exactly that draw |
| TokenBuffer.FirstFailure | esm/inverse_folding/gvp_transformer.py:116-117 | the initialisation loop raises only an unknown-entry error naming an entry from the current one on, or a write past the end, and a write past the end is always into slot L + 1 |
| TokenBuffer.FirstFailureNone | esm/inverse_folding/gvp_transformer.py:115-117 | the initialisation loop raises nothing if and only if every entry of the partial sequence is known and the partial sequence has at most L entries |
| TokenBuffer.FirstFailureIsFirst | esm/inverse_folding/gvp_transformer.py:116-117 | when the loop raises, it raises at the first entry that is unknown or has no slot; a failed lookup comes before the write past slot L, and every earlier entry was written |
| TokenBuffer.Initial | esm/inverse_folding/gvp_transformer.py:112-117 | the initialisation succeeds exactly when all entries are known and fit; the buffer then has L + 1 slots: the start index in slot 0, the index of `partial[k]` in slot k + 1, the mask index in every other slot, and every slot an index of the dictionary |
| TokenBuffer.EntriesFixOrPend | esm/inverse_folding/gvp_transformer.py:113-117 | the slot of every known entry other than `<mask>` holds a non-mask index whose token is that entry; the slot of a `<mask>` entry holds the mask index and stays pending |
| TokenBuffer.InitRow | esm/inverse_folding/gvp_transformer.py:112-117 | the in-place loop returns a fresh array holding exactly `Initial`'s buffer, or exactly `Initial`'s error |
| SingleSample.Advance | esm/inverse_folding/gvp_transformer.py:137-146 | one step keeps the buffer's length, changes no slot but slot `i`, changes slot `i` only if it holds the mask index, and extends the history with the decoder call on `b[..i]` first |
| SingleSample.RunFrom | esm/inverse_folding/gvp_transformer.py:136-146 | the decode loop from step `i` keeps the buffer's length and only ever extends the history |
| SingleSample.RunFromFrame | esm/inverse_folding/gvp_transformer.py:136-146 | decoding from step `i` keeps the length, never changes a slot before `i`, and never changes a fixed slot |
| SingleSample.RunFromFills | esm/inverse_folding/gvp_transformer.py:136-146 | every slot still masked when step `i` begins ends up holding a drawn index in `[0, V)` |
| SingleSample.RunResolves | esm/inverse_folding/gvp_transformer.py:136-147 | the whole loop keeps slot 0 and every fixed slot, and leaves every slot an index of the dictionary |
| SingleSample.RunFromSchedule | esm/inverse_folding/gvp_transformer.py:136-146 | the history of the loop is exactly one decoder call per step, in increasing order, on the final contents of the prefix, followed by one draw if and only if the slot was masked, whose value the slot keeps |
| SingleSample.ScheduleCalls | esm/inverse_folding/gvp_transformer.py:136-141 | the decoder is called exactly `L` times, the call at step `i` on the final `buffer[0:i]`, including at steps whose slot is fixed |
| SingleSample.ScheduleDrawsPending | esm/inverse_folding/gvp_transformer.py:145-146 | every slot pending when its step begins has its final value drawn in the history |
| SingleSample.FixedEntriesComeBack | esm/inverse_folding/gvp_transformer.py:145-150 | an entry whose index is not the mask index (including an unknown entry given the fallback index) comes back as the token of that index, and a known entry other than `<mask>` comes back verbatim |
| SingleSample.OutputKeepsPartial | esm/inverse_folding/gvp_transformer.py:145-150 | a resolved buffer gives exactly L tokens, and when every entry is a known token other than `<mask>` the joined output starts with the joined partial sequence |
| SingleSample.StringPartialKept | esm/inverse_folding/gvp_transformer.py:115-150 | a partial sequence given as a string whose characters the dictionary knows is the start of the joined output |
| SingleSample.Step | esm/inverse_folding/gvp_transformer.py:137-146 | one in-place step changes the buffer and the history exactly as `Advance` does |
| SingleSample.Run | esm/inverse_folding/gvp_transformer.py:136-146 | the in-place loop leaves the buffer and history that `RunFrom` computes from step 1 |
| SingleSample.Sample | esm/inverse_folding/gvp_transformer.py:112-150 | `sample` fails exactly when the initialisation fails, with its error; otherwise it returns the tokens of slots 1 to L of the resolved buffer: L of them, every known entry other than `<mask>` in place, a draw in the history for every `<mask>` entry, and the history of the call is the decode schedule |
| IndependentBatch.SlicesPartition | esm/inverse_folding/gvp_transformer.py:198-208 | the per-sample slices `[s:s+1]` of a batched entry, for samples 0 to n - 1, concatenate back to the first n items: each item goes to exactly one sample |
| IndependentBatch.SliceEncoderOut | esm/inverse_folding/gvp_transformer.py:198-208 | the per-sample encoder dict has the same keys as the whole batch's, each entry sliced to the sample |
| IndependentBatch.RunSamples | esm/inverse_folding/gvp_transformer.py:194-225 | the per-sample loop gives `n` buffers and only ever extends the history |
| IndependentBatch.RunSamplesResolved | esm/inverse_folding/gvp_transformer.py:194-225 | the per-sample loop returns `n` buffers, each a resolved decode of the same initial buffer |
| IndependentBatch.RunSamplesShape | esm/inverse_folding/gvp_transformer.py:194-223 | `n` buffers come back, each with L + 1 slots |
| IndependentBatch.RunSamplesHistory | esm/inverse_folding/gvp_transformer.py:194-222 | the history of the call is each sample's decode schedule, one sample after another |
| IndependentBatch.SchedulesSnoc | esm/inverse_folding/gvp_transformer.py:194-222 | one more decoded sample extends the history of the samples before it by exactly its own schedule |
| IndependentBatch.RunSamplesSharedAt | esm/inverse_folding/gvp_transformer.py:181-222 | for one sample `s`: it is what `sample`'s loop gives after the calls and draws of samples 0 to `s - 1` |
| IndependentBatch.RunSamplesShared | esm/inverse_folding/gvp_transformer.py:181-222 | with the one shared incremental state, sample `s` is what `sample`'s loop gives after the calls and draws of samples 0 to `s - 1` |
| IndependentBatch.CloneRows | esm/inverse_folding/gvp_transformer.py:190 | `n` fresh arrays, pairwise distinct, each a copy of the initial row |
| IndependentBatch.DecodeNext | esm/inverse_folding/gvp_transformer.py:194-225 | one pass of the loop over clones decodes clone `s` in place as the next sample of `RunSamples`, leaves it resolved, and appends its tokens |
| IndependentBatch.DecodeClones | esm/inverse_folding/gvp_transformer.py:194-225 | the loop over clones leaves clone `s` holding the buffer `RunSamples` computes for sample `s`, returns its tokens, and changes only the clones and the decoder |
| IndependentBatch.SamplesKeepPartial | esm/inverse_folding/gvp_transformer.py:223-225 | every sample has L tokens and keeps every known entry other than `<mask>` at its position |
| IndependentBatch.CloneAndDecode | esm/inverse_folding/gvp_transformer.py:190-228 | cloning and decoding returns exactly the `n` samples `RunSamples` describes |
| IndependentBatch.SampleBatch | esm/inverse_folding/gvp_transformer.py:172-228 | as written: fails with the initialisation's error; otherwise fails with an unbound clone list when `device` is falsy and `n > 0`; otherwise returns the `n` samples |
| IndependentBatch.SampleIndependent | esm/inverse_folding/gvp_transformer.py:172-228 | corrected: fails exactly when the initialisation fails; otherwise returns `n` samples, each of L tokens with the known entries other than `<mask>` in place |
| VectorizedBatch.Prefixes | esm/inverse_folding/gvp_transformer.py:290 | `sampled_tokens[:, :i]` has one prefix per row, the row's first `i` slots |
| VectorizedBatch.DrawRows | esm/inverse_folding/gvp_transformer.py:317-321 | the per-row loop keeps the number and width of rows, leaves rows before `j` alone, and changes only slot `i` of rows where it holds the mask index |
| VectorizedBatch.DrawRowsFills | esm/inverse_folding/gvp_transformer.py:317-321 | every row whose slot `i` is masked gets a drawn index in `[0, V)` there |
| VectorizedBatch.DrawRowsCalls | esm/inverse_folding/gvp_transformer.py:317-321 | the per-row loop makes no decoder call |
| VectorizedBatch.VecAdvance | esm/inverse_folding/gvp_transformer.py:288-321 | one step of the vectorised loop keeps the number and width of rows and extends the history with the decoder call on all rows' prefixes first |
| VectorizedBatch.VecAdvanceCalls | esm/inverse_folding/gvp_transformer.py:288-321 | one step adds exactly one decoder call, on the prefixes of all rows |
| VectorizedBatch.VecRunFrom | esm/inverse_folding/gvp_transformer.py:288-321 | the vectorised loop from step `i` keeps the number of rows and only ever extends the history |
| VectorizedBatch.VecRunFromFrame | esm/inverse_folding/gvp_transformer.py:288-321 | the vectorised loop keeps every row's width, never changes slots before the current step, and never changes a fixed slot of any row |
| VectorizedBatch.VecRunFromFills | esm/inverse_folding/gvp_transformer.py:288-321 | every slot masked when its step begins, in every row, ends up holding a drawn index in `[0, V)` |
| VectorizedBatch.CallsFrom | esm/inverse_folding/gvp_transformer.py:288-293 | the prefixes seen from step `i` on: one entry per remaining step, each the prefixes of all rows at that step |
| VectorizedBatch.VecRunFromCalls | esm/inverse_folding/gvp_transformer.py:288-293 | the decoder is called once per step, in order, each time on the final prefixes of all rows |
| VectorizedBatch.Repeat | esm/inverse_folding/gvp_transformer.py:271 | `repeat(n, 1)` gives `n` rows, each the initial row |
| VectorizedBatch.VecRunResolves | esm/inverse_folding/gvp_transformer.py:271-321 | decoding `n` copies of the initial row leaves `n` resolved rows |
| VectorizedBatch.VecRunOneRow | esm/inverse_folding/gvp_transformer.py:288-321 | corrected: without the extra draw, decoding one row in the vectorised loop gives exactly the buffer and history of `sample`'s loop |
| VectorizedBatch.PrintDrawBreaksParity | esm/inverse_folding/gvp_transformer.py:319-321 | as written: with the print's draw, a one-row buffer whose slot 1 is masked comes out different from `sample`'s result under a generator whose draws depend on its position |
| VectorizedBatch.RepeatRow | esm/inverse_folding/gvp_transformer.py:271 | the repeated buffer is a fresh `n` by L + 1 array whose every row is the initial row |
| VectorizedBatch.VecStep | esm/inverse_folding/gvp_transformer.py:288-321 | one in-place step changes the buffer and history exactly as `VecAdvance` does |
| VectorizedBatch.DrawRow | esm/inverse_folding/gvp_transformer.py:319-321 | one pass of the per-row loop leaves everything unchanged when row `j`'s slot `i` is not masked; otherwise it sets exactly that slot to the draw for row `j` and appends that draw (after the printed draw, with `extra`) |
| VectorizedBatch.VecRun | esm/inverse_folding/gvp_transformer.py:288-321 | the in-place loop leaves the rows and history that `VecRunFrom` computes from step 1 |
| VectorizedBatch.CollectRows | esm/inverse_folding/gvp_transformer.py:325-329 | the output loop returns the tokens of slots 1 to L of rows 0 to `n - 1`, and fails, naming the first missing row, exactly when `n` exceeds the number of rows |
| VectorizedBatch.OneVectorizedSampleIsSample | esm/inverse_folding/gvp_transformer.py:317-329 | corrected: a single vectorised sample has the tokens and history that `sample` has |
| VectorizedBatch.RepeatAndDecode | esm/inverse_folding/gvp_transformer.py:271-329 | repeating, decoding and collecting returns the decoded rows, or the missing-row error exactly when more samples than rows are asked for |
| VectorizedBatch.SampleBatch2 | esm/inverse_folding/gvp_transformer.py:252-333 | as written: fails with the initialisation's error; otherwise fails on row 1 when `device` is falsy and `n > 1`; otherwise returns the decodes of `n` rows (or of one row when `device` is falsy), with the extra draw |
| VectorizedBatch.SampleVectorized | esm/inverse_folding/gvp_transformer.py:252-333 | corrected: fails exactly when the initialisation fails; otherwise returns `n` samples decoded together, each of L tokens with the known entries other than `<mask>` in place |

## Left out

- The encoder and decoder networks, and `forward` and `build_embedding`, are not part of this model. The decoder is seen only through the oracle.
- Temperature division, softmax and `torch.multinomial` are floating point and random. They are folded into the oracle, which returns an index in `[0, V)` for each history and row.
- The code does not check the temperature. A negative temperature still gives a distribution, which the oracle covers. A zero temperature makes `logits /= temperature` produce infinities or NaN, and `torch.multinomial` then raises at the first masked slot; a buffer with no masked slot still returns. The oracle always answers, so that error path, and any other error `torch.multinomial` raises, is not modelled.
- `CoordBatchConverter`, the coordinate batch, the confidence input and moving tensors to a device are not modelled. `device` matters only through the branches it selects.
- What the incremental state holds is not modelled; only the history that determines it is kept.
- The tensor-axis handling of the logits (`logits[0].transpose(0, 1)` against `logits.transpose(0, 1)`) depends on the decoder's output layout, which is not part of this model. The vectorised loop is modelled as drawing for each buffer row in turn.
- The debug prints behind `flag1` to `flag4` print only and are left out. The print at line 320 is modelled, because it consumes a draw.
- The encoder dict of `sample_batch2` (lines 276-285) rebuilds `encoder_out` and `encoder_padding_mask` as one-element lists of their first element and copies every other key. It only feeds the decoder, and the oracle stands for the whole encoder output, so it has no member.
- IndependentBatch.SliceEncoderOut: `encoder_out` and `encoder_padding_mask` are one-element lists whose tensor is sliced inside, along its sample axis (lines 200-201), while the other keys slice the value itself (line 206). The model represents every batched entry by its per-sample items and slices them all alike, without the list wrapper. The sliced dict only feeds the decoder, which the oracle stands for, so `SampleBatch` and `DecodeClones` do not use it.
- The samplers return the list of tokens rather than the joined string. `Vocabulary.Join` with its lemmas relates the two, and the string has length L only when every token has one character.
- `partial_seq=None` is modelled as the empty partial sequence, which writes nothing.
- VectorizedBatch.SampleBatch2: with a falsy `device` and more than one sample, the decoder call itself may already fail, because the encoder output has `n` rows and the buffer one. The model places the error at the first point visible in this file, the output loop at line 327.

## Findings

| source | as written | input that shows it | evidently intended | confidence | as-written member | corrected member |
|---|---|---|---|---|---|---|
| esm/inverse_folding/gvp_transformer.py:187-196 | the clones are bound only inside `if device:`, and `device` defaults to `None` | `sample_batch(coords, num_samples=1)` with the default `device`: line 196 reads the unbound `all_sampled_tokens` | clone the initial buffer for every sample whatever the device | not executed | IndependentBatch.SampleBatch | IndependentBatch.SampleIndependent |
| esm/inverse_folding/gvp_transformer.py:266-271 | the buffer is repeated to `num_samples` rows only inside `if device:` | `sample_batch2(coords, num_samples=2)` with the default `device`: the buffer keeps one row and row 1 is read at line 327 | repeat the initial row for every sample whatever the device | not executed | VectorizedBatch.SampleBatch2 | VectorizedBatch.SampleVectorized |
| esm/inverse_folding/gvp_transformer.py:319-321 | the print draws from the generator, then a second draw is written into the slot | one row whose slot 1 is masked, under a generator whose next draw depends on how many draws it has made (`Parity`) | one draw per masked slot, so that `sample_batch2` with one sample matches `sample` under the same seed | not executed | VectorizedBatch.PrintDrawBreaksParity | VectorizedBatch.VecRunOneRow |
