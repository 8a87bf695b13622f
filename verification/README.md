# theft: a verified model

theft is a property-based tester for C. It generates arguments from a replayable stream of random bits, runs a property on
them, and when the property fails it looks for simpler arguments that fail too. Autoshrinking types are simplified by
rewriting the very bits they were generated from; a Bloom filter keeps the runner from trying the same arguments twice.

This project models those parts in Dafny and proves what they promise. Verify it with `dafny verify dfyconfig.toml`.

## The four components

**The bit stream** (`Rng`, `Bits`, `BitPool`, `Random`, `Alloc`). `Rng.State` is the MT19937-64 recurrence, without arrays
or blocks; the class `Rng.Rng` regenerates its 312 words in place and is proved to draw that recurrence. `Random.Prng` hands
the words out in pieces of any size, and `BitPool.BitPool` records, grows and replays what was handed out, copying it word
piece by word piece at arbitrary bit offsets. Both are proved against one specification: a stream of bits (`Bits.Stream`),
cut into consecutive slices, least significant bit first. An alloc callback is an arbitrary function from the answers it has
had to its next request (`Alloc.Callback`), and `Alloc.Play` says what it builds from a stream; running it with or without a
pool is proved to be `Play`.

**The pool transformer** (`PoolEdit`, `Draws`, `Drop`, `Weights`, `Mutate`, `Autoshrink`). One shrinking step copies a pool,
leaving out requests or changing bits, cuts trailing zeroes off and builds a new instance from the copy. Each choice is a
function of the stream its random draws come from; each in-place byte loop is proved to do exactly what that choice says, bit
by bit, and the choices are proved to shorten or to lower what they work on.

**The Bloom filter** (`Hash`, `BloomSpec`, `Bloom`). `BloomSpec` says what a chain of filters remembers as sets of keys;
`Bloom.Bloom`, 512 linked lists of bit arrays that grow at their heads, is proved to agree with it, and FNV-1a is proved to be
independent of how its input is split and injective in each byte.

**The runner** (`Engine`, `Shrink`, `Run`). A state machine over arbitrary callbacks and hooks: generate, look up, mark, run,
shrink, report, free. Every response of a callback is a function of the number of the step that asks for it (and, for the
property, hashes and shrinking, of the arguments), so all histories are covered. What a trial or a tactic did is stated exactly, step
by step (`Run.CounterAt`, `Shrink.Took`), and whole runs are gapless chains of such steps (`Run.Logged`, `Shrink.LeadsOn`). Instances and pools are identities with a set
of live ones, so freeing something twice, or using it later, cannot be proved.

Where a method is proved against a specification function, what that function means is stated again without it: words of the
generator can be rebuilt from the bits handed out, outputs and hashes agree with published ones (`KnownOutputs`,
`Hash.PublishedHashes`), mutations divide, mask, subtract and swap numbers (`Effects`), and tactics, counters and verdicts are read off
the answers of the callbacks (`Shrink.HopelessMeans`, `Run.CounterMeans`, `Run.VerdictMeans`).

## What the proofs found

Each of these has an exact condition, and an input that shows it (`Counterexamples`, unless another module is named).

- **A bulk swap can raise a request.** Inside a request of more than 64 bits, `SWAP` exchanges two blocks if the second holds
  the smaller number. That lowers the request only if the second block lies BELOW the first, and raises it otherwise
  (`Mutate.EditDescends`; `RaisingSwapHappens`). A mutation pass in which no swap raised always descends, and for requests of at most 64
  bits none can (`Mutate.PassDescends`).
- **A forced drop can drop nothing.** The end of the dropped range is computed in 32 bits. For requests above 2^31 bits it can
  wrap, and then every bit stays (`LargeDropKeepsAll`). A first draw of 0xFFFFFFFF also disables the forced drop (`MarkerKeepsAll`).
  `Drop.DropShortensExactly` says when a drop shortens, in both directions.
- **Bulk requests do not clear their buffer.** inc/theft.h:50-51 promises that it "will be zeroed". Without a pool nothing is cleared:
  the answer is right if and only if every bit set in the buffer is set in the stream too (`Random.OredIsSlice`; `DirtyBulk`). With one,
  the `memset` at src/theft_autoshrink.c:58 clears one BYTE for each word asked for, and a request cut off at the limit leaves the words
  past the limit alone: the answer is right if and only if the buffer was zero there (`Random.DeliveredIsSlice`; `DirtyRead`,
  `DirtyTail`). `theft_random_bits` passes a zero word, so it is always right (`Random.Prng.RandomBits`).
- **A mask can clear nothing.** The comment at src/theft_autoshrink.c:659 says "always clear at least 1 bit". But the correction only
  looks for a 64-bit word of ones, so a mask for fewer bits is never corrected: it clears nothing whenever its two draws together are all
  ones, for a one-bit request three times in four (`SmallMaskKeepsEverything`). For 64 bits it clears the bits below a drawn one,
  which is nothing when that is bit 0 (`LargeMaskKeepsEverything`). `Mutate.MaskKeepsEverything` is the exact condition for every size.
- **Any filter, not all of them.** `theft_bloom_check` matches if ANY filter of a chain matches, where the comment at the top of
  src/theft_bloom.c speaks of all. When a key is marked, the two agree on it afterwards if and only if the chain did not grow and the
  filters behind its head had the key (`BloomSpec.MarkedAnyIsAll`); marking any key twice makes them differ (`BloomSpec.MarkedTwice`). After
  a disciplined run they differ on the next key marked if and only if it had checked true (`BloomSpec.OneMarkDivides`), which the runner
  never marks, so there they never differ (`BloomSpec.RunnerAnyIsAll`):
- **The runner's filter never grows.** The runner only marks what has just checked false, so each mark sets a new bit in a head
  filter of 2^9 bits, and a run has at most 2^18 marks (`BloomSpec.AtMost2To18Marks`, `BloomSpec.RunnerAnyIsAll`). This, and nothing in a
  user's shrink callback, is why `theft_shrink` terminates.
- **A failure can be reported unconfirmed.** When a hook asks for the failed property to be called again and that call skips, or
  answers with a duplicate, the report goes on as if it had failed, and the trial goes well (`Run.ContinuesUnconfirmed`;
  `UnconfirmedFailure`, a whole trial).

## Assumptions

- Hooks do not answer `REPEAT` for ever (`Engine.Patient`).
- Alloc callbacks return after boundedly many requests (`Alloc.Ends`).
- The draw stream does not run against the action sampler for ever (`Weights.Fair`): the source's rejection loop would not end
  on such a stream either.
- Callbacks give a fresh, non-null instance when they report success.
- Hash callbacks are functions of what they hash. The discipline of the filter, the bound of 2^18 marks and the termination of shrinking
  rest on that: a look-up and the mark that follows it must see the same hash.

## Model

| member | source | states |
|---|---|---|
| Rng.Rng.Reset | src/theft_rng.c:95-104 | seeding leaves the first 312 terms of the recurrence, nothing drawn yet |
| Rng.Rng.Regenerate | src/theft_rng.c:130-139 | rewriting the block in place moves every word on by 312 terms, though later words are mixed from already rewritten ones |
| Rng.Rng.Random | src/theft_rng.c:117-152 | the n-th word drawn since seeding is the tempering of term n + 312, an unseeded generator counting as seeded with 5489 |
| Rng.WindowDeterminesFuture | src/theft_rng.c:130-139 | 312 consecutive state words determine all later ones, whatever the seed |
| Rng.TemperInjective | src/theft_rng.c:144-149 | tempering loses nothing: an output determines the state word behind it |
| Rng.OutputsDetermineFuture | src/theft_rng.c:117-152 | generators that agree on 312 consecutive outputs agree for ever after |
| KnownOutputs.FirstOutputs | src/theft_rng.c:95-152 | for the default seed 5489 the first three outputs are those published for MT19937-64 |
| Random.Prng.SetSeed | src/theft_random.c:13-20 | drops the pool and the buffered bits: what comes next is the generator's bits from its first word on |
| Bits.UnpackRebuilds | src/theft_random.c:57-80 | the bits taken from a word, joined again with the first as the lowest, are its low bits |
| Random.LowBitsOfWord | src/theft_random.c:57-80 | bits of the stream from a drawn word on are that word's low bits, in their order |
| Random.Prng.TakePiece | src/theft_random.c:53-80 | a piece holds the next bits of the stream and nothing above them, and the rest of the stream is what is left, across refills and a 64-bit shift |
| Random.Prng.FromBuffer | src/theft_random.c:51-88 | a bulk request ORs exactly the next `bitCount` bits of the stream into the destination, and draws no word too many |
| Random.Prng.BitsBulk | src/theft_random.c:44-89 | without a pool as above; with one, the pool serves and buffered bits stay |
| Random.Prng.RandomBits | src/theft_random.c:33-42 | pool or no pool, a request of at most 64 bits returns the next slice of the stream, zero-extended; with nothing buffered, the low bits of the word drawn |
| BitPool.BitPool.constructor | src/theft_autoshrink.c:167-205 | an empty pool of whole 64-bit words, all zero |
| BitPool.BitPool.Grow | src/theft_autoshrink.c:79-92 | doubling keeps every byte, whatever the new half holds |
| BitPool.BitPool.FillWord | src/theft_autoshrink.c:94-102 | one drawn word is stored so that loading it again gives that word, and what the pool delivers stays the same stream |
| BitPool.BitPool.LazilyFill | src/theft_autoshrink.c:73-103 | draws enough words for the request and less than one more, keeping the stream |
| BitPool.PieceCopied | src/theft_autoshrink.c:118-141 | one word-sized piece lands at its bit and disturbs no other |
| BitPool.CopyStep | src/theft_autoshrink.c:117-151 | one turn of the copy loop keeps: bits copied so far, zeroes to the end of the cleared words, the rest untouched |
| BitPool.BitPool.FillBuf | src/theft_autoshrink.c:105-154 | the destination holds exactly the pool's next bits at whatever offset, then zeroes to the end of its last word |
| BitPool.BitPool.AppendRequest | src/theft_autoshrink.c:974-992 | records stay positive and their sum grows by the request |
| BitPool.BitPool.Random | src/theft_autoshrink.c:37-71 | a request is recorded and served from the stream, clipped at the limit, or not recorded at all once exhausted; the pool invariant and the stream stay |
| Random.OredIsSlice | src/theft_random.c:52-88 | without a pool a bulk answer is the next slice if and only if every bit set in the destination is set in it |
| Counterexamples.DirtyBulk | src/theft_random.c:75 | zeroes or-ed into a word of ones |
| Random.DeliveredIsSlice | src/theft_autoshrink.c:52-70 | a served request is the zero-extended slice at the running total if and only if the part of the destination it leaves alone was zero |
| Counterexamples.DirtyRead | src/theft_autoshrink.c:55-59 | an exhausted pool serving 64 bits into a word of ones answers wrongly |
| Counterexamples.DirtyTail | src/theft_autoshrink.c:60-70 | a pool with one bit left serving 128 bits leaves the second word as it was |
| Alloc.RunUnpooled | src/theft_random.c:51-88 | an alloc callback run on the generator is `Play` on its bits, and consumes exactly what it asked for |
| Alloc.RunPooled | src/theft_autoshrink.c:37-71 | run on a pool it is `Play` on the pool's zero-extended stream, and the pool's record is its requests, clipped |
| Alloc.AllocFromBitPool | src/theft_autoshrink.c:220-232 | the pool is injected, serves, and is put away again; a shrunk pool draws no generator word |
| Alloc.AutoshrinkAlloc | src/theft_autoshrink.c:234-257 | pool transparency, one side: a callback builds from a fresh pool what `Play` builds from the generator's bits, drawing just the words they fill, whatever bits are buffered; the pool holds the numbers the callback was given |
| Alloc.UnpooledAlloc | src/theft_random.c:44-89 | pool transparency, other side: without a pool, the same instance, the same answers and the same number of words |
| Alloc.PlayAgrees | src/theft_autoshrink.c:220-232 | a callback depends only on the bits it consumes |
| Alloc.SavedPoolReplays | src/theft_autoshrink.c:220-257 | a pool holding the consumed bits rebuilds the same instance with the same requests |
| Alloc.ChunkingInvariance | src/theft_random.c:44-89 | however requests are split, the bits delivered are one unbroken stretch of the stream |
| Alloc.RecordedSum | src/theft_autoshrink.c:52-70 | recorded requests sum to the bits consumed, and there is one recorded value for each |
| Alloc.ValuesAreAnswers | src/theft_autoshrink.c:105-154 | the bits at every recorded request's offset are the number the callback was given, also for clipped requests |
| Alloc.PlayedValues | src/theft_autoshrink.c:220-257 | so for every pool a callback has been run on |
| Alloc.ReadBack | src/theft_autoshrink.c:779-828 | for such a pool, as `AutoshrinkAlloc` and `AutoshrinkShrink` leave it, reading `requests[i]` bits at `index[i]` gives the number the callback received |
| PoolEdit.ReadBitsAtOffset | src/theft_autoshrink.c:806-828 | the byte-wise reader returns the bits that the word-wise one delivers, zero-extended |
| PoolEdit.WriteBitsAtOffset | src/theft_autoshrink.c:830-850 | the written bits are there, and no other bit has changed |
| PoolEdit.WriteBackIsIdentity | src/theft_autoshrink.c:806-850 | writing back what was read changes no byte |
| PoolEdit.BuildIndex | src/theft_autoshrink.c:779-792 | the cached index is the prefix sum of the requests, also if it was cached before |
| PoolEdit.TruncateTrailingZeroBytes | src/theft_autoshrink.c:370-391 | cutting zero bytes off leaves the zero-extended stream as it was, ends on a non-zero byte, and leaves the limit within the filled bits |
| Drop.KeepIsSubsequence | src/theft_autoshrink.c:443-510 | what is kept is a subsequence of the consumed bits, at exactly the positions the mask keeps |
| Drop.KeepShortens | src/theft_autoshrink.c:443-510 | something is left out if and only if the mask has a hole |
| Drop.PlanPart | src/theft_autoshrink.c:443-510 | what happens to a request is the decision made for it, on the draws that follow those for the requests before |
| Drop.StaysWhole | src/theft_autoshrink.c:445 | a request that is not the forced one stays if its odds draw is above the threshold |
| Drop.GoesWhole | src/theft_autoshrink.c:445-488 | a small one goes if it is forced, without a draw, or if its odds draw is at most the threshold |
| Drop.GoesInPart | src/theft_autoshrink.c:450-478 | of a large one goes the stretch that the next two draws name |
| Drop.MissingCount | src/theft_autoshrink.c:450-478 | that is one bit more than drawn, or all to its end |
| Drop.DrawForces | src/theft_autoshrink.c:436-439 | the first draw can force any request, and forces the one it names |
| Drop.LargeDropLosesBits | src/theft_autoshrink.c:450-478 | a part of a large request is lost if and only if the end of the range does not wrap past 32 bits |
| Drop.PlanLoses | src/theft_autoshrink.c:443-510 | the plan of a drop has a hole if and only if some request's own decision loses a bit |
| Drop.DropShortensExactly | src/theft_autoshrink.c:413-517 | a drop shortens the pool if and only if some request's decision loses a bit |
| Drop.DropShortens | src/theft_autoshrink.c:436-445 | with a request, none above 2^31 bits, and a first draw other than 0xFFFFFFFF, a drop is strictly shorter |
| Drop.LargeDropMayWrap | src/theft_autoshrink.c:450-478 | a range that wraps: of 2^31 + 1 bits it keeps every one |
| Counterexamples.LargeDropKeepsAll | src/theft_autoshrink.c:436-478 | a fair stream on which a step chooses to drop, and the forced drop of such a request drops nothing |
| Counterexamples.MarkerKeepsAll | src/theft_autoshrink.c:436-445 | a fair stream on which a step chooses to drop, draws 0xFFFFFFFF, and drops nothing |
| Drop.CopyAround | src/theft_autoshrink.c:458-478 | of a large request exactly the bits outside the dropped range are appended |
| Drop.DropRequest | src/theft_autoshrink.c:443-510 | one request is copied, skipped or copied in part as its draws decide |
| Drop.DropFromBitPool | src/theft_autoshrink.c:413-517 | the copy holds the kept bits in order, then zeroes; its filled count is their number, and below what was consumed if and only if some request's decision loses a bit |
| Weights.AdjustedIsClampedMove | src/theft_autoshrink.c:1096-1123 | the 8-bit adjustment never wraps: it is the integer move, clamped |
| Weights.UpdateMeans | src/theft_autoshrink.c:1096-1161 | an action that did something gains by a failing result and loses by another, within its range; one tried in vain loses by a failing result; all others stay |
| Weights.WeightsStayInRange | src/theft_autoshrink.c:1096-1161 | over every run of updates the drop weight stays in 0x10..0xA0 and the others in 0x08..0x80 |
| Weights.SamplerBounds | src/theft_autoshrink.c:1054-1071 | the sampler uses 7 to 9 bits, and at least a quarter of the draws are accepted |
| Weights.EveryActionReachable | src/theft_autoshrink.c:1073-1093 | every mutation has a non-empty band of draws |
| Weights.BandSizes | src/theft_autoshrink.c:1054-1092 | each mutation has as many draws as its weight |
| Weights.FirstOdds | src/theft_autoshrink.c:1013-1021 | the weights at first: 128 of 256 for a drop, 64 for a mutation, 48 for a swap |
| Weights.SampleIsUnique | src/theft_autoshrink.c:1073-1093 | the sampled action and the number of rejected draws are functions of the stream |
| Weights.Model.Begin | src/theft_autoshrink.c:323-335 | a step starts with no action tried and weights in range, initialized on first use |
| Weights.UpdateSteers | src/theft_autoshrink.c:1096-1161 | over weights in range a whole update is five clamped integer moves |
| Weights.Model.Update | src/theft_autoshrink.c:1125-1161 | weights in range move so and stay in range; with no action set they do not move |
| Weights.Model.ShouldDrop | src/theft_autoshrink.c:1024-1036 | drop if an 8-bit draw is below both the weight and eight times the request count |
| Weights.Model.GetWeightedMutation | src/theft_autoshrink.c:1038-1094 | the action is the band of the first draw that is not rejected |
| Mutate.NewBlockLowers | src/theft_autoshrink.c:621-775 | a shift, mask or subtraction that changes a block leaves a smaller number |
| Mutate.BlockDecides | src/theft_autoshrink.c:621-775 | writing a block moves its request's value exactly the way it moves the block's |
| Mutate.SwapDecides | src/theft_autoshrink.c:693-720 | swapping two blocks moves their request the way the higher block moves |
| Mutate.EditDescends | src/theft_autoshrink.c:598-777 | no change leaves every byte; a change strictly lowers the vector of request values, except that a bulk swap whose first block is the lower one strictly raises it |
| Mutate.RequestSwapDescends | src/theft_autoshrink.c:721-741 | swapping a request with a later, smaller one of its size is a descent |
| Mutate.CarriedFrame | src/theft_autoshrink.c:598-777 | no mutation touches a bit past the recorded requests |
| Effects.DrawAims | src/theft_autoshrink.c:606-616 | the request mutated is the one the draw names |
| Effects.EveryRequestReachable | src/theft_autoshrink.c:606-616 | for every request there are draws that aim at it |
| Effects.SmallIsWhole | src/theft_autoshrink.c:634-636 | a request of at most 64 bits is shifted, masked or reduced as a whole |
| Effects.DrawPicks | src/theft_autoshrink.c:628-633 | of a larger one it is the stretch the draws name, and no further than its end |
| Effects.SmallBecomes | src/theft_autoshrink.c:621-775 | a small request ends up with its new number, a change is reported if and only if it differs, and no other request is touched |
| Effects.ShiftDivides | src/theft_autoshrink.c:621-651 | a shift divides by 2, 4, 8 or 16, as drawn |
| Effects.MaskKeeps | src/theft_autoshrink.c:655-662 | a bit survives a mask if one of two draws has it and no correction clears it |
| Effects.SubSubtracts | src/theft_autoshrink.c:744-775 | the number drawn, reduced to what is there, is subtracted, or else one |
| Effects.DrawSwaps | src/theft_autoshrink.c:693-720 | the two blocks swapped are those the draws name |
| Effects.ChangesWanted | src/theft_autoshrink.c:540-562 | the changes wanted are one more than the ones drawn, at most the requests if all are small |
| Mutate.TriesDescend | src/theft_autoshrink.c:566-590 | any run of tries without a raising bulk swap never raises the vector, and lowers it if one try changed something; bits past the consumed ones stay |
| Mutate.SmallNeverRaise | src/theft_autoshrink.c:693-721 | with requests of at most 64 bits no try is a raising swap |
| Counterexamples.RaisingSwapHappens | src/theft_autoshrink.c:693-720 | draws and a buffer for which a mutation raises a request from 1 to 256 |
| Mutate.MaskKeepsEverything | src/theft_autoshrink.c:655-662 | for every mask size: none of the bits it is drawn for is cleared if and only if the two draws together are all ones and, for 64 bits, the correction draws bit 0 |
| Counterexamples.SmallMaskKeepsEverything | src/theft_autoshrink.c:652-688 | for every request of 1 to 63 bits, draws with which a MASK leaves it as it is |
| Counterexamples.LargeMaskKeepsEverything | src/theft_autoshrink.c:652-688 | draws with which it leaves a request of 64 bits as it is |
| Mutate.PassDescends | src/theft_autoshrink.c:519-596 | so does a whole pass, measured from the original pool; with requests of at most 64 bits always |
| Mutate.MutateShift | src/theft_autoshrink.c:621-651 | the drawn block is shifted right, and the report says whether it changed |
| Mutate.MutateMask | src/theft_autoshrink.c:652-688 | the drawn block is masked, with the source's correction of an all-ones mask |
| Mutate.MutateSub | src/theft_autoshrink.c:744-775 | the drawn block loses the drawn amount, reduced to what it holds |
| Mutate.SwapInRequest | src/theft_autoshrink.c:693-720 | two drawn blocks of a large request trade places if they do not overlap and the second is lower |
| Mutate.SwapWithLaterRequest | src/theft_autoshrink.c:721-742 | a small request trades places with the first later one of its size that is lower, and only if there is one |
| Mutate.ChooseAndMutateRequest | src/theft_autoshrink.c:598-777 | action, request and edit are those the draws decide, the edit is performed, and the model learns what was tried and what changed |
| Mutate.Popcount | src/theft_autoshrink.c:393-401 | counts the one bits |
| Mutate.LeastBits | src/theft_autoshrink.c:403-409 | the least number of bits that can index that many things |
| Mutate.Log2CeilBound | src/theft_autoshrink.c:533-540 | the number of bits drawn at once never passes 64, for up to 2^64 requests |
| Mutate.DecideChangeCount | src/theft_autoshrink.c:533-562 | one more than the ones in the draw, at most the request count if every request is small |
| Mutate.RunTries | src/theft_autoshrink.c:564-590 | at most the wanted number of changes, in at most ten times as many tries, and no fewer of both |
| Mutate.MutateBitPool | src/theft_autoshrink.c:519-596 | the copy starts as the original's bits and ends as the tries leave it; half of the unconsumed bits stay within its limit |
| Autoshrink.DropInto | src/theft_autoshrink.c:337-339 | a dropping step derives the kept bits and then zeroes |
| Autoshrink.MutateInto | src/theft_autoshrink.c:340-342 | a mutating step derives the mutated bits up to its limit |
| Autoshrink.MakeCopy | src/theft_autoshrink.c:309-352 | the truncated copy is sound, not longer than the original, one generation on, and delivers exactly the derived stream |
| Autoshrink.AutoshrinkShrink | src/theft_autoshrink.c:294-368 | the new instance is what the callback builds from the derived bits; the new pool satisfies consumed <= limit <= filled, none larger than before, and holds the numbers the callback was given; the model notes exactly the actions tried and those that changed something; no tactics are left exactly from the configured number on |
| Autoshrink.UnchangedStepReplays | src/theft_autoshrink.c:592-594 | a pass that changed nothing rebuilds the same instance: the unconsumed bits cut off are never missed |
| Autoshrink.RecordedReplays | src/theft_autoshrink.c:234-257 | a freshly recorded pool replays its instance |
| Autoshrink.ReplaysRead | src/theft_autoshrink.c:354-367 | a pool that replays its instance holds the numbers its callback is given |
| Autoshrink.MeetFate | src/theft_shrink.c:147-174 | the model hears of a first failure with weight 3 and of the last result with weight 8, and of nothing when the hook errs or nothing is run |
| Autoshrink.Heeded | src/theft_shrink.c:147-174 | what that does to the weights, for each fate |
| Autoshrink.DropsOneIn32 | src/theft_autoshrink.c:429-430 | by default a request's odds draw has 5 bits and only 0 drops it |
| Autoshrink.ShrinkOnce | src/theft_shrink.c:85-206 | the pool is the offered one if and only if the property failed on it or the attempt ended in an error after running it; the weights are those in force, moved by what the model heard about the actions noted |
| Autoshrink.ShrinkOften | src/theft_shrink.c:63-211 | through any number of steps, until one ends the loop, the pool is sound, never longer, and replays its instance, and the weights stay in range |
| Hash.Hasher.Sink | src/theft_hash.c:18-28 | the accumulator folds the bytes in order |
| Hash.HashOnePass | src/theft_hash.c:39-45 | one-pass hashing is initialize, sink, done |
| Hash.PublishedHashes | src/theft_hash.c:8-45 | the hashes of no byte and of the letter a are the published ones of 64-bit FNV-1a |
| Hash.SinkSplit | src/theft_hash.c:18-28 | sinking data in two parts is sinking it whole |
| Hash.StepInvertible | src/theft_hash.c:18-28 | one step loses neither the state nor the byte: multiplying by the prime is invertible modulo 2^64 |
| Hash.SinkInjective | src/theft_hash.c:18-28 | different states stay different whatever is sunk into both |
| Hash.OneByteNeverCollides | src/theft_hash.c:39-45 | equally long inputs that differ in exactly one byte have different hashes |
| Hash.AutoshrinkHash | src/theft_autoshrink.c:259-292 | the default hash of a pool is the hash of its consumed bytes, the last one masked |
| Hash.HashSeesConsumedBits | src/theft_autoshrink.c:269-290 | bits past the consumed ones do not matter |
| Hash.OneByteOfPoolNeverCollides | src/theft_autoshrink.c:269-290 | pools that differ in their consumed bits inside one byte have different default hashes |
| Bloom.BloomFilter.constructor | src/theft_bloom.c:88-101 | a filter of 2^size zero bits remembers nothing |
| Bloom.BloomFilter.MarkIn | src/theft_bloom.c:122-147 | the set bits stay exactly the union of the four probes of its keys, and the report says whether a new bit was set |
| Bloom.BloomFilter.CheckIn | src/theft_bloom.c:186-207 | true if and only if all four probes are set |
| Bloom.Bloom.constructor | src/theft_bloom.c:63-86 | every block starts without a filter |
| Bloom.Bloom.Check | src/theft_bloom.c:173-216 | true if and only if some filter of the key's block has all its probes |
| Bloom.Bloom.Mark | src/theft_bloom.c:103-170 | the linked filters change as the specification's chain does, and all other blocks stay |
| Bloom.Bloom.Grow | src/theft_bloom.c:149-167 | a saturated head gets a larger empty filter before it while the hash has bits for it, up to size 13 |
| BloomSpec.RemembersExactly | src/theft_bloom.c:103-170 | after any marks, the keys of a block's filters are exactly the marked keys of that block |
| BloomSpec.BlockIsLowBits | src/theft_bloom.c:109-110 | the block is the low nine bits of the hash |
| BloomSpec.ProbeIsBits | src/theft_bloom.c:127-137 | each probe is the next stretch of the hash's bits |
| BloomSpec.ProbesTellHash | src/theft_bloom.c:127-137 | block and probes of a smallest filter tell 45 bits of the hash |
| BloomSpec.GrowsToThirteen | src/theft_bloom.c:151-167 | a chain grows up to filters of 2^13 bits, and no further |
| BloomSpec.FirstMark | src/theft_bloom.c:113-120 | the first filter of a block has 2^9 bits |
| BloomSpec.NothingFound | src/theft_bloom.c:182-185 | nothing is found before anything is marked |
| BloomSpec.FoundByProbes | src/theft_bloom.c:189-216 | a key is found only if each of its probes in some filter is one of a key marked in its block |
| BloomSpec.MarkedStaysMarked | src/theft_bloom.c:103-216 | every marked key checks true after any growth |
| BloomSpec.MarkedAnyIsAll | src/theft_bloom.c:103-216 | after marking a key, all filters have it if and only if the chain did not grow and those behind the head had it before; any filter always does |
| BloomSpec.GrowthDivides | src/theft_bloom.c:148-167 | after any growth they differ on the key that caused it |
| BloomSpec.MarkedTwice | src/theft_bloom.c:103-170 | marking any key twice causes it |
| BloomSpec.RunnerAnyIsAll | src/theft_bloom.c:189-213 | in a run that only marks what checked false, any filter and all filters never differ |
| BloomSpec.OneMarkDivides | src/theft_bloom.c:148-213 | after such a run, marking one more key makes them differ on it if and only if it checked true before |
| BloomSpec.CheckThenMark | src/theft_bloom.c:122-167 | marking what checked false sets a new bit and grows no chain |
| BloomSpec.AtMost2To18Marks | src/theft_bloom.c:103-170 | a run of marks that each follow a negative check has at most 2^18 of them, and never grows a chain |
| Engine.Theft.constructor | src/theft_run.c:101-105 | a new run: empty filter, no arguments, counters at zero |
| Engine.Theft.GetArgHashBuffer | src/theft_call.c:296-309 | the buffer is the argument hashes in order |
| Engine.KeyHolds | src/theft_call.c:296-309 | bytes 8 i to 8 i + 7 of the buffer are the hash of argument i, lowest byte first |
| Engine.HashBytesInjective | src/theft_call.c:307 | different hashes are different bytes |
| Engine.KeyTellsHashes | src/theft_call.c:296-317 | equal buffers mean equal hashes for every argument |
| Engine.OneHashByteTells | src/theft_call.c:311-317 | buffers that differ in one byte are never taken for each other |
| Engine.Theft.CheckCalled | src/theft_call.c:311-317 | whether the filter knows this combination of arguments |
| Engine.Theft.MarkCalled | src/theft_call.c:319-325 | the combination is marked, and the run keeps its discipline: every mark so far followed a negative check |
| Engine.Theft.Install | src/theft_shrink.c:118-119 | an argument takes up an instance and pool, what it had is loose, and everything live still belongs to exactly one place |
| Shrink.KnownStaysKnown | src/theft_bloom.c:173-216 | a key that checks true does so after every further mark |
| Shrink.CallShrink | src/theft_shrink.c:85-92 | a candidate is offered as the callback answered for this argument, content and tactic; the arguments stay |
| Shrink.CallAndReport | src/theft_shrink.c:85-104 | if the hook reports an error the candidate is freed again, instance and pool |
| Shrink.RunCandidate | src/theft_shrink.c:137-172 | the result is that of the last call, made again for as long as the hook asks and at most once more for REPEAT_ONCE |
| Shrink.LastRunIsUnique | src/theft_shrink.c:155-172 | the hook determines which call is the last |
| Shrink.RunInstalled | src/theft_shrink.c:137-206 | commit if and only if the LAST call failed, revert if and only if it passed or skipped; what is not kept is freed |
| Shrink.JudgeCandidate | src/theft_shrink.c:118-206 | a candidate that was known is not run; one that is run was new and is marked; what becomes of it is decided by its last call |
| Shrink.TryTactic | src/theft_shrink.c:63-206 | how a tactic ends, as a function of what the hooks, the shrink callback, the filter and the property answer in the steps it takes |
| Shrink.AttemptToShrinkArg | src/theft_shrink.c:58-211 | tactics 0, 1, 2, ... are tried on the same arguments without a gap, all in vain until one that ends the attempt, and its ending is the result |
| Shrink.MarksBounded | src/theft_bloom.c:122-167 | a disciplined run has at most 2^18 marks |
| Shrink.ShrinkGreedily | src/theft_shrink.c:22-46 | one argument is simplified for as long as that succeeds; each success extends the path to the arguments left |
| Shrink.ShrinkArgs | src/theft_shrink.c:13-49 | terminates for every shrink callback; the arguments left come from the first ones by a chain of replacements each offered by the callback and failing in its last call; unless a hook halted, every tactic tried in the final pass on each argument that has a shrink callback or autoshrinks was a dead end, already known, or did not fail; it returns false only for an error |
| Shrink.PathFails | src/theft_shrink.c:18-48 | counterexample soundness, for any property: if it failed on the first arguments, it failed on those left, in a step of its own |
| Shrink.HopelessMeans | src/theft_shrink.c:63-211 | everything tried in vain, answer by answer: tactics up to number 2^32 - 2, or up to the one for which the callback has no more; each was a dead end, or an offer that was known, or one that passed or skipped in its last call |
| Shrink.CommitMeans | src/theft_shrink.c:118-197 | what was kept is what the callback offered for that argument, and the property failed on it in the last step |
| Shrink.HaltMeans | src/theft_shrink.c:68-71 | a halt is the answer of the hook before a tactic |
| Shrink.ErrorMeans | src/theft_shrink.c:72-206 | an error is the answer of a hook, of the shrink callback or of the property |
| Shrink.RepeatsAsAsked | src/theft_shrink.c:139-172 | a hook that asks for more calls gets as many as it asks for |
| Shrink.RepeatsOnce | src/theft_shrink.c:155-163 | asked for once, there is one more |
| Shrink.DeterministicLocalMinimum | src/theft_shrink.c:18-48 | for a deterministic property the arguments left fail on every call, and no candidate run in the final pass fails on any |
| Run.GenArg | src/theft_run.c:430-446 | an argument is what its alloc call made, and its pool the one recorded with it |
| Run.GenAllArgs | src/theft_run.c:428-455 | arguments come from consecutive alloc calls, and count as new if and only if they check false |
| Run.FreeArgs | src/theft_trial.c:87-99 | everything the arguments own is freed, each thing once |
| Run.ReportOnFailure | src/theft_trial.c:109-156 | every call made again but the last FAILs; the last makes the report an error (pass, error), leaves it to the hook (failure), or ends it as if confirmed (skip, duplicate) |
| Run.ReportedAsAsked | src/theft_trial.c:133-155 | calls are made again exactly as the trial hook asks, and one that passes makes the report an error |
| Run.ContinuesUnconfirmed | src/theft_trial.c:133-155 | a report without error is unconfirmed if and only if the hook asked again and the last call made then skipped or was a duplicate |
| Counterexamples.UnconfirmedFailure | src/theft_trial.c:133-155 | a whole trial that counts a failure and goes well though the call made again skipped |
| Run.TrialRun | src/theft_trial.c:12-85 | the arguments are marked first; exactly the counter of the property's result moves, that of a failure only if shrinking is not stopped by an error; what is reported is what shrinking left; it returns true if and only if the result is a pass, a skip or a shrunk failure and the last answer no error |
| Run.Step | src/theft_run.c:265-347 | the counter that moves, the result, the last answer and the step it ends in are those that the alloc calls, the filter, the hooks and the property's call on the generated arguments determine |
| Run.CounterMeans | src/theft_run.c:265-347 | the pass counter moves if and only if the property was called for the trial, on what the alloc calls made, and passed; likewise for skips, failures that shrink, and duplicates |
| Run.ErrorStepMeans | src/theft_run.c:265-347 | a trial errs if and only if an alloc call, the hook before it, the property or its shrinking did, or the last answer was an error |
| Run.RunStep | src/theft_run.c:215-354 | on every path all instances and pools made in the step are freed exactly once; what is live is what was live before |
| Run.CountedFailureIsReal | src/theft_run.c:142-213 | if a failure is counted, the property failed in a call of that trial on the arguments generated for it, and in a call on those that shrinking left, which are a local minimum unless a hook halted shrinking |
| Run.VerdictIsMeant | src/theft_run.c:167-212 | PASS means that a trial's call passed and none failed, SKIP that none passed or failed, FAIL that one failed, ERROR that the last trial erred |
| Run.RunTrials | src/theft_run.c:142-213 | the run is a gapless chain of such trials, of which all but the last go well, as many as asked for unless the last errs or halts; it is an error if and only if the last errs; otherwise the verdict is read off the counters, which are the trials' tally; nothing is left live |

## Left out

- Process handling in src/theft_call.c (fork, pipes, signals, timeouts): a call of the property is one opaque function that returns a trial result.
- Printing and reporting: src/theft_aux.c, the autoshrink dump and print functions, the tally of results.
- Built-in generators (src/theft_aux_builtin.c) and `theft_random_choice`: they would add only easy members.
- `theft_random_double`: floating-point rounding.
- Failure of memory allocation, and zero-size allocations.
- Modes that only tests use: `leave_trailing_zeroes`, a scheduled `next_action`, an injected draw function. Drop odds are those of the default configuration, though `Drop` proves everything for any.
- Bloom filter configurations other than the default one, which is the only one the runner uses.
- Shrinking without a Bloom filter: then nothing bounds `theft_shrink`, since a user's callback may offer the same candidate for ever. `Engine` takes all types to be hashable, as the runner does when it creates the filter.
- Run-level hooks, always-run seeds and the chain of trial seeds in src/theft_run.c; hooks are present, where the source also allows NULL.
- The numbers of successful and failed shrinks kept for hooks. In `Shrink` the model update of the shrink loop is left out, since the shrink callback may answer anything there; `Autoshrink.ShrinkOnce` has it.
- The runner and the pool transformer meet at an interface: in `Engine` and `Shrink` the step `theft_autoshrink_shrink` is a callback that may offer anything, and what it does offer is `Autoshrink.AutoshrinkShrink`.
- `size_t` is unbounded; 8-bit, 32-bit and 64-bit widths are modelled where the code depends on them. The capacity of the request array is not modelled: requests are a sequence.
- Hardware words are sequences of 64 bits outside `Rng`. A 64-bit word shifted by 64 (src/theft_random.c:79) is an arbitrary value, which is never read.
- Shrink.JudgeCandidate: the runner puts the old argument back before it frees a rejected candidate. The source frees a known one first; nothing can observe the difference.
- Fairness of `Weights.Fair` and the statistical quality of the generator and the filter are not proved of MT19937-64.
