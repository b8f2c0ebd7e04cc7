# The lossless codecs of an Android player: a verified model

This project models the parts of the Android lossless player where a mistake loses sound, and proves what they are
for.

**The WavPack codec of `jni/wv`**, both directions. The bit buffers (`BitIO`), the adaptive entropy coder (`WordSpec`,
`WordsCoder`, `WordsRoundTrip`), the decorrelation filters with their circular histories (`DecorrSpec`,
`DecorrPasses`, `DecorrCont`, `DecorrEncode`), their inverse, resumability and bounds (`DecorrInverse`, `DecorrExact`,
`DecorrResume`, `DecorrBounds`), how medians and weights adapt (`WordAdapt`, `DecorrAdapt`), the lossily stored block
metadata (`LogTables`, `LogAccuracy`, `Metadata`, `Chunks`, `Sync`), whole blocks (`BlockSpec`, `BlockRoundTrip`,
`Packing`, `Unpacking`, `EndToEnd`) and the search for the next block (`HeaderSearch`). The main result is
`BlockRoundTrip.BlockComesBack`, and `EndToEnd.RoundTrip` for the methods themselves: for every block on which the
encoder's passes stay within their integers (exactly when is said below), whatever passes, medians and call sizes it
is given, and however the decoder's caller cuts up its requests, the samples and the checksum come back, unless a
sample is over the mute limit.

**Monkey's Audio** in `jni/ape`. The range decoder (`ApeRange`, `ApeEntropy`, `ApeDecoder`): its 32-bit registers are
proved to be the code value's offset in, and the width of, the exact arithmetic-coding interval, so that any code
value in the interval of a frame's samples decodes to those samples, and there is one for every frame that can be
coded; `ApeRice` says what its model of the values converges to. The adaptive filters and the predictor (`ApeFilter`,
`ApePredictor`), whose histories slide through one array and overlay each other: they compute what they would with
histories apart, lose nothing, and learn (`ApeFilterLearns`, `ApePredictorLearns`).

**Playing and seeking in Musepack** streams, `jni/mpc`. The bit reader over a ring of two halves and its Huffman codes
(`MpcBits`, `MpcReader`, `MpcTables`, `MpcSymbols`), and the table of frame positions (`MpcSeek`, `MpcPlayer`): after
any run of playing and seeking, a seek lands on the true first bit of the frame asked for.

**The ring buffer between decoder and audio callback** in `jni/std_audio.cpp` (`AudioRing`), over every interleaving
of writes, callbacks and the stop.

**ALAC and MP4**, `jni/alac`: the adaptive predictor with its unrolled loops (`AlacPredictor`, `AlacLearns`), and
finding a sample by the tables of the file (`SampleTables`).

**FLAC**, `jni/flac`: Rice codes by two branches (`FlacGolomb`), partitioned residuals (`FlacResiduals`, `FlacCodes`),
the fixed and the linear predictors (`FlacFixed`, `FlacLinear`, `FlacPredictors`), whole subframes of both kinds, from
samples to bits and back (`FlacSubframe`), and the two channels (`FlacStereo`). The repository has no encoder for
FLAC, ALAC or Monkey's Audio; the writers the round trips use are the ones the formats call for.

Encoder and decoder of an adaptive codec agree whatever both adapt to, so round trips alone would hold of a codec that
learns nothing, or the wrong way. The modules named `...Adapt` and `...Learns`, and `ApeRice`, say what is learnt,
without the functions that do it: predictions are weighted sums to the nearest integer; a weight moves so that the
same input would have been predicted better, and by how much; a median is a level that two samples in seven exceed;
the Rice parameter of Monkey's Audio goes to where the values are.

State that the source updates in place is state here: classes for the bit streams, `words_data`, the two halves of the
WavPack stream, the range decoder, the filters and the predictor, the Musepack reader and the playback context, and
arrays for the sample, block and pass tables. The C structs in those tables are datatypes. Each method is proved
against functions, mostly of its own module or of the one named `...Spec` beside it, and the lemmas are about those
functions. 32-bit and 16-bit wrap-around is written out (`Machine`); signed overflow is taken as two's-complement wrap
and `>>` of a negative number as a floor.

## What the proofs found

- `bs_close_write` returns 0, not -1, when the buffer fills up while the last word is padded
  (`jni/wv/wputils.c:661-672`), as one bit in a buffer of two bytes does (`BitIO.FilledBufferReadsAsEmpty`);
  `pack_finish_block` then reports success for a block without a bitstream. The exact condition is in
  `BitIO.BitWriter.CloseWrite`, `BitIO.RoomExactly` and `Packing.Packer.FinishBlock`.
- Encoder passes lose samples in two ways. The product of weight and prediction is taken in 32 bits, the decoder's is
  not for large samples; 24-bit sound can overflow it (`DecorrInverse.WideSampleIsLost`). And the encoder keeps its
  weights in shorts, which they can outgrow; the decoder's have 32 bits during a call, and even 16-bit sound can lose
  a sample to that (`DecorrExact.WrappedWeightIsLost`). For predictions of up to 2^24, other than -2^16, a block
  survives a pass exactly if every product fits and no weight that has wrapped is used on a prediction other than
  zero: `DecorrExact.BlockSurvivesExactly`. `DecorrBounds.SmallBlocksArePackable` gives a check on sample size and
  block length under which nothing is lost; `DecorrBounds.DefaultModeIsSafe`, `FastModeIsSafe` and
  `WhereNothingIsSafe` say what 16-bit sound passes it.
- The decoder stores its weights into shorts between two calls, and within a call between the first eight samples and
  the rest. Two calls are one, and the two parts the plain pass, exactly if the weights are shorts there
  (`DecorrResume.StoringIsHarmlessExactly`, `DecorrResume.BlockIsPlainExactly`); otherwise the next nine samples can
  tell (`DecorrResume.LostWeightShows`), and `DecorrResume.StoredWeightIsLost` is a case.
- The promise above the logarithms of `words.c`, one part in 225, holds for all but the two in a thousand of the
  32-bit numbers whose logarithm is taken for that of 2^31, which comes back as -2^31: `LogAccuracy.NumberComesBack`.
- Raising a median by five quanta wraps, and so lowers it, exactly if the sum passes 2^32 (`WordAdapt.MovesExactly`);
  samples of up to 27 bits never bring it there (`WordAdapt.StaysModerate`).
- What a filter of Monkey's Audio remembers of an output has the opposite sign or is zero, so that it learns, except
  for an output of zero while three or four times the average wraps: `ApeFilterLearns.OppositeExactly`.
- The size of a bitstream is stored in 24 bits of 16-bit words: `Chunks.StreamSizeComesBack`.
- Blocks whose magnitude field is 31, as for four-byte samples, are muted, because the limit wraps below zero, unless
  every sample is -2^31, of which `labs` is negative too: `BlockSpec.WideBlocksAreMuted`.
- `range_decode_short` returns a signed `short`; or-ing two of them spoils exactly the quotients of 63 and more whose
  low half has its top bit set: `ApeEntropy.ToldExactly`, `ApeEntropy.SurvivesExactly`. A frame that begins with the
  24-bit sample -2^23 is decoded as if it were 2^23: `ApeEntropy.LargeSampleIsLost`.
- The symbol search of the range decoder stays inside its table exactly for frequencies below 65536, which corrupt
  data can exceed: `ApeEntropy.SearchFinds`, `ApeEntropy.SomeDataIsRefused`.
- A Musepack seek to a negative sample goes behind the last frame exactly if the unsigned quotient it wraps to is no
  smaller than the number of frames, as it is from one frame to 2^31 before the beginning; less than a frame before
  the beginning it goes to the first: `MpcSeek.NegativeSeek`.
- FLAC Rice parameters above 24 outrun the 32-bit cache; a number comes back exactly if the bits the cache lacks are
  zeros: `FlacGolomb.RiceComesBack`. A warm-up longer than the first partition makes the residuals run past the block
  unless the division leaves just that much over: `FlacResiduals.FillsExactly`.
- `decode_subframe_lpc` chooses 32-bit sums by the frame's sample size, but a side channel has one bit more. Ordinary
  channels always come back (`FlacLinear.SoundSurvives`); a side channel comes back exactly if no sum that is shifted
  leaves 32 bits (`FlacLinear.SideSurvivesExactly`), and `FlacLinear.SideIsLost` is one that does not.
- The source wonders whether its form of undoing mid/side is identical to the one it replaced: exactly if twice the
  samples fit 32 bits (`FlacStereo.FormsAgreeExactly`).
- `get_sample_info` adds up its runs in 32 bits: the run that covers a sample is found exactly if it ends below 2^32
  (`SampleTables.RunFoundExactly`).
- An ALAC block survives exactly if its samples, the first aside, fit the sample size:
  `AlacPredictor.SurvivesExactlyInRange`.
- `libmediacb_write` accepts a request as large as the buffer and then waits for ever:
  `AudioRing.WholeBufferNeverFits`.

## Model

| member | source | states |
|---|---|---|
| BitIO.QueueBits | jni/wv/wavpack.h:344-345 | `sr` with a value shifted in holds the queued bits followed by the value's |
| BitIO.DequeueByte | jni/wv/wavpack.h:346-350 | the byte shifted out is the first eight bits of the queue, and the queue goes on without them |
| BitIO.BitWriter.OpenWrite | jni/wv/wputils.c:641-647 | a stream on part of a buffer, nothing written, no error |
| BitIO.BitWriter.StoreByte | jni/wv/wputils.c:652-656 | a byte lands in its place; the one that fills the buffer raises the error flag and wraps the pointer |
| BitIO.BitWriter.ErrorMeansFull | jni/wv/wputils.c:652-656 | the error flag is up exactly when as many whole bytes were written as the buffer holds |
| BitIO.BitWriter.PutBit | jni/wv/wavpack.h:323-342 | appends one bit to everything written, in a valid stream; bytes outside the stream stay |
| BitIO.BitWriter.PutBits | jni/wv/wavpack.h:344-352 | appends the low bits of a value of up to 24 bits, first bit lowest |
| BitIO.BitWriter.CloseWrite | jni/wv/wputils.c:661-672 | pads with ones to 16-bit words and returns the byte count if it is below the room, and then the bytes are exactly the bits written; -1 on an earlier overflow; 0 when the padding does not fit |
| BitIO.RoomExactly | jni/wv/wputils.c:661-672 | the padded words fit behind one another exactly if there are at most 16 bits for every whole word below the room |
| BitIO.FilledBufferReadsAsEmpty | jni/wv/wputils.c:661-672 | one bit into a buffer of one word: closing the stream returns 0 |
| BitIO.BitReader.OpenFile | jni/wv/wputils.c:585-601 | a stream over what a callback delivers, at most the given number of bytes |
| BitIO.BitReader.OpenBuffer | jni/wv/wputils.c:585-601 | a stream over data already in the buffer |
| BitIO.BitReader.Refill | jni/wv/wputils.c:607-634 | pieces of any size keep the queue of unread bits; at the end the buffer is all ones and the error flag is up |
| BitIO.BitReader.GetBit | jni/wv/wavpack.h:297-304 | returns and removes the next bit of the data, ones past its end; less than 16 bits stay buffered, below 2^bc |
| BitIO.BitReader.GetBits | jni/wv/wavpack.h:306-321 | the low bits of the result are the next bits of the data, also when more than 32 are buffered on the way |
| BitIO.BitReader.Peek8 | jni/wv/words.c:381-389 | shows the next eight bits without taking them |
| BitIO.BitReader.Skip | jni/wv/words.c:391-393 | takes bits already shown |
| BitIO.LastByte | jni/wv/wavpack.h:313-316 | on the more-than-32-bit path the top of the last byte is exactly what a wider register would keep |
| WordSpec.OnesCount | jni/wv/words.c:557-587 | the ones count chosen is one whose zone holds the magnitude, for all medians |
| WordSpec.LastZone | jni/wv/words.c:581-583 | beyond the third median the division finds that zone and no 32-bit step wraps |
| WordSpec.CodeShape | jni/wv/words.c:608-620 | which remainders get the short code, and that the long one fits its bits |
| WordAdapt.MovesExactly | jni/wv/words.c:53-58 | a median rises by five quanta and falls by two, a quantum being a 128th, 64th or 32nd of it, if and only if the sum does not wrap |
| WordAdapt.TwoRaisesAreFiveFalls | jni/wv/words.c:48-51 | two raises are as much as five falls, or ten more just above a whole quantum |
| WordAdapt.EncoderFollows | jni/wv/words.c:557-587 | every sample moves the medians by its magnitude: the first falls if the magnitude is not above it and rises otherwise, what is beyond it meets the second, and so on; the other channel stays |
| WordAdapt.DecoderFollows | jni/wv/words.c:442-469 | the decoder's medians follow the magnitude it reads in the same way, from any data |
| WordAdapt.StaysModerate | jni/wv/words.c:53-58 | samples of up to 27 bits keep the medians where nothing wraps |
| WordAdapt.SilenceIsQuiet | jni/wv/words.c:526-552 | enough samples of magnitude zero make a mono stream quiet, so that runs of zeros are counted |
| WordsCoder.CountBitsIsLength | jni/wv/words.c:60-67 | the four table look-ups of count_bits give the bit length of any 32-bit value |
| WordsCoder.UnaryByte | jni/wv/words.c:379-425 | the table look-up on the next eight bits counts ones like one getbit after the other |
| WordsCoder.WordsData.PutGamma | jni/wv/words.c:639-650 | sends a count as its length in unary and its lower bits |
| WordsCoder.WordsData.FlushWord | jni/wv/words.c:634-696 | sends the zero run, the waiting ones count and the pending bits, and clears them |
| WordsCoder.WordsData.PendBody | jni/wv/words.c:607-623 | queues the truncated-binary remainder and the sign |
| WordsCoder.WordsData.ChooseZone | jni/wv/words.c:557-587 | finds the zone of a magnitude and the medians after it |
| WordsCoder.WordsData.PutWord | jni/wv/words.c:554-626 | one sample past the zero-run test, against the state machine |
| WordsCoder.WordsData.SendOne | jni/wv/words.c:526-628 | one turn of the loop, zero runs included |
| WordsCoder.WordsData.SendWords | jni/wv/words.c:518-628 | new state and bits appended for a whole buffer; the block outside the stream is untouched |
| WordsCoder.WordsData.ReadGamma | jni/wv/words.c:351-364 | reads a length-prefixed count, or the end after 33 ones |
| WordsCoder.WordsData.ReadOnes | jni/wv/words.c:379-421 | reads a ones count with its 16-ones escape, or the end after 17 |
| WordsCoder.WordsData.ReadCode | jni/wv/words.c:497-516 | reads a truncated-binary remainder |
| WordsCoder.WordsData.FindZone | jni/wv/words.c:442-469 | the zone of a ones count and the medians after it |
| WordsCoder.WordsData.ReadWord | jni/wv/words.c:376-482 | one sample past the zero-run test, or the end of the data |
| WordsCoder.WordsData.GetOne | jni/wv/words.c:338-486 | one turn of the loop, zero runs included |
| WordsCoder.WordsData.GetWords | jni/wv/words.c:324-489 | fills the buffer with the words the data holds, leaves the rest of it alone and returns how many (stereo) samples it got |
| WordsRoundTrip.GammaReadsBack | jni/wv/words.c:639-650 | every 32-bit count comes back from its bits, whatever follows |
| WordsRoundTrip.OnesReadBack | jni/wv/words.c:655-683 | every ones count comes back, escape included |
| WordsRoundTrip.CodeReadsBack | jni/wv/words.c:497-516 | every remainder of every zone width comes back |
| WordsRoundTrip.BodyReadsBack | jni/wv/words.c:442-482 | remainder and sign give the sample back once its ones count is known |
| WordsRoundTrip.SendStepReachable | jni/wv/words.c:526-628 | between two samples the encoder is idle, holds one word, or is in a run of zeros |
| WordsRoundTrip.DecodeIdle | jni/wv/words.c:324-489 | from an idle encoder: the decoder gets back all the samples still to be sent and ends with its medians |
| WordsRoundTrip.DecodeHeld | jni/wv/words.c:589-626 | from an encoder holding a word: the decoder, whose flags differ, gets it and all that follow |
| WordsRoundTrip.DecodeRun | jni/wv/words.c:534-552 | a run of zeros of any length and the sample that ends it come back |
| WordsRoundTrip.SendSplit | jni/wv/words.c:518-628 | sending in two calls is sending at once |
| WordsRoundTrip.GetSplit | jni/wv/words.c:324-489 | reading in two calls is reading at once |
| WordsRoundTrip.GetEnds | jni/wv/words.c:353-407 | once the data has ended, asking for more changes nothing |
| WordsRoundTrip.WordsComeBack | jni/wv/words.c:518-696 | for all samples, mono or stereo, all shared medians and any data behind: what was sent and flushed is read back exactly, to the last bit, and both sides have the same medians |
| DecorrInverse.SplitProduct | jni/wv/wavpack.h:371-372 | over the integers the two-step product of apply_weight_f is the one-step one |
| DecorrInverse.ApplyIsExact | jni/wv/wavpack.h:366-376 | both forms of apply_weight are exact wherever the encoder's product fits 32 bits |
| DecorrAdapt.ApplyRounds | jni/wv/wavpack.h:366-376 | both forms of apply_weight give the integer nearest to weight times sample over 1024, where the product fits |
| DecorrAdapt.DelayPredicts | jni/wv/unpack.c:464-468 | a term up to 8 predicts from the sample that many before |
| DecorrAdapt.LinePredicts | jni/wv/unpack.c:453-462 | terms 17 and 18 continue a straight line, by a whole step and by half of one |
| DecorrAdapt.MoveHelps | jni/wv/wavpack.h:382-389 | a weight moves by delta, unless source or residual is zero, and so that the same source weighs delta times its size more in the direction of the residual |
| DecorrAdapt.BoundedMoveHelps | jni/wv/wavpack.h:392-394 | a clipped weight moves the same way, if less far, and stands still for silence or at its bound only |
| DecorrAdapt.DecFrameLearns | jni/wv/unpack.c:445-537 | every term of the decoder moves its weights so, by the sources it predicts from and the residuals it reads |
| DecorrAdapt.EncFrameLearns | jni/wv/pack.c:353-405 | every term of the encoder does, by 2 at a time and into shorts |
| DecorrAdapt.CrossRemembers | jni/wv/unpack.c:500-537 | a cross term remembers the other channel's sample that the next frame is predicted from |
| DecorrAdapt.DecFrameAdds | jni/wv/unpack.c:445-537 | a sample is its residual and what its source predicts, every term |
| DecorrAdapt.WeightIsScore | jni/wv/pack.c:353-370 | over a whole pass a weight is where it began and 2 for every agreement of source and residual less 2 for every disagreement |
| DecorrInverse.ChanInverts | jni/wv/unpack.c:445-485 | one channel: the decoder undoes the encoder and ends with the same weight and history |
| DecorrInverse.CrossInverts | jni/wv/pack.c:392-405 | the same for term -2, whose channels depend on each other |
| DecorrInverse.BlockPassInverts | jni/wv/unpack.c:364-380 | a decoder pass, in either of its two forms, undoes an encoder pass over a whole block |
| DecorrInverse.AllPassesInvert | jni/wv/unpack.c:318-402 | all decoder passes in mirrored order undo all encoder passes, and the two sides still mirror each other |
| DecorrInverse.BySampleIsByPass | jni/wv/pack.c:290-319 | packing sample by sample through all passes is packing pass by pass |
| DecorrInverse.JointInverts | jni/wv/unpack.c:384 | the joint-stereo inverse undoes difference and half-sum for all 32-bit samples |
| DecorrInverse.CrcsAgree | jni/wv/pack.c:324-331 | the checksums of encoder and decoder are the same number |
| DecorrInverse.SurvivesExactlyWhenExact | jni/wv/pack.c:313-314 | one sample of one channel, with a weight of up to 1024 and a prediction of up to 2^29: it survives if and only if the encoder's product fits 32 bits |
| DecorrInverse.OverflowShows | jni/wv/wavpack.h:366 | a wrapped product differs from the exact one in a way 32 bits can tell |
| DecorrInverse.WideSampleIsLost | jni/wv/pack.c:359-362 | a 24-bit sample that does not survive |
| DecorrExact.KeptTells | jni/wv/wavpack.h:366-376 | with any short for a weight and a prediction of up to 2^24 other than -2^16, both sides predict the same if and only if the encoder's product fits |
| DecorrExact.LostTells | jni/wv/wavpack.h:222 | a weight just outside the shorts predicts what its wrapped value predicts for a prediction of zero only |
| DecorrExact.CrossTells | jni/wv/pack.c:392-405 | a frame of term -2 survives if and only if both products fit; its weights are clipped and never wrap |
| DecorrExact.BlockSurvivesExactly | jni/wv/pack.c:353-425 | a whole block, any encoder term, one channel or two: a decoder pass gives it back if and only if every product fits 32 bits and no weight that has wrapped in its short is used on a prediction other than zero; for predictions of up to 2^24 other than -2^16 |
| DecorrExact.WrappedWeightIsLost | jni/wv/pack.c:359-361 | a sample of 16-bit sound lost to a weight that outgrows its short, although every product fits |
| DecorrBounds.ChanStaysCalm | jni/wv/pack.c:353-370 | with samples and weights up to bounds, one step fits, and how large its results can be |
| DecorrBounds.AllStayCalm | jni/wv/pack.c:333-342 | bounds that hold through all passes of a block keep every product within 32 bits |
| DecorrBounds.SmallBlocksArePackable | jni/wv/pack.c:272-351 | a check a caller can make before packing: small enough samples in a short enough block lose nothing; how large is too large depends on the terms and on joint stereo |
| DecorrBounds.DefaultModeIsSafe | jni/wv/pack.c:30 | 16-bit sound in default mode passes the check for 135 samples with any stored weights and separate channels, and for 494, joint or not, from weights of zero |
| DecorrBounds.FastModeIsSafe | jni/wv/pack.c:32 | in fast mode 16-bit sound passes it for 371 samples and 8-bit sound for 13,000, joint or not and with any weights |
| DecorrBounds.WhereNothingIsSafe | jni/wv/pack.c:30-31 | with weights that can be full no 16-bit block passes the check in high mode, nor in joint stereo in default mode |
| DecorrResume.EncAllSplit | jni/wv/pack.c:333-342 | filtering a block in two calls of the encoder is filtering it in one |
| DecorrResume.RoomEndsShort | jni/wv/unpack.c:539-540 | a bound to check beforehand: while the weights have room for the frames to come, storing them back into shorts loses nothing |
| DecorrResume.BlockIsPlain | jni/wv/unpack.c:364-380 | eight samples and the continuation are the plain pass, for every term and delta and any length, if the weights are shorts after the eight |
| DecorrResume.BlockIsPlainExactly | jni/wv/unpack.c:364-380 | they are the plain pass whatever the continuation if and only if the weights are shorts after the eight |
| DecorrResume.StoringIsHarmlessExactly | jni/wv/unpack.c:539-540 | a pass over a and a pass over b are one pass over both, for every b, if and only if the weights are shorts after a |
| DecorrResume.LostWeightShows | jni/wv/unpack.c:539-540 | a weight that is not a short when it is stored is missed within nine samples, for every term |
| DecorrResume.StoredWeightIsLost | jni/wv/unpack.c:539-540 | a weight of 32767 grown by 2 and stored between two calls: the sample after it comes back with the other sign |
| DecorrResume.DecAllSplit | jni/wv/unpack.c:345-380 | decoding a block in two calls is decoding it in one, as long as no pass stores a weight that is not a short |
| DecorrResume.AllRoomCallsShort | jni/wv/unpack.c:345-380 | none does while every weight has room for the first call and eight samples more |
| DecorrPasses.HistStep | jni/wv/unpack.c:470-485 | writing a slot and stepping the index remembers one more sample, for every delay |
| DecorrPasses.HistRotate | jni/wv/unpack.c:487-499 | putting the slots in order changes no later prediction |
| DecorrPasses.ChannelStep | jni/wv/unpack.c:439-485 | one channel of one turn of a decoder loop, slots included |
| DecorrPasses.StereoStep | jni/wv/unpack.c:436-537 | one turn of the loops, all ten kinds of term |
| DecorrPasses.DecorrStereoPass | jni/wv/unpack.c:429-542 | the whole pass in place: samples, weights and every slot it leaves behind |
| DecorrCont.HistoryShifts | jni/wv/unpack.c:546-641 | the history after a pass is the tail of what came out |
| DecorrCont.EightEcho | jni/wv/unpack.c:364-380 | after eight samples every history a term can read is in the samples before |
| DecorrCont.ContStep | jni/wv/unpack.c:546-641 | one turn of the continuation loops, which read back into the buffer |
| DecorrCont.HarvestHistory | jni/wv/unpack.c:567-632 | the history slots read back from the buffer are the ones the plain pass would leave |
| DecorrCont.DecorrStereoPassCont | jni/wv/unpack.c:546-641 | the continuation does what the plain pass does: samples, weights and every slot |
| DecorrCont.DecorrStereoBlock | jni/wv/unpack.c:364-380 | the choice between the two forms, in place on the buffer |
| DecorrEncode.EncodeStep | jni/wv/pack.c:353-370 | storing the sample before reading the prediction is sound, because the slots differ |
| DecorrEncode.EncodeStereoPass | jni/wv/pack.c:333-425 | an encoder pass from any circular position, in place |
| DecorrEncode.DecorrMonoPass | jni/wv/unpack.c:645-698 | the mono pass in place |
| Metadata.MyLog2 | jni/wv/words.c:713-731 | never more than 8447, so a logarithm fits 16 signed bits |
| LogAccuracy.TablesUndo | jni/wv/words.c:89-126 | the two tables of the logarithm undo each other to within one, and below an even entry only twice |
| LogAccuracy.NumberComesBack | jni/wv/words.c:705-764 | a number stored as its logarithm comes back within one part in 225, or off by one for 115 and 195, unless it is one of the two in a thousand that come back as -2^31 |
| LogAccuracy.ByteStandsFor | jni/wv/words.c:779-787 | a stored byte stands for eight times itself, and for 129 128ths of that, to the nearest integer, if it is positive |
| LogAccuracy.WeightComesBack | jni/wv/words.c:766-787 | a weight comes back within five, clipped to 1024; none and the largest exactly |
| Metadata.WeightSettles | jni/wv/words.c:766-787 | a weight that has been stored once is stored and restored unchanged |
| Metadata.TermComesBack | jni/wv/pack.c:85 | term and delta come back from their byte |
| Metadata.WordComesBack | jni/wv/unpack.c:179-180 | a 16-bit value comes back from its two bytes |
| Metadata.ReadDecorrTerms | jni/wv/unpack.c:97-118 | accepts exactly the valid term lists and sets the passes in opposite order |
| Metadata.WriteDecorrWeights | jni/wv/pack.c:95-112 | writes the weights and goes on with what the decoder will read |
| Metadata.ReadDecorrWeights | jni/wv/unpack.c:125-148 | reads them from the last pass backwards, zero where there are none |
| Metadata.WriteDecorrSamples | jni/wv/pack.c:125-187 | writes the first pass's history, goes on with its coarse values, and silences the others |
| Metadata.ReadDecorrSamples | jni/wv/unpack.c:158-211 | reads histories from the last pass backwards and insists on using every byte |
| Metadata.WriteEntropyVars | jni/wv/words.c:177-203 | the encoder goes on with the medians the decoder will read |
| Metadata.ReadEntropyVars | jni/wv/words.c:151-170 | accepts the exact length only |
| Chunks.CopyMetadata | jni/wv/metadata.c:124-160 | appends a chunk exactly when it fits, and otherwise changes nothing |
| Chunks.ChunkComesBack | jni/wv/metadata.c:17-71 | any chunk of less than 2^25 bytes is parsed back, its data if it fits the read buffer, whatever follows |
| Chunks.StreamSizeComesBack | jni/wv/pack.c:459-462 | the size bytes give the stream's length back if and only if it is below 2^25 |
| Chunks.SamplesReadShape | jni/wv/unpack.c:158-211 | reading histories leaves terms, deltas and weights alone |
| Chunks.ScanOptional | jni/wv/metadata.c:119-120 | optional chunks of any size are passed over |
| Sync.LogByteAt | jni/wv/pack.c:136-171 | a stored sample is read back as the coarse value the encoder goes on with |
| Sync.RebuiltMirrors | jni/wv/pack.c:75-187 | the decoder's passes are the encoder's in opposite order, agreeing on term, delta, weights and every slot a later step can read |
| Sync.StateScans | jni/wv/unpack.c:33-71 | scanning a block's four state chunks leaves the decoder with exactly those passes and medians |
| BlockSpec.WideBlocksAreMuted | jni/wv/unpack.c:322 | the limit is 2^mag + 2 up to a magnitude of 30; for 31 every block is muted but one whose samples are all -2^31, with `long` of 32 bits |
| BlockSpec.PackSplit | jni/wv/pack.c:272-351 | two calls of pack_samples are one: filters, entropy state, checksum and bits |
| BlockSpec.UnpackSplit | jni/wv/unpack.c:318-427 | two calls of unpack_samples are one as long as no weight is stored that is not a short: muted by both or neither, and unmuted the samples and all state are the same |
| BlockSpec.RoomStoresShort | jni/wv/unpack.c:539-540 | none is while every weight has room for the first call and eight samples more |
| BlockRoundTrip.FitsAllSplit | jni/wv/pack.c:272-351 | an encoder that stays exact over a block does over each part of it |
| BlockRoundTrip.CallComesBack | jni/wv/unpack.c:318-427 | one call gets the next frames, is muted exactly when one is over the limit, and leaves the rest next |
| BlockRoundTrip.RunComesBack | jni/wv/unpack.c:318-427 | any cutting of the caller's requests gets all the frames and the encoder's checksum |
| BlockRoundTrip.PackRunIsOne | jni/wv/pack.c:272-351 | any cutting of the caller's samples makes the same block |
| BlockRoundTrip.NothingInNothing | jni/wv/words.c:351-398 | an empty stream delivers nothing, so frames always need a stream |
| BlockRoundTrip.StreamCarries | jni/wv/pack.c:218-265 | after the metadata the decoder is ready for exactly the frames that were packed |
| BlockRoundTrip.BlockScans | jni/wv/unpack.c:33-71 | scanning a block with wrapper and configuration chunks ends in front of its bitstream |
| BlockRoundTrip.BlockComesBack | jni/wv/pack.c:218-470 | the whole way round: for all passes, medians, frames, call sizes and surrounding bytes, the frames and the checksum come back, and the block is muted if and only if a sample is over the limit |
| Packing.SetUpRuns | jni/wv/pack.c:39-68 | every term list the encoder can set up is one it has loops for |
| Packing.Packer.constructor | jni/wv/pack.c:39-68 | the passes of the chosen mode, all else cleared |
| Packing.PackMono | jni/wv/pack.c:290-319 | the mono loop, sample by sample, in place on buffer and passes |
| Packing.JoinStereo | jni/wv/pack.c:324-331 | joint stereo and checksum in place |
| Packing.EncodeStereo | jni/wv/pack.c:333-342 | all stereo passes in place |
| Packing.MonoKeepsSecond | jni/wv/words.c:518-552 | a mono stream never changes the second channel's medians |
| Packing.Packer.StartBlock | jni/wv/pack.c:218-265 | the chunks written, the state the encoder goes on with, and an empty bitstream behind them |
| Packing.Packer.PackSamples | jni/wv/pack.c:272-351 | state and bits as the specification has them; the rest of the block is untouched |
| Packing.Packer.RotateHistories | jni/wv/pack.c:434-450 | the circular histories in order again, for every pass |
| Packing.Packer.FinishBlock | jni/wv/pack.c:427-470 | exactly when it reports failure, when it writes a bitstream and which, and when it silently writes none |
| Unpacking.StoredLoads | jni/wv/unpack.c:429-542 | what a pass stores is what the next call loads |
| Unpacking.RunPasses | jni/wv/unpack.c:345-380 | all decoder passes in place |
| Unpacking.JudgeMono | jni/wv/unpack.c:348-355 | stops at the first sample over the limit, with the checksum up to there |
| Unpacking.JudgeStereo | jni/wv/unpack.c:382-401 | the same in stereo, undoing joint stereo on the way |
| Unpacking.Unpacker.ProcessMetadata | jni/wv/metadata.c:73-122 | one chunk into the pass table or the medians, or refused |
| Unpacking.Unpacker.UnpackInit | jni/wv/unpack.c:33-71 | succeeds exactly when the scan reaches a bitstream, and is then ready to unpack it |
| Unpacking.Unpacker.UnpackSamples | jni/wv/unpack.c:318-427 | clamps to the block, then samples and all state as the specification has them; silence once muted |
| EndToEnd.Pack | jni/wv/wputils.c:492-530 | the three encoder calls leave a complete block in the buffer |
| EndToEnd.RoundTrip | jni/wv/wputils.c:170-244 | encoder methods, then decoder methods on the bytes: samples and checksum are back, unless a sample is over the mute limit |
| HeaderSearch.TestHeader | jni/wv/wputils.c:351-358 | the test, and how far a partial match moves on: never past a `w` |
| HeaderSearch.ReadNextHeader | jni/wv/wputils.c:335-369 | finds the earliest header within the first megabyte, having read exactly that many bytes and 32; fails only if there is none |
| AudioRing.AcceptAppends | jni/std_audio.cpp:279-290 | an accepted write appends its bytes to what is buffered, around the end of the buffer or not |
| AudioRing.DeliverTakes | jni/std_audio.cpp:335-347 | the callback takes bytes off the front |
| AudioRing.EqualMeansEmpty | jni/std_audio.cpp:235-238 | the indices are equal exactly when the buffer is empty; it is never full |
| AudioRing.StepFaithful | jni/std_audio.cpp:219-349 | every step of either thread keeps: delivered, then buffered, is accepted |
| AudioRing.StepProgresses | jni/std_audio.cpp:219-349 | a write goes through whenever it leaves a byte free, the callback gets all it asks for or all there is, and a stop only stops |
| AudioRing.EveryRun | jni/std_audio.cpp:219-349 | so does every interleaving; once stopped, what was delivered is the beginning of what was accepted |
| AudioRing.ReadyExactly | jni/std_audio.cpp:269-270 | a write goes through exactly when it leaves a byte free |
| AudioRing.WholeBufferNeverFits | jni/std_audio.cpp:266-274 | a write as large as the buffer never does, though it passes the size check; any smaller one does once the buffer is empty |
| AudioRing.Context.GetFreeBytes | jni/std_audio.cpp:236-238 | the free room |
| AudioRing.Context.Write | jni/std_audio.cpp:260-298 | refused, waiting or written, exactly when, and the ring after it |
| AudioRing.Context.Callback | jni/std_audio.cpp:305-349 | what the audio track gets, the size it is told, and the ring after it |
| AudioRing.Context.Stop | jni/std_audio.cpp:219-232 | the ring is marked stopped and nothing else changes |
| ApeRange.PartWidth | jni/ape/entropy.c:186-208 | every slice of an interval is nonempty and inside it, and the divisor is at least 128 |
| ApeRange.NormalizeFollows | jni/ape/entropy.c:172-180 | normalizing keeps the registers at the code value's offset in, and the width of, the interval |
| ApeRange.UpdateFollows | jni/ape/entropy.c:204-208 | so does an update |
| ApeRange.FrequencyTells | jni/ape/entropy.c:186-198 | the frequency falls into a slice if and only if the code value is in that slice's part of the interval |
| ApeRange.PartsApart | jni/ape/entropy.c:204-208 | different slices get disjoint parts |
| ApeRange.DecodesEachSlice | jni/ape/entropy.c:172-208 | a code value inside the interval of any sequence of slices: every frequency the decoder computes is in the next slice, with low < range <= 2^31 and a nonzero divisor throughout |
| ApeRange.CodeOf | jni/ape/entropy.c:164-200 | bytes for every sequence of slices: no interval is without a code value |
| ApeEntropy.SearchFinds | jni/ape/entropy.c:243-269 | the linear search stops inside the table if and only if the frequency is below 65536, at the one symbol that holds it |
| ApeEntropy.CountsRise | jni/ape/entropy.c:39-92 | the second table of each format holds the differences of the first, which rises from zero to 65536 |
| ApeEntropy.SixteenHighBits | jni/ape/entropy.c:317-326 | the high part of a large pivot has just sixteen bits |
| ApeRice.DecodedAdapts | jni/ape/entropy.c:282-284 | every value decoded adds its half to the sum, and a thirty-second of the sum, to the nearest, leaves it |
| ApeRice.SumApproaches | jni/ape/entropy.c:284 | a value keeps the sum where a thirty-second of it is the value's half; from anywhere else the sum comes nearer and never passes |
| ApeRice.PivotSettles | jni/ape/entropy.c:302-304 | so a value that keeps coming settles the pivot at its half, or one below |
| ApeRice.ParameterFollows | jni/ape/entropy.c:286-295 | k is one nearer to having the sum between 2^(k+4) and 2^(k+5), or stays if it has |
| ApeEntropy.SymbolSound | jni/ape/entropy.c:243-255 | for any data, a decoded symbol keeps low < range <= 2^31 |
| ApeEntropy.SymbolComesBack | jni/ape/entropy.c:243-269 | any symbol of either table comes back |
| ApeEntropy.BaseArrives | jni/ape/entropy.c:313-337 | the remainder comes back, in one draw or in two for large pivots |
| ApeEntropy.ToldExactly | jni/ape/entropy.c:308-311 | the escaped quotient is decoded right if and only if the low half's top bit is clear |
| ApeEntropy.ValueArrives | jni/ape/entropy.c:298-347 | what the decoder makes of any value coded, and the model after it |
| ApeEntropy.SurvivesExactly | jni/ape/entropy.c:298-347 | a value comes back if and only if its quotient does |
| ApeEntropy.FoldingIsABijection | jni/ape/entropy.c:342-346 | folding the sign into the low bit and back |
| ApeEntropy.RunComesBack | jni/ape/entropy.c:422-463 | any code value in the interval of a run of samples, mono or stereo, decodes to exactly those samples |
| ApeEntropy.ChannelsTakeTurns | jni/ape/entropy.c:440-452 | stereo samples come in turns from the two models, first the one then the other, mono samples from the first alone |
| ApeEntropy.EveryRunCanBeCoded | jni/ape/entropy.c:298-346 | for every run of codable samples there are bytes that decode to it |
| ApeEntropy.LargeSampleIsLost | jni/ape/entropy.c:306-311 | a first sample of -2^23 has the quotient 0x8000 and is decoded as 2^23 |
| ApeEntropy.LostExactly | jni/ape/entropy.c:243-255 | the search leaves the table if and only if the offset is in what the division by 65536 leaves over |
| ApeEntropy.SomeDataIsRefused | jni/ape/entropy.c:243-255 | bytes that decode to one sample and then leave the table |
| ApeDecoder.Decoder.ReadByte | jni/ape/entropy.c:125-142 | the next byte in word order |
| ApeDecoder.Decoder.constructor | jni/ape/entropy.c:165-170 | the registers at the start of the data |
| ApeDecoder.Decoder.Normalize | jni/ape/entropy.c:172-180 | the 32-bit shifts are the digits of the code value |
| ApeDecoder.Decoder.DecodeCulfreq | jni/ape/entropy.c:186-198 | the frequency, with a nonzero divisor for any data |
| ApeDecoder.Decoder.GetSymbol | jni/ape/entropy.c:243-269 | the symbol, or that the source would read past its table |
| ApeDecoder.Decoder.EntropyDecode3980 | jni/ape/entropy.c:298-347 | one sample and the adapted model |
| ApeDecoder.Decoder.EntropyDecode | jni/ape/entropy.c:422-463 | the loop over a frame |
| ApeDecoder.DecodeFrame | jni/ape/entropy.c:385-463 | a frame whose code value is in the interval of its samples decodes to them |
| ApeDecoder.EveryFrameHasData | jni/ape/entropy.c:380-409 | for every frame of codable samples there is input, in the file's byte order, that decodes to it |
| ApeFilter.FilterSplit | jni/ape/filter.c:108-166 | filtering in chunks is filtering at once |
| ApeFilter.FilterInverts | jni/ape/filter.c:118-131 | every sequence of 32-bit outputs is the output for some data, overflow or not |
| ApeFilter.FilterIsInjective | jni/ape/filter.c:118-131 | and for no other data |
| ApeFilterLearns.PredictRounds | jni/ape/filter.c:95-98 | a prediction is the coefficients' product with the outputs, to the nearest integer |
| ApeFilterLearns.OppositeExactly | jni/ape/filter.c:139-148 | what is remembered of an output is zero or has the opposite sign, except for a zero output when three or four times the average wraps |
| ApeFilterLearns.FilterKeepsOpposed | jni/ape/filter.c:117-157 | in every run, nothing remembered has the sign of its output |
| ApeFilterLearns.StepLearns | jni/ape/filter.c:122-127 | after positive data the new coefficients weigh the outputs just used higher, after negative data lower, by the same gain, which is zero if and only if nothing is remembered of them |
| ApeFilterLearns.StepRemembers | jni/ape/filter.c:139-148 | how much is remembered of an output: 32, 16 or 8 by how it stands to the average, 4 in early files |
| ApeFilterLearns.StepAverages | jni/ape/filter.c:150 | the average goes a sixteenth of the way to the output's size |
| ApeFilterLearns.ValuesFade | jni/ape/filter.c:152-154 | over any run: what is remembered is halved after one, two and eight steps, in early files after four and eight |
| ApeFilter.SlidingFilter.constructor | jni/ape/filter.c:218-232 | all histories zero |
| ApeFilter.SlidingFilter.Apply | jni/ape/filter.c:108-214 | both versions of the filter, in place: outputs and coefficients are those of a filter that keeps its histories apart and for ever |
| ApeFilter.SlidingFilter.ScalarProduct | jni/ape/vector_math_generic.h:115-160 | the unrolled product is the exact one modulo 2^32 |
| ApeFilter.SlidingFilter.VectorLoop | jni/ape/vector_math_generic.h:27-113 | the unrolled sum or difference of coefficients and adaption values, each in 16 bits; nothing else changes |
| ApeFilter.SlideOn | jni/ape/filter.c:130-157 | one step: the new output and adaption value are in the windows, although the latter lies over the oldest output |
| ApeFilter.SlidingFilter.MoveBack | jni/ape/filter.c:159-164 | moving the histories back to the start of the array changes neither |
| ApePredictor.ResidualIsTheData | jni/ape/predictor.c:111-112 | a channel puts out a given value for exactly one datum |
| ApePredictor.DecodeInverts | jni/ape/predictor.c:71-211 | every sequence of stereo outputs is the output for some data |
| ApePredictor.DecodeSplit | jni/ape/predictor.c:71-211 | decoding in chunks is decoding at once |
| ApePredictorLearns.NextLearns | jni/ape/predictor.c:136-165 | every datum moves both sums of a channel by the whole size of their histories, up if it is positive and down if it is negative |
| ApePredictorLearns.NextMonoLearns | jni/ape/predictor.c:237-260 | so it does in mono |
| ApePredictorLearns.NextPredicts | jni/ape/predictor.c:85-109 | a value is its datum and the sums over 1024, the other channel's counting half |
| ApePredictorLearns.LeakLoses | jni/ape/predictor.c:109 | a thirty-second, rounded up, leaks away |
| ApePredictorLearns.FirstRun | jni/ape/predictor.c:35-37 | the first three values of a fresh predictor |
| ApePredictor.SignsPush | jni/ape/predictor.c:81-85 | the signs kept in the array are the signs of the history next to them |
| ApePredictor.Predictor.constructor | jni/ape/predictor.c:49-68 | initial coefficients, all histories zero |
| ApePredictor.Predictor.DecodeStereo | jni/ape/predictor.c:71-211 | in place: outputs and registers of two channels that keep their histories apart, with eight histories in one sliding window |
| ApePredictor.Predictor.DecodeMonoSamples | jni/ape/predictor.c:213-269 | the same for mono |
| MpcBits.PreviewShows | jni/mpc/mpc_decoder.c:189-191 | up to the longest codeword the preview is the bits to come, across words |
| MpcBits.LookupFinds | jni/mpc/mpc_decoder.c:193 | the search ends at the one entry whose interval holds the preview |
| MpcBits.OnlyOneFits | jni/mpc/mpc_decoder.c:193 | at most one codeword of a table fits the bits to come |
| MpcTables.TablesOf7Tile | jni/mpc/huffsv7.c:42-76 | each table covers the 32-bit numbers from the top down with aligned intervals of size 2^(32 - length), and no codeword is longer than the decoder looks |
| MpcTables.TablesOf46Tile | jni/mpc/huffsv46.c:45-69 | the same for the older tables |
| MpcSymbols.SymbolsOf7 | jni/mpc/huffsv7.c:42-76 | each table is for the numbers of one range, every one of which has exactly one codeword |
| MpcSymbols.SymbolsOf46 | jni/mpc/huffsv46.c:45-69 | the same for the older tables |
| MpcReader.Reader.Seek | jni/mpc/mpc_decoder.c:106-113 | the ring full from the word of that bit on |
| MpcReader.Reader.BitstreamRead | jni/mpc/mpc_decoder.c:161-178 | the next bits of the ring, and on by as many; a ring in step with the file stays so |
| MpcReader.Reader.BitstreamJump | jni/mpc/mpc_decoder.c:116-126 | on by any number of bits |
| MpcReader.Reader.HuffmanDecode | jni/mpc/mpc_decoder.c:185-203 | ends at an entry whose codeword is next in the ring, and goes on by exactly its length |
| MpcReader.Reader.AheadIsFile | jni/mpc/mpc_decoder.c:106-134 | what is next in the ring is what the file holds there |
| MpcReader.Reader.ReadTokens | jni/mpc/mpc_decoder.c:161-203 | any mixture of fixed-width numbers and codewords of any tables comes back, across words and halves of the ring |
| MpcReader.Refilled | jni/mpc/mpc_decoder.c:128-134 | refilling the half that was left keeps every word still to be read |
| MpcReader.Reader.UpdateBuffer | jni/mpc/mpc_decoder.c:128-134 | after a frame of at most half the ring, the ring holds more than half of the words to come again |
| MpcSeek.NoteKeeps | jni/mpc/mpc_decoder.c:303-308 | noting a frame keeps every entry of the table a true start, and the next mark is never missed |
| MpcSeek.PassKeeps | jni/mpc/mpc_decoder.c:1249-1264 | passing a frame by its jump info leads to the next true start |
| MpcSeek.RewindKeeps | jni/mpc/mpc_decoder.c:1226-1235 | the jump back goes to a true start not behind the frame sought |
| MpcSeek.EverySeekLands | jni/mpc/mpc_decoder.c:1208-1271 | after any run of playing and seeking, for every dest: a seek ends at the frame the 32-bit quotient names, or behind the last, at its true bit position, and every entry up to the last noted is a true start |
| MpcSeek.FrameOfSample | jni/mpc/mpc_decoder.c:1213-1220 | the frame sought is dest/1152 for every dest whose frame is a 32-bit number |
| MpcSeek.NegativeSeek | jni/mpc/mpc_decoder.c:1213-1220 | dest below 0: where the seek ends for every one of them; behind the last frame if and only if the wrapped quotient is no smaller than the number of frames, at frame 0 for less than a frame back |
| MpcPlayer.FindPower | jni/mpc/mpc_decoder.c:1187-1189 | the smallest distance of marks with which the table spans all frames |
| MpcPlayer.Player.constructor | jni/mpc/mpc_decoder.c:1180-1194 | ready at the first frame |
| MpcPlayer.Player.SkipFrame | jni/mpc/mpc_decoder.c:1238-1268 | one turn of the loop of a seek, the ring ready again |
| MpcPlayer.Player.SeekSample | jni/mpc/mpc_decoder.c:1208-1271 | position, table and frame as the specification has them |
| MpcPlayer.Player.Decode | jni/mpc/mpc_decoder.c:293-336 | one frame played, its jump info found right, and the cursor after it |
| AlacPredictor.UnrolledOne | jni/alac/alac_decoder.c:442-455 | a turn of the unrolled adaption, which tests for zero and negates, is one of the general adaption, which multiplies with the sign |
| AlacPredictor.Sum8 | jni/alac/alac_decoder.c:495-502 | the sum written out is the general one |
| AlacPredictor.AdaptUnrolled | jni/alac/alac_decoder.c:438-477 | coefficients after an error, as the general loop adapts them |
| AlacPredictor.AdaptGeneral | jni/alac/alac_decoder.c:579-617 | the coefficients after an error |
| AlacPredictor.SamplesComeBack | jni/alac/alac_decoder.c:358-623 | samples in range come back from the matching encoder |
| AlacPredictor.SurvivesExactlyInRange | jni/alac/alac_decoder.c:344 | a block survives if and only if its samples, the first aside, fit the sample size |
| AlacLearns.PredictionRounds | jni/alac/alac_decoder.c:424-433 | a sample is predicted from the oldest in view and the weighted differences to it over 2^q, to the nearest integer |
| AlacLearns.OneLearns | jni/alac/alac_decoder.c:589-599 | a coefficient moves so that the weighted sum goes on by the size of its difference in the direction of the error, which is less by its share |
| AlacLearns.SampleLearns | jni/alac/alac_decoder.c:583-617 | after a positive error the coefficients weigh the samples just used higher, after a negative one lower, as many of them as the error reaches |
| AlacPredictor.DecompressFirAdapt | jni/alac/alac_decoder.c:358-623 | warm-up and all three loops, errors and samples in one buffer or two: outputs and coefficients as specified, everything else untouched |
| SampleTables.RunCounts | jni/alac/m4a.c:187-200 | within a run every chunk adds its number of samples |
| SampleTables.FindChunk | jni/alac/m4a.c:182-213 | finds the one chunk that holds the sample |
| SampleTables.GetSampleOffset | jni/alac/m4a.c:165-247 | the offset of that chunk plus the sizes of the samples before it there; 0 without tables, for an unknown sample and behind the media data |
| SampleTables.GetSampleInfo | jni/alac/m4a.c:132-163 | size and duration of the first run whose 32-bit end is beyond the sample; refused exactly when there is no such sample or run |
| SampleTables.RunFoundExactly | jni/alac/m4a.c:147-157 | the run that covers a sample is the one found if and only if it ends below 2^32 |
| SampleTables.AllCoveredFound | jni/alac/m4a.c:147-157 | while the runs cover less than 2^32 samples, those covered are found and no others |
| SampleTables.WrappedRunIsPassed | jni/alac/m4a.c:147-157 | a sample that is covered and refused |
| FlacGolomb.AvLog2 | jni/flac/golomb.h:27-42 | the base-two logarithm of any 32-bit value |
| FlacGolomb.LogTellsZeros | jni/flac/golomb.h:64-66 | the highest bit of the cache tells the zeros in front of the first one |
| FlacGolomb.GetUrGolomb | jni/flac/golomb.h:56-100 | the branch by logarithm and the branch bit by bit give the same value, for parameters up to 31, and go on by the code's length; bits the cache lacks count as zeros |
| FlacGolomb.ShownExactly | jni/flac/bitstream.h:237-238 | bits shown from a cache that lacks some of them are right if and only if those are zeros |
| FlacGolomb.RemainderExact | jni/flac/golomb.h:81-83 | a remainder is right if and only if the bits the cache lacks behind the one are zeros: always up to 24 bits |
| FlacGolomb.FoldingIsABijection | jni/flac/golomb.h:105-108 | folding the sign is a bijection |
| FlacGolomb.RiceComesBack | jni/flac/golomb.h:56-108 | a number comes back from its Rice code, wherever that is, if and only if the bits of the code that the cache lacks are zeros |
| FlacResiduals.GetSBits | jni/flac/bitstream.h:251-259 | the cache's first 1 to 32 bits as a number in two's complement |
| FlacResiduals.ShortIsShown | jni/flac/bitstream.h:197 | up to 25 bits they are the bits of the data |
| FlacResiduals.FillsExactly | jni/flac/flac_decoder.c:154-176 | when the partitions fill the block: if and only if the rest of the division makes up for a warm-up longer than the first partition |
| FlacResiduals.DecodeResiduals | jni/flac/flac_decoder.c:141-179 | each slot behind the warm-up filled once, with the residuals in order; nothing else touched |
| FlacFixed.ResidualsOfRestored | jni/flac/flac_decoder.c:205-218 | restoring and taking differences are inverse to each other, for all data |
| FlacFixed.RestoredOfResiduals | jni/flac/flac_decoder.c:205-218 | in the other direction too |
| FlacFixed.Turn | jni/flac/flac_decoder.c:205-218 | one turn of the chained sums keeps each of them a difference of the samples |
| FlacFixed.RestoreFixed | jni/flac/flac_decoder.c:197-225 | the loops of all orders in place: the samples whose differences the residuals are |
| FlacCodes.CodesComeBack | jni/flac/flac_decoder.c:160-174 | numbers of one kind, Rice or plain, come back from their codes, wherever those are |
| FlacCodes.PartitionsComeBack | jni/flac/flac_decoder.c:158-176 | residuals come back from their partitions, each with its own parameter or width |
| FlacCodes.ResidualsComeBack | jni/flac/flac_decoder.c:141-179 | the way of coding, the size of a parameter and all residuals |
| FlacSubframe.SoundFits | jni/flac/flac_decoder.c:181-225 | samples of up to 25 bits and any plan with Rice parameters up to 24 suit each other: no difference is too large to be coded |
| FlacSubframe.DecodeSubframeFixed | jni/flac/flac_decoder.c:181-225 | warm-up, residuals and the sums, in place: code, block and end, the refusals too |
| FlacSubframe.FixedComesBack | jni/flac/flac_decoder.c:181-225 | a block coded with a fixed predictor comes back, and reading ends behind it |
| FlacLinear.SurvivesExactly | jni/flac/flac_decoder.c:262-295 | sums of 64 bits bring every block back; sums of 32 bits bring it back if and only if every prediction agrees with that of 64 |
| FlacPredictors.FixedIsLinear | jni/flac/flac_decoder.c:200-225 | the fixed predictors are linear ones with binomial coefficients, the newest sample first |
| FlacLinear.AgreesExactly | jni/flac/flac_decoder.c:272-278 | it agrees if and only if the sum fits 32 bits or is not shifted |
| FlacLinear.SoundSurvives | jni/flac/flac_decoder.c:262 | the test for 32 bits is right for samples of the announced width |
| FlacLinear.SideSurvivesExactly | jni/flac/flac_decoder.c:262 | for a side channel, a bit wider, a block comes back if and only if the test chooses 64 bits, the level is 0, or no sum leaves 32 bits |
| FlacLinear.SideIsLost | jni/flac/flac_decoder.c:262 | a side channel of 24-bit sound that does not come back |
| FlacLinear.RestoreLinear | jni/flac/flac_decoder.c:262-295 | the loops in place, in 32 bits or 64, as the test says |
| FlacSubframe.ReadHead | jni/flac/flac_decoder.c:239-257 | precision, level and coefficients; -6 and -7 exactly when they are refused |
| FlacSubframe.DecodeSubframeLpc | jni/flac/flac_decoder.c:228-300 | warm-up, head, residuals and the predictor, in place: code, block and end, the refusals too |
| FlacSubframe.LinearComesBack | jni/flac/flac_decoder.c:228-300 | a block coded with a linear predictor comes back from its bits, exactly when the sums allow it |
| FlacStereo.PairComesBack | jni/flac/flac_decoder.c:531-585 | left/side, side/right and mid/side are undone, for samples of up to 31 bits |
| FlacStereo.UpIsExact | jni/flac/flac_decoder.c:530 | the shift to 29 bits loses nothing |
| FlacStereo.FormsAgreeExactly | jni/flac/flac_decoder.c:571-582 | the form of mid/side that is switched off is identical if and only if twice the samples fit 32 bits |
| FlacStereo.Join | jni/flac/flac_decoder.c:530-587 | the loops in place, every assignment |

## Left out

- Hybrid and float modes of WavPack (`update_error_limit`, `read_hybrid_profile`, `float_values`, `slow_level`, the
  bitrate fields): the repository has no encoder for them. `error_limit` is 0 and `mute_limit` is not doubled.
- `fixup_samples` and the copying for FALSE_STEREO: a shift for the output device and a duplication, after the samples
  modelled here.
- Mono blocks whose metadata holds a term below 0: no encoder writes them; the decoder's methods ask for other terms.
- Encoder terms 8, -1 and -3 in stereo: `pack_samples` has no case for them; the decoder's passes cover them.
- The bytes of the 32-byte block header and its byte order: its fields are fields of the stream objects.
- The outer loop of WavpackUnpackSamples over the blocks of a file, gaps between blocks and the counting of checksum
  errors.
- Read errors in the middle of a file: the callback delivers at least one byte while there are any left. For
  `read_next_header` it delivers all that is asked for while there are enough.
- Packing.Packer.StartBlock: asks for room for the metadata, as the source assumes it; the source ignores a chunk that
  does not fit.
- Metadata.ReadDecorrSamples: bytes missing from a truncated chunk count as zero; the source reads on behind the chunk.
- An oversized chunk of terms, weights, samples or medians counts as invalid, and the odd-size flag of an empty chunk is
  ignored.
- Chunks for features not modelled (hybrid profile, float and integer info, channels, sample rate) are passed over.
- Sample and block indices are unbounded, except the encoder's counts, which wrap at 32 bits.
- `nbits_table` and `ones_count_table` are given by the rule their entries follow, `|=` into free bits as addition, and
  the passes' loops, which the source writes once per term, as one loop with the choice of term inside. Bits that
  `getbits` leaves above the ones asked for are whatever was buffered.
- DecorrInverse.AllPassesInvert: is stated one way, for encoder runs in which every product fits 32 bits and every
  weight its short. The other way is proved for one pass over a block (DecorrExact.BlockSurvivesExactly), because what
  goes wrong in two passes can cancel; there the predictions are at most 2^24 in size and not -2^16, for which a weight
  of 32768 happens to survive its wrap.
- DecorrInverse.SurvivesExactlyWhenExact: is about one sample; DecorrExact.BlockSurvivesExactly is about blocks.
- DecorrBounds.SmallBlocksArePackable: is a sufficient check; DecorrBounds.WhereNothingIsSafe says for which 16-bit sound
  it says nothing.
- `long` has 32 bits where `labs` is taken, as on 32-bit ARM.
- The range decoder's older sample format (`entropy_decode3970`), CRC and frame flags; the symbol table of that format is
  covered. `1 << (k + 4)` in `update_rice` is taken modulo 2^32.
- ApeDecoder.Decoder.ReadByte: bytes past the end of the input count as zero; the source reads on.
- Android's AudioTrack, `libmediacb_wait_done` and restarting a stopped player. The unlocked test of `cbstart` on entry to
  `libmediacb_write` counts as part of its first step.
- MpcPlayer.Player.SkipFrame: asks for right jump info and frames of at most half the ring, as the source relies on them;
  what a parse of a frame reads is a list of widths, not the values.
- MpcPlayer.Player.SeekSample: asks for the same and a file below 2^32 bits.
- MpcPlayer.Player.Decode: asks for right jump info and frames of at most half the ring.
- Musepack's requantisation and synthesis, the number of samples returned, the memory of scale factors a seek resets, and
  the loop around frames without sound.
- Reads behind the last word of a Musepack file deliver what the ring held before.
- SampleTables.FindChunk: asks for ascending, positive chunk runs, as files have them; the source divides by a count it
  does not test.
- SampleTables.GetSampleOffset: asks for the same where there are runs at all.
- FlacGolomb.GetUrGolomb: asks for a one to come and for the four bytes of the cache to be in memory; the source goes on
  reading behind its buffer. What bits are behind the data is part of `bits`.
- FlacResiduals.GetSBits: asks for 1 to 32 bits, all that `>> (32 - n)` is defined for, and for four bytes in memory.
- FlacResiduals.DecodeResiduals: asks for data that holds what it announces, and for plain widths of at least 1.
- FlacSubframe.LinearComesBack: takes a writer that keeps to Rice parameters up to 24 and plain widths up to 25, as
  FlacSubframe.FixedComesBack does; FlacGolomb.RiceComesBack says what becomes of longer ones.
- FLAC's frame headers, checksums, constant and verbatim subframes, wasted bits and the reads in front of the block with
  which unused sums of decode_subframe_fixed are set up. Samples of more than 29 bits, for which the last shift is
  negative.
- `AlacPredictor`: quantization 0, which shifts by -1, is not a setting. ALAC's entropy coder, bit reader and interlacing
  are not part of this model.
- The array of `APPLY_FILTER` for two channels is one object per channel, and the three functions of
  jni/ape/vector_math_generic.h loop over the lines they unroll.
- The JNI layer, demuxers and all Java sources.
