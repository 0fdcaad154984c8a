# Speex in Dafny

A model of the arithmetic and protocol core of the bundled libspeex, with proofs about whole transforms, whole searches,
whole streams and whole runs. Loops stay loops over arrays, objects whose fields the code updates are classes, and each
method is tied to a specification about which the properties are proved. `dafny verify dfyconfig.toml` checks everything.

Two builds of the library are modelled. In the float build shifts, rounding and saturation are identities, so samples are
exact reals. Where the fixed-point build matters (`FixedFilters`, `FixedOverflow`, the second half of `Excitation`, the
`Lsp` files) values are integers and 16- and 32-bit wrap-around is written out.

* **FFT** (`Complex`, `Roots`, `FftSpec`, `Butterflies`, `Columns`, `FftPasses`, `Primes`, `KissFft`, `RealFft`,
  `RealSpectrum`). The mixed-radix transform equals the plain sum for every length and factor chain, and runs exactly for
  lengths without a prime factor over 17; the real transform equals the plain transform of the samples, and the inverse
  gives the samples back. A twiddle table is any table that obeys the multiplication law, conjugation, primitivity and
  orientation of the roots of unity; the values the butterflies build in (-1/2, -1, the quarter turns) are derived from
  those laws.
* **Filters** (`Signals`, `Filters`, `FixedFilters`, `FixedOverflow`). The memory-carrying transposed forms refine the
  difference equation; the perceptual synthesis and residue cascades undo each other; when the wrapping 32-bit code is exact.
* **Bit stream and frames** (`BitFields`, `Bits`, `BitSession`, `FrameSyntax`, `FrameChoices`, `FrameLayout`, `FrameCodec`,
  `FrameStream`, `FrameSession`). Every choice of an encoder stands at its bit position in the frame, and any run of
  narrowband frames with any high-band layers is read back choice by choice by a decoder of any level, behind in-band
  requests and foreign layers; the block scan ends on every stream.
* **Codebook and pitch search** (`Vq`, `Beam`, `Codebook`, `CbSearch`, `CbCoding`, `Excitation`, `Pitch`). N-best
  lists are starts of stable sorts; the beam search's running distance is the global filtered error and its beam the best
  of all one-step extensions; when decoder and encoder agree on the excitation.
* **Line-spectrum quantizers** (`LspMath`, `Lsp`, `LspDecode`, `LspRanges`). Exactly when encoder and decoder agree, for
  given indices and for all codebooks.
* **Resampler** (`Resampler`). What every output of any session is, however its input is split.
* **Jitter buffer** (`JitterTime`, `Timings`, `Delay`, `DelayPrice`, `Slots`, `Jitter`, `JitterRuns`, `JitterSetback`).
  Conservation of packets, what a put keeps and a get hands over, honest losses, forward progress and the one way to lose
  it, the delay estimate and the price it puts on a late packet, and the fill and frozen-sender scenarios for every length.
* `Remainders`, `Words` and `Wrappers` hold small shared definitions.

Findings, where the code is narrower than its documentation or comments suggest:

* `inner_prod` works in blocks of four, so the sliding energies of the pitch search are the window energies exactly for
  lengths divisible by four (`PitchSearch.SlidIsEnergy`, `PitchSearch.BlocksOnly`).
* The encoder's own quantized line spectrum equals the decoder's if and only if the scaled error fits 16 bits
  (`LspDecoders.NbAgrees` and its siblings). Whatever the codebooks hold that is so for frequencies within -1080..1023 of
  the coefficient's linear place (-10288..10239 at the low rates and in the high band) and never beyond -15360..15303
  (-22528..22479); both ranges are exact (`LspRanges.NbBoundsAreExact` and its siblings), and every set of books has an ordered
  frame on which the two differ (`LspRanges.NbCanDisagree` and its siblings).
* `compute_quant_weights` divides by zero if and only if some frequency is exactly 300 below the one before it and the other
  gap of one of the two is no narrower than that (`LspQuantizers.WeighableIff`, with a failing frame of ten in
  `LspQuantizers.DisorderDividesByZero` and a harmless one in `LspQuantizers.DisorderMayBeHarmless`).
* `filter_mem16` in fixed point may wrap inside and still be exact: what counts is that the accumulator with its rounding
  fits 32 bits whenever a sample leaves (`FixedOverflow.FitsIsExact`, `FixedOverflow.OutputExactIff`). An absolute
  coefficient sum below 8.0 is sufficient for that, not necessary. For `fir_mem16` from silence the exact condition
  on the coefficients is `FixedOverflow.FirExactIff`.
* In fixed point the decoder stores the fixed-codebook excitation over its buffer where the encoder, and the float build of
  both, add it: the two ends agree if and only if the encoder's buffer held zeros (`ExcitationAgreement.PackAndStore`), as it
  does at every call in nb_celp.c and sb_celp.c.
* A null layer is skipped by moving back four bits, so a decoder that does not read it finds the packet corrupted at its
  next call (`FrameSession.Receive` states after which frame).
* A tick that has to move back while an interpolation is still owed forgets that interpolation: exactly then, and by exactly
  that much, progress falls (`JitterBuffers.JitterBuffer.Tick`). `JitterSetback.Setback` reaches it from init for every
  start and step size; with a get between ticks it never happens (`JitterRuns.Rounds`).

## Model

| member | source | states |
|---|---|---|
| RootsOfUnity.PowersCancel | jni/libspeex/kiss_fft.c:489-496 | the powers of a twiddle whose exponent is no multiple of n add up to zero over a full turn |
| RootsOfUnity.HalfRoot | jni/libspeex/kiss_fft.c:489-496 | from the table laws alone the entry half-way round is -1 |
| RootsOfUnity.ThirdRoot | jni/libspeex/kiss_fft.c:168-212 | a third of the way round the real part is -1/2 and the second root is the conjugate: what the radix-3 butterfly builds in |
| RootsOfUnity.QuarterRoots | jni/libspeex/kiss_fft.c:86-166 | the quarter turns are -i, -1 and i forward, and i, -1, -i inverse |
| RootsOfUnity.FifthRoots | jni/libspeex/kiss_fft.c:214-276 | the last two fifth roots are the conjugates of the first two |
| RootsOfUnity.SquareRootsAreATable | jni/libspeex/kiss_fft.c:489-496 | the laws assumed of a twiddle table are consistent: a concrete table meets them |
| RootsOfUnity.FourthRootsAreATable | jni/libspeex/kiss_fft.c:489-496 | so do the fourth roots, with the quarter turn of either direction |
| FftSpec.TransformByStrands | jni/libspeex/kiss_fft.c:322-456 | decimation in time: a transform is one radix-p butterfly over the transforms of its p interleaved strands |
| FftSpec.WorkIsDft | jni/libspeex/kiss_fft.c:322-456 | for every factor chain, digit reversal followed by all butterfly passes is the plain transform sum |
| Butterflies.ColumnIsSmallDft | jni/libspeex/kiss_fft.c:278-320 | every output of the generic butterfly is a p-point transform of the twiddled column |
| Butterflies.Radix2 | jni/libspeex/kiss_fft.c:29-84 | sum and difference are the two-point transform |
| Butterflies.Radix3 | jni/libspeex/kiss_fft.c:168-212 | the three outputs of the code are the three-point transform for conjugate cube roots |
| Butterflies.Radix4 | jni/libspeex/kiss_fft.c:86-166 | the four outputs are the four-point transform, in both directions |
| Butterflies.Radix5 | jni/libspeex/kiss_fft.c:214-276 | the five outputs are the five-point transform for two conjugate pairs of roots |
| Columns.Column3 | jni/libspeex/kiss_fft.c:168-212 | a column overwritten with the radix-3 outputs equals the generic butterfly at that column |
| Columns.Column4 | jni/libspeex/kiss_fft.c:86-166 | likewise radix 4 |
| Columns.Column5 | jni/libspeex/kiss_fft.c:214-276 | likewise radix 5 |
| KissFft.NextRadix | jni/libspeex/kiss_fft.c:437-456 | the next factor divides what is left and is at least two, every trial that failed stays ruled out for the rest, and a factor beyond 17 means that nothing up to 17 divides what is left; the trial loop ends |
| KissFft.CapEnds | jni/libspeex/kiss_fft.c:437-456 | halving a 32-bit length at every factor leaves nothing after 31 steps |
| KissFft.KfFactor | jni/libspeex/kiss_fft.c:437-456 | the buffer holds a chain p_i * m_i = m_(i-1) that ends in one, for every 31-bit length, and its radices all have a butterfly if and only if the length has no prime factor over 17 |
| KissFft.KfShuffle | jni/libspeex/kiss_fft.c:322-353 | the block holds the samples in digit-reversed order and nothing else changed |
| KissFft.KfBfly2 | jni/libspeex/kiss_fft.c:29-84 | the in-place radix-2 column equals the generic butterfly on the old contents |
| KissFft.KfBfly3 | jni/libspeex/kiss_fft.c:168-212 | likewise radix 3 |
| KissFft.KfBfly4 | jni/libspeex/kiss_fft.c:86-166 | likewise radix 4 |
| KissFft.KfBfly5 | jni/libspeex/kiss_fft.c:214-276 | likewise radix 5 |
| KissFft.NextTwiddleIndex | jni/libspeex/kiss_fft.c:306-318 | the generic twiddle index stays q*k*fstride mod nfft with one conditional subtraction |
| KissFft.KfBflyGeneric | jni/libspeex/kiss_fft.c:278-320 | it fails exactly above radix 17, and else transforms the column |
| KissFft.KfBlock | jni/libspeex/kiss_fft.c:418-428 | all columns of one block are transformed by the butterfly of its radix |
| KissFft.KfWork | jni/libspeex/kiss_fft.c:355-433 | all passes over all blocks, failing exactly when some radix has no butterfly |
| KissFft.KissFftStride | jni/libspeex/kiss_fft.c:505-517 | every output is the plain transform sum of the strided input; it fails exactly in place or with a radix over 17 |
| KissFft.KissFftAlloc | jni/libspeex/kiss_fft.c:464-501 | a valid state for every 31-bit length, whose transforms can succeed exactly for lengths without a prime factor over 17 |
| KissFft.Transform | jni/libspeex/kiss_fft.c:464-522 | allocating and transforming succeeds if and only if the length has no prime factor over 17, and then gives the plain transform |
| KissFft.DftIsSum | jni/libspeex/kiss_fft.c:519-522 | that transform is the sum of x[j] * w^(j*k) |
| DftInversion.InverseTransform | jni/libspeex/kiss_fft.c:489-496 | transforming back with the conjugate table gives n times every sample |
| RealFft.SuperTwiddles | jni/libspeex/kiss_fftr.c:69-75 | super twiddles lie on the unit circle and mirror to conjugates |
| RealFft.EveryOtherIsTable | jni/libspeex/kiss_fftr.c:45-64 | every other root of a table of even length is the table of half the length |
| RealFft.KissFftrAlloc | jni/libspeex/kiss_fftr.c:32-82 | no state for an odd length; for an even one a valid state, whose transforms can succeed exactly if half the length has no prime factor over 17 |
| RealFft.JoinSplit | jni/libspeex/kiss_fftr.c:173-297 | joining the bins of kiss_fftri2 undoes splitting those of kiss_fftr2 up to a factor of two |
| RealFft.SplitBins | jni/libspeex/kiss_fftr.c:199-258 | the in-place pairwise loop stores the packed spectrum, the self-paired middle bin written twice included |
| RealFft.JoinBins | jni/libspeex/kiss_fftr.c:270-295 | the inverse loop rebuilds the half-length spectrum, middle bin included |
| RealFft.KissFftr2 | jni/libspeex/kiss_fftr.c:173-259 | the packed spectrum of the samples; it fails exactly on an inverse state or an unsupported radix |
| RealFft.KissFftri2 | jni/libspeex/kiss_fftr.c:261-297 | the samples the packed spectrum stands for; it fails exactly on a forward state or an unsupported radix |
| RealFft.RealRoundTrip | jni/libspeex/kiss_fftr.c:173-297 | kiss_fftri2 after kiss_fftr2 multiplies every sample by N, for every even N and any scale of the spectrum |
| RealFft.SpxFft | jni/libspeex/fftwrap.c:285-294 | the packed spectrum divided by N |
| RealFft.SpxInverse | jni/libspeex/fftwrap.c:285-301 | spx_ifft of spx_fft is the identity |
| RealSpectrumMeaning.EvenPlusOdd | jni/libspeex/kiss_fftr.c:173-259 | the transform of real samples is that of the even ones plus a turned one of the odd ones |
| RealSpectrumMeaning.BinIsRealDft | jni/libspeex/kiss_fftr.c:199-258 | every split bin is the plain transform of the real signal |
| RealSpectrumMeaning.EndsAreRealDft | jni/libspeex/kiss_fftr.c:199-258 | the two packed end values are the transform at zero and at the half-way bin, both real |
| RealSpectrumMeaning.SpectrumIsRealDft | jni/libspeex/kiss_fftr.c:173-259 | the output array of kiss_fftr2 holds, bin by bin, the plain transform of the real samples |
| RealSpectrumMeaning.SpxRoundTrip | jni/libspeex/fftwrap.c:285-301 | running spx_fft and then spx_ifft gives the input back, exactly when both states fit |
| RealSpectrumMeaning.SpxRoundTripOfSize | jni/libspeex/fftwrap.c:253-301 | from the size alone: allocating both states, spx_fft and then spx_ifft give the input back exactly for even sizes whose half has no prime factor over 17 |
| Signals.ShapeCommutes | jni/libspeex/filters.c:379-402 | truncated convolutions with monic filters commute |
| Signals.ShapeInjective | jni/libspeex/filters.c:339-376 | a monic filter loses nothing: equal outputs mean equal inputs |
| Signals.PolyIsConvolution | jni/libspeex/filters_bfin.h:468-514 | the delay-operator form is the convolution sum |
| Filters.FilterMem16 | jni/libspeex/filters.c:319-337 | the in-place loop computes the state recursion, also with y the same buffer as x |
| Filters.IirMem16 | jni/libspeex/filters.c:339-357 | the all-pole loop is the general filter without numerator |
| Filters.FirMem16 | jni/libspeex/filters.c:359-376 | the all-zero loop is the general filter without denominator |
| Filters.RunInPieces | jni/libspeex/filters.c:319-337 | filtering a concatenation is filtering the pieces with the memory carried over |
| Filters.MemoryIsTail | jni/libspeex/filters.c:319-337 | each memory cell is the tail sum of num*x - den*y that later outputs need |
| Filters.DirectForm | jni/libspeex/filters_bfin.h:468-514 | the transposed form is the direct difference equation |
| Filters.FilterEquation | jni/libspeex/filters.c:319-337 | from zero memory (1+den)y = (1+num)x |
| Filters.FirUndoesIir | jni/libspeex/filters.c:339-376 | fir_mem16 and iir_mem16 with the same coefficients undo each other |
| Filters.ResidueUndoesSynthesis | jni/libspeex/filters.c:379-402 | residue_percep_zero16 undoes syn_percep_zero16 for every signal, order and coefficient set |
| Filters.SynthesisUndoesResidue | jni/libspeex/filters.c:379-402 | and the other way round |
| Filters.SynthesisEquation | jni/libspeex/filters.c:379-389 | the synthesis solves A(C y) = B x for all coefficients |
| Filters.ResidueEquation | jni/libspeex/filters.c:391-402 | the residue solves B r = C(A x) |
| Filters.SynPercepZero16 | jni/libspeex/filters.c:379-389 | what the three filters leave in one buffer is y with A(C y) = B x, for ak = A, awk1 = B and awk2 = C: the numerator is awk1 |
| Filters.ResiduePercepZero16 | jni/libspeex/filters.c:391-402 | and its counterpart is r with B r = C(A x) |
| FixedFilters.FilterMem16 | jni/libspeex/filters.c:319-337 | the fixed-point loop is the 32-bit recursion, wrap-around included |
| FixedFilters.IirMem16 | jni/libspeex/filters.c:339-357 | likewise without numerator |
| FixedFilters.FirMem16 | jni/libspeex/filters.c:359-376 | likewise without denominator |
| FixedFilters.StepFits | jni/libspeex/filters.c:325-335 | one sample neither wraps nor leaves the memory bound |
| FixedFilters.NoOverflow | jni/libspeex/filters.c:319-337 | a sufficient case: while the absolute coefficients add up to less than 8.0 no 32-bit operation at all overflows on any 16-bit run |
| FixedFilters.OverflowBeyondBound | jni/libspeex/filters.c:319-337 | an example of the failing side, which FixedOverflow describes in full: this filter and signal wrap and flip the output to the other rail |
| FixedFilters.RunInPieces | jni/libspeex/filters.c:319-337 | chunked filtering agrees with one call, even when it wraps |
| FixedFilters.MemoryIsTail | jni/libspeex/filters.c:319-337 | memory cells are the exact tail sums |
| FixedFilters.DirectForm | jni/libspeex/filters_bfin.h:468-514 | each output is the saturated, rounded difference equation |
| FixedOverflow.OutputAgrees | jni/libspeex/filters.c:325-328 | one output: a rounded accumulator that fits 32 bits gives the exact sample whatever wrapped before, and one less than a turn out of range never does |
| FixedOverflow.FitsIsExact | jni/libspeex/filters.c:319-337 | intermediate wraps cancel: if the exact accumulator with its rounding fits 32 bits at every sample, the 32-bit run gives the exact output, for every filter and starting memory |
| FixedOverflow.AgreesIffFits | jni/libspeex/filters.c:319-337 | and only then, as long as the accumulator is less than a turn out of range |
| FixedOverflow.OutputExactIff | jni/libspeex/filters.c:319-337 | for every filter whose absolute coefficients add up to less than 16.0 the output is exact if and only if the accumulator fits throughout; below 8.0 it always does |
| FixedOverflow.CodeIsDifferenceEquation | jni/libspeex/filters.c:319-337 | the fixed-point code meets the saturated, rounded difference equation on every 16-bit signal that keeps the accumulator in range, from any 32-bit memory |
| FixedOverflow.FirGoesWrong | jni/libspeex/filters.c:359-376 | for every all-zero filter with a full-scale sum out of range there is a 16-bit signal whose output is wrong |
| FixedOverflow.FirExactIff | jni/libspeex/filters.c:359-376 | from silence fir_mem16 is exact on all 16-bit signals if and only if 32768*P + 32767*N and 32768*N + 32767*P, P and N the sums of positive and of negative coefficients, fit with their signs and the rounding |
| BitFields.ValueOfField | jni/libspeex/bits.c:229-304 | reading a field back gives the value modulo two to its width |
| BitFields.FieldOfValue | jni/libspeex/bits.c:229-304 | every run of bits is the field of its value |
| BitFields.FieldSplits | jni/libspeex/cb_search.c:541-549 | reading a sign bit and then the shape bits is reading the joined index |
| ByteBits.ByteOrder | jni/libspeex/bits.c:254-270 | a byte is its eight bits put together, the most significant first |
| BitStream.SignedValueOfField | jni/libspeex/bits.c:272-281 | a signed field in range comes back exactly |
| BitStream.SpeexBits.Reset | jni/libspeex/bits.c:92-100 | an empty stream on a cleared buffer |
| BitStream.SpeexBits.Rewind | jni/libspeex/bits.c:102-107 | the cursor goes back, the contents stay |
| BitStream.SpeexBits.Pack | jni/libspeex/bits.c:229-270 | appends exactly the low bits of the value; grows an owned buffer by the code's rule, leaves a full borrowed one alone |
| BitStream.SpeexBits.InsertTerminator | jni/libspeex/bits.c:366-372 | appends a zero and then ones up to the byte boundary |
| BitStream.SpeexBits.UnpackUnsigned | jni/libspeex/bits.c:283-304 | takes the next bits; overflow is sticky and yields zero without moving |
| BitStream.SpeexBits.UnpackSigned | jni/libspeex/bits.c:272-281 | the same as two's complement |
| BitStream.SpeexBits.PeekUnsigned | jni/libspeex/bits.c:306-332 | reads without moving |
| BitStream.SpeexBits.Advance | jni/libspeex/bits.c:343-351 | moves like reading n bits, backward too |
| BitStream.SpeexBits.Write | jni/libspeex/bits.c:188-209 | the bytes are the contents padded; cursor and count are as before |
| BitStream.SpeexBits.WriteWholeBytes | jni/libspeex/bits.c:211-227 | as many whole bytes leave as there is room for; what stays is the partial byte's worth of bits behind those written, also when room was short |
| BitStream.SpeexBits.ReadFrom | jni/libspeex/bits.c:109-145 | the stream is the packet, cut to a borrowed buffer |
| BitSession.Send | jni/libspeex/bits.c:188-270 | any mix of packs and drains puts all fields in the packet in order, then the padding |
| BitSession.Receive | jni/libspeex/bits.c:109-145 | reading the same widths gives every value back without overflow |
| BitSession.RoundTrip | jni/libspeex/bits.c:109-372 | the two together for any list of operations |
| VectorQuantizer.FirstOfUnique | jni/libspeex/vq.c:76-146 | there is only one such n-best list |
| VectorQuantizer.InsertKeepsFirst | jni/libspeex/vq.c:76-107 | inserting a later candidate after all that are not greater keeps the list the first n of the stable sort |
| VectorQuantizer.SkipKeepsFirst | jni/libspeex/vq.c:85-106 | so does dropping one not better than the last |
| VectorQuantizer.VqNbest | jni/libspeex/vq.c:76-107 | the first N of the stable sort of all codewords by distance |
| VectorQuantizer.VqNbestSign | jni/libspeex/vq.c:110-146 | the same over both signs of every codeword |
| ShapeCodebook.ResidualGrows | jni/libspeex/cb_search.c:53-95 | updating the residual with one more codeword is filtering the longer excitation |
| ShapeCodebook.ExcitationIs | jni/libspeex/cb_search.c:471-496 | sample by sample the excitation is 1/32 of the row the index gives, negated for indices past the last row |
| ShapeCodebook.CostStep | jni/libspeex/cb_search.c:351-462 | the global cost grows by exactly what the stage computes, and never falls |
| ShapeCodebook.LocalIsGlobal | jni/libspeex/cb_search.c:351-462 | running distance plus local distance equals half the squared error of the whole filtered excitation |
| BeamOrder.RestNotKept | jni/libspeex/cb_search.c:380-419 | codewords a survivor did not offer would not have been kept |
| BeamOrder.PassDone | jni/libspeex/cb_search.c:380-419 | after a survivor's pass the list is the best of all extensions met so far |
| CodebookSearch.TargetUpdate | jni/libspeex/cb_search.c:90-95 | subtracts a scaled stretch of the response, elsewhere nothing |
| CodebookSearch.OfferAll | jni/libspeex/cb_search.c:386-416 | the inner insertion loop keeps the n best offers with their parents |
| CodebookSearch.CollectCandidates | jni/libspeex/cb_search.c:356-419 | over all survivors the list is the N best of all one-step extensions |
| CodebookSearch.NextTracks | jni/libspeex/cb_search.c:420-462 | the new arrays describe the next beam, each distance being the global cost of its survivor |
| CodebookSearch.Stage | jni/libspeex/cb_search.c:351-462 | one whole stage: beam, rows, histories and distances stay in step |
| CodebookCoding.ComputeWeightedCodebook | jni/libspeex/cb_search.c:53-87 | responses and energies of all codewords |
| CodebookCoding.SearchBeam | jni/libspeex/cb_search.c:242-462 | every beam holds the N cheapest extensions of the one before, and the best survivor is returned |
| CodebookCoding.GreedyIsMinimal | jni/libspeex/cb_search.c:100-220 | a greedy choice costs no more than any index of either sign |
| CodebookCoding.SearchGreedy | jni/libspeex/cb_search.c:100-220 | the single-survivor search makes greedy choices throughout |
| CodebookCoding.IndexBitsInjective | jni/libspeex/cb_search.c:464-469 | packed indices determine the indices |
| CodebookCoding.IndexBitsAt | jni/libspeex/cb_search.c:464-469 | index i stands i widths behind the start of the packed indices, a width being the shape bits and the sign bit |
| CodebookCoding.SplitCbSearchShapeSign | jni/libspeex/cb_search.c:242-498 | indices are packed, their excitation is added, and the target gives up its synthesis if asked |
| CodebookCoding.SplitCbShapeSignUnquant | jni/libspeex/cb_search.c:514-570 | adds the excitation of the indices in the stream |
| CodebookCoding.DecoderAgrees | jni/libspeex/cb_search.c:464-570 | the decoder reads the encoder's indices and rebuilds the same excitation |
| ExcitationAgreement.SearchAndDecode | jni/libspeex/cb_search.c:242-570 | float build, end to end: search, pack, rewind and unquantize add the same excitation, so the two buffers agree afterwards exactly if they agreed before |
| ExcitationAgreement.StoreExcitation | jni/libspeex/cb_search.c:476-495 | fixed build: the loop stores every sample of the same excitation in units of 2^-14 |
| ExcitationAgreement.StoreUnquantized | jni/libspeex/cb_search.c:553-567 | fixed build: the decoder stores the excitation over its buffer instead of adding it |
| ExcitationAgreement.PackAndStore | jni/libspeex/cb_search.c:476-570 | fixed build, end to end: the buffers agree afterwards if and only if the encoder's held zeros before |
| Resampling.Reduce | jni/libspeex/resample.c:1017-1025 | the loop divides out every common factor and nothing else |
| Resampling.FilterLengthIs | jni/libspeex/resample.c:556-566 | the base length, or when down-sampling the largest multiple of four within the base stretched by the ratio |
| Resampling.OutputPrefix | jni/libspeex/resample.c:328-374 | an output does not depend on later input |
| Resampling.Advance | jni/libspeex/resample.c:362-369 | the integer and fractional advance keep the position exact |
| Resampling.Resampler.Basic | jni/libspeex/resample.c:328-374 | output k written is the sum over j < n of sinc[(k*num mod den)*n + j] times the sample k*num/den + j - (n-1), silence before the first; it stops only out of input or room |
| Resampling.OneHotRow | jni/libspeex/resample.c:342-361 | a table with a single one in column c of row f gives the sample c - (n-1) from its own where i*num mod den is f, and zero elsewhere |
| Resampling.Resampler.ProcessNative | jni/libspeex/resample.c:792-815 | consumed input becomes history; the carried memory is the right one |
| Resampling.Resampler.Process | jni/libspeex/resample.c:839-877 | the chunk loop ends with all input used or all room filled, and outputs are those of the unsplit stream |
| Resampling.Session | jni/libspeex/resample.c:839-877 | over any sequence of calls output i is that sum over the whole stream for every i, and (consumed+last)*den+frac = k*num |
| Resampling.SessionsAgree | jni/libspeex/resample.c:839-877 | two sessions on one stream agree as far as both got |
| Resampling.CompleteSessionsAgree | jni/libspeex/resample.c:839-877 | sessions that used up the stream produced the same samples, however it was split |
| Resampling.NothingMissing | jni/libspeex/resample.c:839-877 | once all input is consumed the next output lies beyond it |
| FrameSyntax.NbTableSum | jni/libspeex/modes.c:151-316 | the fields of each narrowband sub-mode add up to its bits_per_frame |
| FrameSyntax.WbTableSum | jni/libspeex/modes_wb.c:84-176 | likewise the high-band sub-modes |
| FrameSyntax.NbLength | jni/libspeex/nb_celp.c:537-910 | every frame has exactly the announced length, five bits if silent |
| FrameSyntax.LayerLength | jni/libspeex/sb_celp.c:503-726 | every layer too, four bits if null |
| FrameSyntax.OrdersAgree | jni/libspeex/nb_celp.c:901-910 | sub-mode 1's extra bits written after the subframes and read before them are in the same place |
| FrameSyntax.NbUnique | jni/libspeex/nb_celp.c:1229-1415 | a stream can be read as a narrowband frame in one way only |
| FrameSyntax.LayerUnique | jni/libspeex/sb_celp.c:914-1070 | and as a layer in one way only |
| FrameLayout.NbPlacesAgree | jni/libspeex/modes.c:151-316 | bit positions and widths of all narrowband sub-modes in numbers, from the sub-mode tables |
| FrameLayout.LayerPlacesAgree | jni/libspeex/modes_wb.c:84-176 | likewise of the high-band sub-modes |
| FrameLayout.SentMeans | jni/libspeex/nb_celp.c:537-910 | the frame sent holds every choice of the analysis; lag and pitch gain index are zero exactly where no pitch was looked for, and the extra bits are 15 exactly in sub-mode 1 during discontinuous transmission |
| FrameLayout.SentPlaced | jni/libspeex/nb_celp.c:537-910 | the printed frame holds every choice of the analysis at its bit position |
| FrameLayout.LayerStands | jni/libspeex/sb_celp.c:503-726 | the printed layer holds every field at its bit position |
| FrameCodec.PackPitch | jni/libspeex/ltp.c:579-634 | the lag counted from the start of the range and the index of the gains, or both fields as zeros when the range is empty |
| FrameChoices.PitchSurvives | jni/libspeex/ltp.c:579-687 | the decoder's lag is the encoder's, or the start of the range when it was empty |
| FrameCodec.EncodeSubframe | jni/libspeex/nb_celp.c:646-895 | the subframe packed carries gain correction, both index lists, and lag and pitch gain index where a pitch was looked for |
| FrameCodec.NbEncode | jni/libspeex/nb_celp.c:537-910 | every choice of the analysis stands at its bit position, for all eight sub-modes; behind the lag of each searched subframe stands its pitch gain index |
| FrameCodec.SbEncode | jni/libspeex/sb_celp.c:503-726 | every field of a layer stands at its bit position; four bits when the band is not sent |
| FrameCodec.UnpackPitch | jni/libspeex/ltp.c:655-690 | reads pitch and gain fields of the sub-mode's widths |
| FrameCodec.DecodeSubframe | jni/libspeex/nb_celp.c:1299-1415 | reads one subframe of the sub-mode's width |
| FrameCodec.DecodeBody | jni/libspeex/nb_celp.c:1229-1415 | whatever it returns is what the stream held, in the encoder's order |
| FrameStream.SkipIsLength | jni/libspeex/nb_celp.c:1081-1081 | the skip table is the layer length exactly for coded layers; a null layer moves the reader back four bits |
| FrameStream.SkipLayers | jni/libspeex/nb_celp.c:1128-1171 | skipping up to two coded layers lands exactly on the block behind them; a null layer among them is reported as a corrupted stream, and too few bits behind them as the end |
| FrameStream.InbandHandler | jni/libspeex/speex_callbacks.c:43-73 | a request is consumed to its last bit and answered with the callback's status, or zero: what a registered callback takes, and else 1, 4, 8, 16, 32 or 64 bits by its code; the reader never moves back |
| FrameStream.DefaultUserHandler | jni/libspeex/speex_callbacks.c:139-144 | skips exactly the announced bytes |
| FrameStream.FindBlock | jni/libspeex/nb_celp.c:1126-1192 | the scan ends on every stream, each repeated turn moving at least five bits on, finds the block behind requests and layers, fails on a null layer, and finds the end when too few bits are left |
| FrameStream.NbDecode | jni/libspeex/nb_celp.c:1083-1415 | behind requests and layers it reads the frame that was sent; it fails at a terminator or the end |
| FrameStream.DecodeLayer | jni/libspeex/sb_celp.c:914-1070 | reads the layer that was sent, sees that none follows, or refuses one of a sub-mode the mode does not have |
| FrameSession.Decode | jni/libspeex/sb_celp.c:873-1070 | one call of a decoder of any level reports the frame and its layers, the end of the packet behind any layers it leaves, or a null layer it cannot skip |
| FrameSession.NullLayerStops | jni/libspeex/nb_celp.c:1126-1171 | a null layer above the decoder's level is what the next call stumbles over |
| FrameSession.Transmit | jni/libspeex/nb_celp.c:537-910 | the packet is the frames in order, then the padding |
| FrameSession.Receive | jni/libspeex/nb_celp.c:1083-1415 | for any run of frames a decoder of any level reads back every choice of the analysis and every layer, up to and including the first frame with a null layer above that level, and the call after it reports -2; if it reads all, the call after the last is -2 exactly when a null layer was left with anything behind it, and else -1 |
| JitterTime.ComparisonsWrap | jni/libspeex/jitter.c:69-74 | the comparisons see only the 32-bit words |
| JitterTime.OrderAgrees | jni/libspeex/jitter.c:69-74 | within half the 32-bit range they agree with integer order |
| JitterTime.OrderFailsAtHalf | jni/libspeex/jitter.c:69-74 | at half the range they do not |
| JitterTime.RoundDownIsFloor | jni/libspeex/jitter.c:76-76 | the rounding macro is the floor, for negative numbers too |
| Timings.TimingBuffer.Add | jni/libspeex/jitter.c:97-133 | the window stays sorted, keeps the 40 smallest and counts all |
| Timings.TimingBuffer.Shift | jni/libspeex/jitter.c:356-364 | every timing moves by the amount |
| Timings.MergeStep | jni/libspeex/jitter.c:211-233 | taking the smallest head keeps the merge going |
| Timings.MergeIsTop | jni/libspeex/jitter.c:209-252 | the merge visits exactly the 40 smallest timings below 32767 of all that arrived, although each window kept 40 |
| DelayEstimate.BestStep | jni/libspeex/jitter.c:225-248 | the running best is the first minimiser of the cost |
| DelayEstimate.Windows.ReceivedByWindow | jni/libspeex/jitter.c:183-187 | the rotating pointers see the same windows as the buffers |
| DelayEstimate.Windows.UpdateTimings | jni/libspeex/jitter.c:335-353 | clamped timing into the current window; a full one rotates and the oldest is forgotten |
| DelayEstimate.Windows.ShiftTimings | jni/libspeex/jitter.c:356-364 | all three windows move |
| DelayEstimate.Windows.ComputeOptDelay | jni/libspeex/jitter.c:175-268 | the estimate is the first cheapest delay among the 40 smallest timings, zero without data or gaining on little data |
| DelayEstimate.OnTimeNoChange | jni/libspeex/jitter.c:175-268 | when everything arrives on time nothing is adjusted |
| DelayPrice.OneTiming | jni/libspeex/jitter.c:175-268 | after a single late packet the estimate is its lateness, rounded |
| DelayPrice.TwoTimings | jni/libspeex/jitter.c:175-268 | of two timings the later packet decides while losing one costs more than the delay, and their spread sets the next price of a loss |
| DelayPrice.ThreeTimings | jni/libspeex/jitter.c:175-268 | of three timings the latest packet decides while losing one, or two, costs more than the delay |
| DelayPrice.TradeoffPrice | jni/libspeex/jitter.c:175-268 | with a latency tradeoff set, n timings, fewer than 40, and the first one late, the estimate makes room for it if and only if no later timing saves more delay than the packets given up for it are worth at 100 * tradeoff / n each, four more counting once one came in time |
| DelayPrice.AutomaticPrice | jni/libspeex/jitter.c:175-268 | without one, likewise at autoTradeoff * windowSize / n, rounded down |
| PacketSlots.RemoveStored | jni/libspeex/jitter.c:376-391 | freeing a slot takes one packet out of the store |
| PacketSlots.EarliestIsEarliest | jni/libspeex/jitter.c:420-432 | the evicted packet is the earliest of all |
| PacketSlots.OldestIsOldest | jni/libspeex/jitter.c:475-500 | the first get syncs to the oldest packet |
| PacketSlots.FoundIffOverlaps | jni/libspeex/jitter.c:521-577 | for positive spans some search finds a packet exactly when it overlaps the span asked for |
| PacketSlots.ChosenOverlaps | jni/libspeex/jitter.c:521-577 | nothing is chosen exactly when nothing overlaps, and the choice overlaps |
| PacketSlots.ChosenInOrder | jni/libspeex/jitter.c:521-579 | in plain numbers: a packet at the pointer that lasts the whole span comes before one that covers it, that before one that reaches in, the first slot deciding; else one starting in the span |
| PacketSlots.BestStartIsBest | jni/libspeex/jitter.c:550-577 | the last search takes the earliest start and of equal ones the longest |
| JitterBuffers.JitterBuffer.constructor | jni/libspeex/jitter.c:272-294 | the state after init |
| JitterBuffers.JitterBuffer.Reset | jni/libspeex/jitter.c:297-326 | everything starts over; a pending interpolation stays |
| JitterBuffers.JitterBuffer.Put | jni/libspeex/jitter.c:368-462 | every other slot keeps its packet unless that ended by the pointer; the packet goes to the first slot then free, or in place of the earliest when all hold packets still to be played; stored and discarded packets balance exactly; reset after twenty losses, and statistics |
| JitterBuffers.JitterBuffer.FindPacket | jni/libspeex/jitter.c:521-577 | exact, covering, reaching in, earliest start: in that order |
| JitterBuffers.JitterBuffer.Get | jni/libspeex/jitter.c:465-678 | timestamp, span, sequence, user data, data and offset handed over for a packet, and status, timestamp and span for a loss, a pending interpolation or nothing to sync to; with the whole new state |
| JitterBuffers.JitterBuffer.GetAnother | jni/libspeex/jitter.c:680-713 | the first further packet of the timestamp last returned, field by field |
| JitterBuffers.JitterBuffer.RecordedTiming | jni/libspeex/jitter.c:393-401 | a late arrival, or a packet played, is recorded as its timestamp less the time it was due at and the margin, and not at all if it came before the first get |
| JitterBuffers.JitterBuffer.UpdateDelay | jni/libspeex/jitter.c:716-746 | the pointer moves by the estimate; moving back is owed as an interpolation |
| JitterBuffers.JitterBuffer.Tick | jni/libspeex/jitter.c:754-768 | next stop and progress: a tick loses progress if and only if the estimate is negative while an interpolation is owed, and then exactly that interpolation |
| JitterBuffers.JitterBuffer.RemainingSpan | jni/libspeex/jitter.c:770-779 | the same with the application's own figure |
| JitterRuns.GetIsHonest | jni/libspeex/jitter.c:521-675 | a searching get returns a packet if and only if a stored one overlaps, and it is such a one |
| JitterRuns.PlayedMovesOn | jni/libspeex/jitter.c:580-640 | playing never moves the pointer back |
| JitterRuns.EvictsEarliest | jni/libspeex/jitter.c:374-439 | a put throws a packet out that could still be played if and only if all slots held such packets before it, and then the earliest; every other one is still in its slot |
| JitterRuns.Round | jni/libspeex/jitter.c:368-768 | puts, one get and a tick never lose progress |
| JitterRuns.Rounds | jni/libspeex/jitter.c:368-768 | over any sequence of such rounds progress never falls |
| JitterRuns.PlayFromInit | jni/libspeex/testjitter.c:25-47 | the fill test for every step, start and length: get k returns packet k, timestamp start + k*span, with its data if it fits, and no tick adjusts the delay |
| JitterRuns.Silence | jni/libspeex/testjitter.c:61-65 | during a silence of any length every get is a loss that moves on by the concealed span |
| JitterRuns.Resync | jni/libspeex/jitter.c:402-407 | after more than twenty losses the next packet put is the next one played, field by field |
| JitterRuns.FrozenSender | jni/libspeex/testjitter.c:49-74 | the frozen-sender test for every stream and every silence over twenty: the packet put then is handed over field by field |
| JitterSetback.Setback | jni/libspeex/jitter.c:368-768 | a run from init, for every start, every step size and all latenesses of whole steps a 16-bit timing holds, the second no more than the first: two ticks adjust for late packets with no get between them, and progress falls by the first adjustment |
| PitchSearch.InnerProd | jni/libspeex/ltp.c:59-74 | the correlation of the whole blocks of four |
| PitchSearch.PitchXcorr | jni/libspeex/ltp.c:142-151 | the correlation of every lag, stored from the longest down |
| PitchSearch.WindowSlides | jni/libspeex/ltp.c:232-238 | moving the window back trades one sample for another |
| PitchSearch.SlidingEnergy | jni/libspeex/ltp.c:230-238 | the in-place recurrence, clamp included |
| PitchSearch.SlidIsEnergy | jni/libspeex/ltp.c:230-238 | for lengths in blocks of four every slid energy is the direct one and the clamp never acts |
| PitchSearch.BlocksOnly | jni/libspeex/ltp.c:59-74 | and for exactly those lengths: any other length already fails on a constant signal |
| PitchSearch.CrossMultiplied | jni/libspeex/ltp.c:263-265 | comparing products is comparing the quotients |
| PitchSearch.BeatsIsOrder | jni/libspeex/ltp.c:260-289 | the test is the order by gain, and an unused entry is always beaten |
| PitchSearch.LossIsDirect | jni/libspeex/ltp.c:230-265 | the order is that of corr^2/(energy+1) of each lag's own window |
| PitchSearch.PeriodIsLag | jni/libspeex/ltp.c:173-289 | a signal that repeats after T samples correlates with the window of lag T as with itself |
| PitchSearch.OpenLoopNbestPitch | jni/libspeex/ltp.c:173-289 | the first N lags of the stable sort by gain, and for lengths in whole blocks by the correlation with the window that many samples back, over its energy plus one; spare entries keep the first lag |
| LspArithmetic.WrapLinear | jni/libspeex/quant_lsp.c:71-302 | storing in 16 bits on the way does not change what is stored in the end |
| LspArithmetic.AgreeIff | jni/libspeex/quant_lsp.c:159-240 | encoder and decoder agree exactly when the 16-bit store took away a multiple of the scale |
| LspQuantizers.OrderedWeights | jni/libspeex/quant_lsp.c:71-95 | ordered frequencies never divide by zero; weights lie in 3..273 and closer neighbours weigh no less |
| LspQuantizers.WeightIs | jni/libspeex/quant_lsp.c:71-95 | for ordered frequencies a weight is 81920 over 300 plus the distance to the nearer neighbour |
| LspQuantizers.WeighableIff | jni/libspeex/quant_lsp.c:71-95 | for every frame of any order the weights never divide by zero if and only if no two neighbours are exactly 300 out of order with the other gap of one of the two at least as wide |
| LspQuantizers.DisorderDividesByZero | jni/libspeex/quant_lsp.c:71-95 | a frame of ten frequencies with one neighbour 300 too low and the other gap wider does divide by zero |
| LspQuantizers.DisorderMayBeHarmless | jni/libspeex/quant_lsp.c:71-95 | neighbours exactly 300 out of order between two gaps that are smaller still divide by nothing |
| LspQuantizers.Q15IsShift | jni/libspeex/quant_lsp.c:130-150 | the split 16x32 product is the exact product shifted, while squares fit in 30 bits |
| LspQuantizers.DistanceIsError | jni/libspeex/quant_lsp.c:98-156 | while nothing overflows the register holds the weighted squared error |
| LspQuantizers.FindBest | jni/libspeex/quant_lsp.c:98-156 | the first entry of least error, also when every error saturates; unless something overflows that is the sum of weight times squared error of each coefficient |
| LspQuantizers.Quantize | jni/libspeex/quant_lsp.c:98-156 | the best entry is taken off the vector |
| LspQuantizers.NbLeft | jni/libspeex/quant_lsp.c:159-211 | after all stages the residual is four times the quantization error |
| LspQuantizers.QuantNb | jni/libspeex/quant_lsp.c:159-211 | indices packed, each the best for the residual before it, and what the encoder keeps |
| LspQuantizers.QuantLbr | jni/libspeex/quant_lsp.c:242-281 | the same for the low-rate sub-modes |
| LspQuantizers.QuantHigh | jni/libspeex/quant_lsp.c:319-364 | the same for the high band |
| LspDecoders.UnquantNb | jni/libspeex/quant_lsp.c:213-239 | the sum the indices in the stream say |
| LspDecoders.UnquantLbr | jni/libspeex/quant_lsp.c:283-302 | likewise |
| LspDecoders.UnquantHigh | jni/libspeex/quant_lsp.c:366-382 | likewise |
| LspDecoders.NbAgrees | jni/libspeex/quant_lsp.c:159-239 | for a frequency in the band the two agree if and only if four times the error fits 16 bits |
| LspDecoders.LbrAgrees | jni/libspeex/quant_lsp.c:242-302 | with twice the error at the low rates |
| LspDecoders.HighAgrees | jni/libspeex/quant_lsp.c:319-382 | and in the high band |
| LspDecoders.NbRoundTrip | jni/libspeex/quant_lsp.c:159-239 | quantize, send, rebuild: agreement coefficient by coefficient |
| LspDecoders.LbrRoundTrip | jni/libspeex/quant_lsp.c:242-302 | likewise at the low rates |
| LspDecoders.HighRoundTrip | jni/libspeex/quant_lsp.c:319-382 | likewise in the high band |
| LspRanges.NbByDistance | jni/libspeex/quant_lsp.c:159-239 | for all books and indices: a frequency from 1080 below to 1023 above its linear place is rebuilt as the encoder kept it; one over 15303 above or 15360 below never is |
| LspRanges.NbBoundsAreExact | jni/libspeex/quant_lsp.c:159-239 | and no wider range holds of all books, coefficient by coefficient |
| LspRanges.LbrByDistance | jni/libspeex/quant_lsp.c:242-302 | at the low rates -10288 to 10239, and 22479 or -22528 |
| LspRanges.LbrBoundsAreExact | jni/libspeex/quant_lsp.c:242-302 | likewise exact |
| LspRanges.HighByDistance | jni/libspeex/quant_lsp.c:319-382 | the same in the high band |
| LspRanges.HighBoundsAreExact | jni/libspeex/quant_lsp.c:319-382 | likewise exact |
| LspRanges.NbCanDisagree | jni/libspeex/quant_lsp.c:159-239 | whatever the books, an ordered frame in the band exists that, quantized, sent and rebuilt, differs |
| LspRanges.LbrCanDisagree | jni/libspeex/quant_lsp.c:242-302 | likewise at the low rates |
| LspRanges.HighCanDisagree | jni/libspeex/quant_lsp.c:319-382 | and in the high band from order eight on |

## Left out

- Inline assembly and SSE versions of the loops; only the portable C is modelled.
- mdf.c, preprocess.c, vbr.c, scal.c, filterbank.c and stereo gains: tuned heuristics without an exact statement to prove.
- lpc.c, the root search and margins of lsp.c, math_approx.h and pseudofloat.h: approximate by design.
- Codebook and sinc table contents: any table of the right size and range stands for them.
- The fixed-point FFT, the packed kiss_fftr and kiss_fftri, and the values of cos and sin: twiddles are known by their laws.
- KissFft.KfBlock: one column loop for all radices stands for the block and column loops inside each kf_bfly function.
- RealFft.PackPairs: the pointer casts between samples and complex numbers become copies.
- Rounding in the float build, and 32-bit overflow in the resampler's rate products.
- Resampling.Resampler.Process: one channel, unit strides and the direct single-precision form; no interpolating filters, no magic samples, no change of rate or quality in mid-stream.
- BitStream.SpeexBits.Pack: bytes of eight bits, widths up to 32; packing after a final write and a terminator on a full borrowed buffer are excluded.
- speex_bits_read_whole_bytes and the flush it uses.
- FrameCodec.NbEncode: signal analysis is an input, as the choices it makes; encode_submode is on, and the open-loop pitch margin is the zero all mode tables have.
- FrameCodec.SbEncode: the field values of a layer are an input.
- FrameStream.InbandHandler: a registered callback is the number of bits it takes and its status; callbacks that move the reader back are excluded, and a callback that takes more or fewer bits than the request carries leaves the reader where it stopped.
- FrameSession.Receive: a packet is one encoder's frames, without in-band requests between them.
- FixedOverflow.AgreesIffFits: an accumulator a whole turn or more out of range, which may wrap to the right rail by chance.
- CodebookCoding.SplitCbSearchShapeSign: books with at least six entries, which all tables have; the single-survivor search packs its indices after the search instead of during it, the same bits in the same order.
- The fixed-point codebook search: of that build only what is done with the indices found is modelled.
- noise_codebook_quant and noise_codebook_unquant: random excitation.
- PitchSearch.OpenLoopNbestPitch: the float build, without the open-loop gains, which take square roots.
- LspQuantizers.QuantNb, QuantLbr and QuantHigh: the fixed build; lsp_quant and lsp_weight_quant share one search method.
- The counts array of a timing buffer, which is never read, and 32-bit overflow of repeatedly shifted timings.
- JitterBuffers.JitterBuffer.Put: timestamps are kept unwrapped, the comparisons staying the 32-bit ones; packets and arrival times are sequences the methods reassign, and packet data is copied as without a destroy callback.
- jitter_buffer_ctl and the other getters and setters; allocation failure and warnings.
- buffer.c: what is left beside overwriting is easy.
- The RedPhone, ZRTP, WebRTC and OpenSSL sources.
