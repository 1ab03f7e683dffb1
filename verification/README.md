# HEVC reconstruction kernels and picture buffers

This project models the parts of the libhevc common library that turn decoded coefficients
and reference samples into pictures, and the managers that hand out picture buffers, and
proves what they promise.

- **Inverse transform and reconstruction** of one component of interleaved chroma, 4, 8, 16
  and 32 points, 8-bit and high bit depth. `Butterfly`, `TransTable`, `EvenOdd` and `Rounding`
  build the even/odd butterfly and its rounding; `InverseSpec` states section 8.6.4.2 of H.265
  as two plain matrix products; `InverseTransform` holds the methods. Main results: the
  butterfly is the matrix product for every power of two (`FastIsDirect`), no sum leaves 32
  bits (the arrays hold `int32`), every stored coefficient is the cosine of its angle (`CosineLaw`),
  so that a single coefficient becomes a product of two cosines (`ImpulseResponse`), the stored
  matrices have the symmetries that this takes
  (`TableIsTransform`, `FastOnTables`), and every branch that the zero masks select gives the
  outcome of the full transform, whatever the scratch buffer held, in place or not, leaving the other
  component alone (`ItransRecon`, `HbdItransRecon`).
- **Deblocking.** `DeblkFilter` states the filters of section 8.7.2.5 without shortcuts;
  `DeblkLuma` and `DeblkChroma` hold the in-place edge functions; `Reorder`, `DeblkOrder` and
  `DeblkChromaOrder` lift them to pictures; `DeblkBuffer` and `DeblkCalls` tie sequences of luma
  calls on one buffer to the picture it holds, as `DeblkChromaOrder` does for chroma. Main results: steps are smoothed by exactly three eighths up to the threshold, ramps are
  kept, and every sample has its weight (`DeblkLaws`); the shortcuts are neutral; edges of a
  picture may be filtered in any order, stated of pictures (`OrderIrrelevant`) and of buffers
  (`FilterInAnyOrder`); and horizontal filtering is the transpose of vertical filtering, for luma
  and for chroma.
- **Intra prediction** of interleaved chroma. `IntraSubstitution` proves the block-size-specific
  reference fills against the one-sample-at-a-time process of section 8.4.4.2.2; `IntraSpec`
  states filtering, planar, DC and angular prediction; `IntraPrediction` holds the methods.
  Main results: each method computes its mode of the standard and nothing else changes; the
  extended reference of the negative angles is built exactly as far as it is read; mode m is
  the transpose of mode 36 - m on the mirrored reference; straight edges are continued exactly and
  every sample has its weight (`IntraLaws`); each pair is available by its own bit of the flag word
  (`AvailableBit`); predicted samples lie between the available neighbours.
- **Picture buffers.** `BufMgr`, `DpbMgr` and `DispMgr` hold the three managers as classes;
  `Runs` is the state machine of all three together, `Promises` its wider set of runs, and
  `Pictures` drives the real managers through it as the decoder does. Main results: the linked slots always form one chain through
  exactly the occupied slots (`DpbMgr.Manager.Valid` is kept by every method), the display manager is
  a priority queue that neither loses nor repeats a frame, no status word is ever 2
  (`RunStaysProper`), and over every run that sets the bits before the picture is listed or
  queued and gives back only what display has, a buffer that is handed out is in neither the
  reference list nor the display queue, and references have distinct buffers (`FreeIsNowhere`).
  If moreover REF is set and pictures are listed only while they are being decoded, and a picture
  that is being decoded is given back only with its REF bit (`Runs.Allowed`), a buffer is free if
  and only if its picture is finished, it is no reference, display neither waits for it nor has it,
  and the caller does not owe it to display (`FreeExactly`; whether a picture is finished is read off the history of calls,
  `DecodingIsUnfinished`). A caller that queues pictures before it reserves them for display, as
  the decoder does, never owes one, so no buffer is lost (`NoBufferLost`). The promises about
  order are needed: without them a buffer is lost for good (`ReservedPictureIsLost`), freed while
  display waits for it (`UnreservedExactly`), or handed out while its picture is unfinished
  (`ReleaseFreesExactly`, `UnfinishedPictureIsReused`).

Conventions. A picture or block lives in one array; a block is an offset and a stride, and rows
start at `Common.At(off, strd, y)`. Chroma is interleaved: the transforms step over every second
entry, the intra functions work on U/V pairs (their strides and offsets count pairs), and the
deblocking functions work on single samples. Flag words (`zero_cols`, `zero_rows`, `nbr_flags`)
are sequences of 32 bits, bit 0 first. Shifts to the right by a constant are floor divisions, which is what they
are on two's complement; shifts by a variable amount are `Common.Shr`. NULL pointers are `null`,
address 0 or slot -1. Values that the caller supplies from elsewhere (quantisers, picture order
counts, flags, decisions when to output) are parameters.

## Model

| member | source | states |
|---|---|---|
| Butterfly.ButterflyStep | common/ihevc_chroma_itrans_recon_32x32.c:785-882 | One butterfly stage: if the rows that are multiples of s are alternately symmetric and antisymmetric over w columns, the sums at k and at w - 1 - k are the even-class sum plus and minus the odd-class sum, for every number of rows |
| Butterfly.FastIsDirect | common/ihevc_chroma_itrans_recon_32x32.c:785-882 | For every power of two and every matrix with the hierarchical symmetry, the recursive even/odd butterfly equals the direct matrix-vector product, entry by entry |
| Butterfly.ZeroTail | common/ihevc_chroma_itrans_recon_32x32.c:138-450 | Rows of zeros past a prefix add nothing: the truncated sums of a branch are the full sums |
| Butterfly.TermsBound | common/ihevc_chroma_itrans_recon_32x32.c:788-882 | Every partial sum of 16-bit inputs over any residue class of at most 32 rows is below 90 * 2^15 * rows in magnitude, so it fits in 32 bits |
| TransTable.EntryMirrored | common/ihevc_trans_tables.c:321-355 | The matrices as stored, row by row, have the column symmetry at every stride of the butterfly: in the first n / s columns rows that are odd multiples of s are antisymmetric, even multiples symmetric |
| TransTable.EntryBounded | common/ihevc_trans_tables.c:147-355 | Every coefficient of the four stored matrices is at most 90 in magnitude |
| TransTable.Nested | common/ihevc_trans_tables.c:147-355 | Each stored row of a smaller matrix is how every second stored row of the next matrix begins |
| TransTable.TableIsTransform | common/ihevc_trans_tables.c:147-355 | All four stored tables meet what the butterfly and the 32-bit bounds need |
| TransTable.FastOnTables | common/ihevc_chroma_itrans_recon_32x32.c:785-882 | The recursive even/odd butterfly on each stored matrix is the plain product with it |
| TransCosine.CosineLaw | common/ihevc_trans_tables.c:147-355 | Every coefficient of every stored matrix: row r, column k of the n-point matrix is the scaled cosine of r * (2 * k + 1) parts of a turn, 4 * n to a turn, read off the separate row of 32 numbers at lines 317-320 by folding the angle to a quarter |
| EvenOdd.EvenOdd4 | common/ihevc_chroma_itrans_recon.c:142-150 | The 4-point e/o arrays recombine to the plain matrix product; every value fits in 32 bits |
| EvenOdd.EvenOdd8 | common/ihevc_chroma_itrans_recon_8x8.c:153-183 | The 8-point o/ee/eo/e arrays recombine to the plain matrix product; every value fits in 32 bits |
| EvenOdd.EvenOdd16 | common/ihevc_chroma_itrans_recon_16x16.c:642-697 | The 16-point o/eo/eeo/eee/ee/e arrays recombine to the plain matrix product; every value fits in 32 bits |
| EvenOdd.EvenOdd32 | common/ihevc_chroma_itrans_recon_32x32.c:785-874 | The 32-point five-level arrays recombine to the plain matrix product; every value fits in 32 bits |
| EvenOdd.ProdShort | common/ihevc_chroma_itrans_recon_32x32.c:451-766 | A product over the leading rows alone is the full product when the other rows are zero, and is zero when there are none |
| Rounding.StoreColumn | common/ihevc_chroma_itrans_recon_32x32.c:876-882 | First-stage rounding by 7 bits and clipping to 16 bits of e + o and e - o, written to one scratch row only, with 32-bit intermediate values |
| Rounding.StoreSamples | common/ihevc_chroma_itrans_recon_32x32.c:1114-1123 | Second-stage rounding, clipping and adding of the prediction of one row onto every second sample; nothing else changes, and prediction and destination may be the same row |
| InverseSpec.Recon | common/ihevc_chroma_itrans_recon_32x32.c:1114-1123 | A reconstructed sample always lies in 0 .. 2^bitDepth - 1 |
| InverseSpec.ColumnOutcome | common/ihevc_chroma_itrans_recon_32x32.c:776-784 | A column that is zero from some row on may be transformed from its leading rows; a zero column gives a zero scratch row, as the memset writes |
| InverseSpec.ClipNeutral | common/ihevc_chroma_itrans_recon_32x32.c:1116-1122 | Clipping the second-stage residual to 16 bits never changes the reconstructed sample |
| InverseSpec.SampleIsRecon | common/ihevc_hbd_chroma_itrans_recon_32x32.c:1004-1113 | The shift by 20 - bitDepth with its rounding constant and clips is the division of the standard followed by one clip |
| InverseSpec.NextRowUnchanged | common/ihevc_chroma_itrans_recon_32x32.c:1030-1123 | While rows are reconstructed in place, the predictions of the next row are still those of the start |
| InverseSpec.ReconstructedUnique | common/ihevc_hbd_chroma_itrans_recon_16x16.c:699-872 | The final destination is determined by source, predictions and old destination alone: mask branches, scratch content and, at bit depth 8, the choice between the 8-bit and the high-bit-depth function make no difference |
| InverseLaws.ImpulseResponse | common/ihevc_chroma_itrans_recon_32x32.c:785-1123 | A block with the single coefficient v in row r of column c: the sample at row y, column x moves by the cosine of c at x times the first-stage rounding of the cosine of r at y times v, rounded again, for every size, stride and bit depth |
| InverseLaws.ImpulseInter | common/ihevc_chroma_itrans_recon_32x32.c:785-882 | The first stage spreads such a coefficient over its own column only, along the cosine of its row |
| InverseLaws.Stage1Nearest | common/ihevc_chroma_itrans_recon_32x32.c:876-882 | The first rounding is to the nearest 128th, up on ties, and saturates exactly outside 16 bits |
| InverseLaws.RoundedNearest | common/ihevc_hbd_chroma_itrans_recon_32x32.c:1004-1113 | Unless it is clipped, the second rounding moves the prediction by the nearest integer to the product over 2^(20 - bitDepth), up on ties |
| InverseTransform.Stage1 | common/ihevc_chroma_itrans_recon_32x32.c:138-208 | For truthful masks the first stage leaves the transformed columns in the scratch rows up to the limit, from whatever the scratch held before, clearing the rows of flagged columns while the mask is shifted along |
| InverseTransform.ScratchRow | common/ihevc_chroma_itrans_recon_32x32.c:213-450 | A second-stage sum over the first rows of the scratch buffer equals the sum over all of them |
| InverseTransform.PastLimit | common/ihevc_chroma_itrans_recon_32x32.c:131-136 | Columns past the chosen row limit transform to zero, so the scratch rows that are never written are never needed |
| InverseTransform.PastRows | common/ihevc_chroma_itrans_recon_32x32.c:138-451 | Rows past the branch limit are zero when the row mask is truthful |
| InverseTransform.Stage2 | common/ihevc_chroma_itrans_recon_32x32.c:886-1132 | The second stage writes the reconstruction of section 8.6.4.2 to every sample of the block, and changes neither the other component nor anything outside it |
| InverseTransform.ItransRecon | common/ihevc_chroma_itrans_recon_32x32.c:107-1133 | 8-bit transform of sizes 4 to 32: for all 16-bit coefficients, truthful masks, scratch contents and placements, in place or not, the block becomes the two-stage transform plus prediction, clipped, and nothing else changes |
| InverseTransform.HbdItransRecon | common/ihevc_hbd_chroma_itrans_recon_32x32.c:97-1123 | The same for every bit depth up to 15 with its shift and clip limit |
| InverseTransform.ClipLimitExact | common/ihevc_hbd_chroma_itrans_recon_32x32.c:123 | The clip limit survives its signed 16-bit variable if and only if the bit depth is at most 15 |
| DeblkFilter.ZeroTcNeutral | common/ihevc_deblk_edge_filter.c:131-135 | With tc equal to 0 no decision changes a sample, so the early return keeps the meaning |
| DeblkFilter.SmallTcNeutral | common/ihevc_deblk_edge_filter.c:181-185 | With tc at most 1 clearing dep and deq changes no sample |
| DeblkFilter.StrongBounds | common/ihevc_deblk_edge_filter.c:200-235 | The strong filter moves samples by at most 2 * tc and, without an 8-bit clip, keeps them in 0 .. 255 |
| DeblkFilter.WeakBounds | common/ihevc_deblk_edge_filter.c:236-266 | The weak filter moves p0 and q0 by at most tc, p1 and q1 by at most tc / 2, no others, inside 0 .. 255 |
| DeblkFilter.BetaTable | common/ihevc_deblk_tables.c:46-52 | The piecewise beta equals the stored table at every index |
| DeblkFilter.TcTable | common/ihevc_deblk_tables.c:59-67 | The piecewise tc equals the stored table at every index |
| DeblkLaws.WeakOnStep | common/ihevc_deblk_edge_filter.c:236-266 | On a flat step from a to b, for all bytes and tc: unless (3 * (b - a) + 4) / 8 reaches 10 * tc in magnitude, p0 and q0 move towards each other by exactly that, clipped to tc, and p1 and q1, where decided, by half of it, clipped to tc / 2; otherwise nothing changes |
| DeblkLaws.WeakSmooths | common/ihevc_deblk_edge_filter.c:236-266 | So the filtered samples lie between the two sides and the step is not widened |
| DeblkLaws.WeakKeepsRamps | common/ihevc_deblk_edge_filter.c:236-266 | A line in arithmetic progression is unchanged |
| DeblkLaws.DeltaWeights | common/ihevc_deblk_edge_filter.c:238-239 | Raising q0, p0, q1 or p1 by 16 moves the correction by 9, -9, -3 or 3; the outer four samples have no influence |
| DeblkLaws.SideWeights | common/ihevc_deblk_edge_filter.c:245-265 | The weights of the samples beside the edge in their own correction, and that Q is corrected like P with the sides exchanged |
| DeblkLaws.StrongWeights | common/ihevc_deblk_edge_filter.c:200-235 | Each of the eight samples, raised alone, moves each filtered sample of P by its number of eighths |
| DeblkLaws.StrongTurned | common/ihevc_deblk_edge_filter.c:200-235 | The strong filter treats the two sides alike |
| DeblkLaws.StrongOnStep | common/ihevc_deblk_edge_filter.c:200-235 | A step becomes a slope of one, two and three eighths of it on either side, rounded to nearest and limited by 2 * tc |
| DeblkLaws.SlopeOrdered | common/ihevc_deblk_edge_filter.c:200-235 | That slope is monotone and stays between the two sides |
| DeblkLaws.DecideOnSteps | common/ihevc_deblk_edge_filter.c:151-186 | On two flat steps: filtered unless beta is 0, strongly if and only if beta is at least 8 and both steps are below two and a half tc, sides corrected if and only if beta is at least 6 |
| DeblkLaws.DecideOnRaised | common/ihevc_deblk_edge_filter.c:137-186 | One sample off a flat line, at each of the eight places: all three decisions exactly, from its activity |
| DeblkLaws.DecideTurned | common/ihevc_deblk_edge_filter.c:137-186 | Exchanging the sides exchanges the decisions about them |
| DeblkFilter.FilterLineBytes | common/ihevc_deblk_edge_filter.c:190-282 | Whatever the decisions, a filtered line of bytes is a line of bytes, so filtering can follow filtering |
| DeblkLuma.ShortNeutral | common/ihevc_deblk_edge_filter.c:137-186 | The decisions with their shortcuts filter every line as the decisions of the standard do |
| DeblkLuma.RowVert | common/ihevc_deblk_edge_filter.c:190-281 | One row: the samples across the edge become the filtered line, no other sample changes |
| DeblkLuma.LumaVert | common/ihevc_deblk_edge_filter.c:98-285 | All four rows of the segment become the filtered lines of section 8.7.2.5 for decisions taken before filtering; columns outside -3 .. 2 are unchanged; the buffer holds bytes again |
| DeblkLuma.LumaHorz | common/ihevc_deblk_edge_filter.c:335-545 | The same for four columns of a horizontal edge |
| DeblkOrder.GatherUnaffected | common/ihevc_deblk_edge_filter.c:137-282 | Filtering one edge leaves every sample that another edge of the 8-sample grid reads |
| DeblkOrder.Commute | common/ihevc_deblk_edge_filter.c:190-282 | Filtering two different vertical edges of the grid commutes |
| DeblkOrder.CommuteHorz | common/ihevc_deblk_edge_filter.c:436-543 | Filtering two different horizontal edges of the grid commutes |
| DeblkBuffer.VertCall | common/ihevc_deblk_edge_filter.c:98-285 | A call on the picture buffer is the step on the picture it holds: whole picture, filtered rows and all others |
| DeblkBuffer.HorzCall | common/ihevc_deblk_edge_filter.c:335-545 | The same for horizontal edges |
| DeblkOrder.HorzIsTransposedVert | common/ihevc_deblk_edge_filter.c:335-545 | Horizontal filtering of the transposed picture is the transpose of vertical filtering, for all samples and parameters |
| DeblkOrder.StepsOrderly | common/ihevc_deblk_edge_filter.c:98-545 | Luma steps at different positions commute in every picture, and a step at a vertical edge is, transposed, the step at the turned horizontal edge |
| Reorder.OrderIrrelevant | common/ihevc_deblk_edge_filter.c:98-798 | For luma and chroma alike: for any picture size and any list of distinct edges of one direction, every order of filtering gives the same picture |
| Reorder.PictureTransposed | common/ihevc_deblk_edge_filter.c:98-798 | For luma and chroma alike: for any picture size and any list of edges, filtering vertical edges one after the other is, transposed, filtering the turned horizontal edges of the transposed picture |
| DeblkCalls.FilterEdges | common/ihevc_deblk_edge_filter.c:98-545 | A sequence of calls on one buffer, at any list of grid edges of one direction, is the sequence of steps on the picture it holds, and leaves bytes |
| DeblkCalls.FilterInAnyOrder | common/ihevc_deblk_edge_filter.c:98-545 | Two equal buffers filtered at the same distinct edges, each in an order of its own, end equal |
| DeblkCalls.FilterTransposed | common/ihevc_deblk_edge_filter.c:98-545 | Two buffers with transposed pictures still hold transposed pictures after a vertical call on one and the horizontal call at the turned edge on the other |
| DeblkChroma.ChromaDelta | common/ihevc_deblk_edge_filter.c:644-656 | The chroma correction is at most tc in magnitude |
| DeblkLaws.ChromaOnStep | common/ihevc_deblk_edge_filter.c:644-656 | On a flat step from a to b, for all bytes and tc, p0 and q0 move towards each other by exactly (3 * (b - a) + 4) / 8 clipped to tc |
| DeblkLaws.ChromaSmooths | common/ihevc_deblk_edge_filter.c:644-656 | So they lie between the two sides and the step is not widened |
| DeblkLaws.ChromaWeights | common/ihevc_deblk_edge_filter.c:644-656 | In an unclipped correction raising q1 or p1 by 8, or p0 or q0 by 2, counts -1, 1, -1 or 1 |
| DeblkLaws.ChromaLineOnStep | common/ihevc_deblk_edge_filter.c:640-672 | A step of pairs: each component moves by its own threshold, on the sides that are filtered, and nothing else changes |
| DeblkChroma.QpTable | common/ihevc_deblk_tables.c:72-78 | The piecewise chroma quantiser equals the stored table at every index |
| DeblkChroma.QpExactly | common/ihevc_deblk_edge_filter.c:625-629 | The 4:2:0 table with its continuations equals Min(qPi, 51) if and only if qPi is below 30 or is 57 |
| DeblkChroma.ThresholdExactly | common/ihevc_deblk_edge_filter.c:625-635 | The two quantisers give the same threshold for every tc offset from -6 to 6 if and only if qPi is below 30 or is 57 |
| DeblkChroma.SameThreshold | common/ihevc_deblk_edge_filter.c:625-635 | Outside 4:4:4, for such an index the threshold of a call is that of Min(qPi, 51) |
| DeblkChroma.ThresholdDiffers | common/ihevc_deblk_edge_filter.c:625-635 | At quantiser 42 with no offsets a call outside 4:4:4 filters with threshold 5, where Min(qPi, 51) gives 9 |
| DeblkChroma.ChromaZeroNeutral | common/ihevc_deblk_edge_filter.c:637-640 | With both thresholds 0 a call changes nothing, so the early return keeps the meaning |
| DeblkChroma.ChromaVert | common/ihevc_deblk_edge_filter.c:593-673 | Four rows of U/V pairs become the filtered lines, each component with its own threshold; nothing else changes |
| DeblkChroma.ColumnsArePairs | common/ihevc_deblk_edge_filter.c:773-797 | Eight columns filtered one component at a time are four filtered lines of pairs |
| DeblkChroma.ChromaHorz | common/ihevc_deblk_edge_filter.c:723-798 | The same outcome for a horizontal edge, computed by eight single-component columns |
| DeblkChromaOrder.VertCall | common/ihevc_deblk_edge_filter.c:593-673 | A vertical call on a buffer is the step on the picture of pairs it holds |
| DeblkChromaOrder.HorzCall | common/ihevc_deblk_edge_filter.c:723-798 | A horizontal call on a buffer is the step on the picture of pairs it holds |
| DeblkChromaOrder.HorzIsTransposedVert | common/ihevc_deblk_edge_filter.c:593-798 | On pictures of pairs, horizontal filtering of the transposed picture is the transpose of vertical filtering |
| DeblkChromaOrder.FilterTransposed | common/ihevc_deblk_edge_filter.c:593-798 | Two buffers with transposed pictures still hold transposed pictures after a vertical call on one and the horizontal call at the turned edge on the other |
| DeblkChromaOrder.Commute | common/ihevc_deblk_edge_filter.c:593-673 | Filtering two different vertical chroma edges of the grid of 8 pairs commutes |
| DeblkChromaOrder.CommuteHorz | common/ihevc_deblk_edge_filter.c:723-798 | Filtering two different horizontal chroma edges of the grid commutes |
| DeblkChromaOrder.StepsOrderly | common/ihevc_deblk_edge_filter.c:593-798 | Chroma steps at different positions commute in every picture of pairs, and a step at a vertical edge is, transposed, the step at the turned horizontal edge |
| DeblkChromaOrder.FilterEdges | common/ihevc_deblk_edge_filter.c:593-798 | A sequence of chroma calls on one buffer, at any list of grid edges of one direction, is the sequence of steps on the picture of pairs it holds, leaves bytes, and changes nothing past the picture |
| DeblkChromaOrder.FilterInAnyOrder | common/ihevc_deblk_edge_filter.c:593-798 | Two equal chroma buffers filtered at the same distinct edges, each in an order of its own, end equal |
| IntraSubstitution.SubstitutedIndependent | common/ihevc_chroma_intra_pred_filters.c:213-418 | What substitution yields does not depend on unavailable neighbours |
| IntraSubstitution.LeadingRun | common/ihevc_chroma_intra_pred_filters.c:227-249 | Every position before the first available one takes its value, so one fill does what the standard does sample by sample |
| IntraSubstitution.RepeatedRun | common/ihevc_chroma_intra_pred_filters.c:252-277 | A run of unavailable positions repeats the value before it |
| IntraSubstitution.FirstIdFirst | common/ihevc_chroma_intra_pred_filters.c:291-304 | The trailing-zero arithmetic finds the first available pair, at the start of a group, if and only if a consulted flag is set; otherwise it points past the reference |
| IntraSubstitution.GroupFlag | common/ihevc_chroma_intra_pred_filters.c:319-350 | The flag that a loop iteration consults is that of all pairs of its group, and iterations stay aligned on groups across the single top-left pair |
| IntraSubstitution.SubstituteBlocks | common/ihevc_chroma_intra_pred_filters.c:211-278 | One flag per neighbouring block: the reference becomes the sequential substitution of section 8.4.4.2.2 |
| IntraSubstitution.SubstituteGroups | common/ihevc_chroma_intra_pred_filters.c:279-418 | Group fills of the middle and large sizes: the reference becomes the sequential substitution of section 8.4.4.2.2 |
| IntraSubstitution.Load | common/ihevc_chroma_intra_pred_filters.c:170-209 | Every pair of a flagged area is loaded with its neighbour, rows of the left column upwards |
| IntraSubstitution.AvailableIsFlagged | common/ihevc_chroma_intra_pred_filters.c:162-209 | Every pair that a block size treats as available lies in an area that has been loaded |
| IntraSubstitution.AvailableBit | common/ihevc_chroma_intra_pred_filters.c:211-330 | For all sizes and formats a pair is available if and only if its own bit of the flag word is set: bit 8 and on along the top, 12 and on along the top-right, 7 and down along the left, 3 and down along the bottom-left, 16 at the corner, with 4 or 8 pairs to a bit |
| IntraSubstitution.SearchEndsExactly | common/ihevc_chroma_intra_pred_filters.c:211-391 | The search for the first available block or pair ends inside its array if and only if a flag that the block size consults is set; with a non-zero word of other flags it runs past the end |
| IntraSubstitution.UnconsultedWord | common/ihevc_chroma_intra_pred_filters.c:211-232 | Bit 0 alone is such a word for 4-point blocks: non-zero, and the search does not end |
| IntraSubstitution.RefSubstitution | common/ihevc_chroma_intra_pred_filters.c:126-420 | For all samples, sizes, chroma formats, bit depths, old contents and flag words with a consulted bit, the reference is the sequential substitution of the neighbours; with no flag it is the mid value; beyond it nothing changes |
| IntraSpec.AngleTable | common/ihevc_common_tables.c:178-180 | The angle table is the slope of the distance from the nearest pure direction, with its sign |
| IntraSpec.Inverse | common/ihevc_common_tables.c:226-227 | Every inverse angle is 256 * 32 / angle rounded to nearest |
| IntraSpec.InverseTable | common/ihevc_common_tables.c:490-492 | Both halves of the inverse table, indexed by mode - 11 and mode - 12, hold the inverse of the angle of the mode |
| IntraSpec.SideInRange | common/ihevc_chroma_intra_pred_filters.c:1135-1145 | Wherever the main reference is extended, the projected side sample is one of the nt samples next to the block |
| IntraSpec.InReach | common/ihevc_chroma_intra_pred_filters.c:1149-1171 | For every mode, size and sample, all reads of the extended main reference lie strictly above RefIdx and at most at 2 * nt |
| IntraLaws.BlendNearest | common/ihevc_chroma_intra_pred_filters.c:1341-1360 | 32 times an interpolated sample is within 16 of the weighted sum of its two neighbours, up on ties; weight 0 gives the first neighbour, weight 32 the second |
| IntraLaws.RampProjected | common/ihevc_chroma_intra_pred_filters.c:1149-1171 | Where the main edge is a straight ramp of 32 per sample and only non-negative positions are read, sample s along the edge, t away from it, is c + 32 * (s + 1) + (t + 1) * angle, for every angular mode |
| IntraLaws.RampContinued | common/ihevc_chroma_intra_pred_filters.c:1008-1363 | Modes 2 to 10 and 26 to 34 continue such a ramp exactly over the whole block |
| IntraLaws.AnglesTurn | common/ihevc_common_tables.c:178-187 | The angles turn monotonically from 32 at mode 2 over 0, -32 and 0 to 32 at mode 34 |
| IntraLaws.PlanarWeights | common/ihevc_chroma_intra_pred_filters.c:584-600 | Raising the left, top-right, top or bottom-left sample by 2 * nt moves a planar sample by nt - 1 - x, x + 1, nt - 1 - y or y + 1 |
| IntraLaws.PlanarFlat | common/ihevc_chroma_intra_pred_filters.c:584-600 | A flat reference predicts a flat block |
| IntraLaws.AverageMoves | common/ihevc_chroma_intra_pred_filters.c:584-705 | Planar and DC samples are rounded to the nearest 2 * nt-th, up on ties |
| IntraLaws.DcWeights | common/ihevc_chroma_intra_pred_filters.c:676-705 | Each of the 2 * nt samples beside the block, raised by 2 * nt, raises the DC value by 1, and no other sample has any influence |
| IntraLaws.SmoothWeights | common/ihevc_chroma_intra_pred_filters.c:495-505 | Smoothing keeps a straight stretch, and the three samples weigh one, two and one quarter |
| IntraLaws.SmoothedStraight | common/ihevc_chroma_intra_pred_filters.c:495-505 | A straight reference is unchanged by smoothing |
| IntraSpec.AngularTransposed | common/ihevc_chroma_intra_pred_filters.c:868-1363 | Mode m at row y, column x equals mode 36 - m at row x, column y on the mirrored reference, for modes 2 to 34 |
| IntraSpec.Diagonal | common/ihevc_chroma_intra_pred_filters.c:955-965 | Mode 18 copies along the diagonal through the corner |
| IntraSpec.PlanarTransposed | common/ihevc_chroma_intra_pred_filters.c:584-600 | Planar prediction commutes with transposition |
| IntraSpec.FilterFlagIsRule | common/ihevc_common_tables.c:506-513 | The filter table at bit log2(nt) - 2 is set if and only if the rule of section 8.4.4.2.3 filters, for every mode and size |
| IntraSpec.FilteredMirrored | common/ihevc_chroma_intra_pred_filters.c:457-512 | Filtering for mode m on a reference is filtering for mode 36 - m on the mirrored one |
| IntraSpec.SampleTransposed | common/ihevc_chroma_intra_pred_filters.c:554-1363 | For every mode from planar to 34, exchanging left column and top row transposes the predicted block |
| IntraSpec.SampleWithin | common/ihevc_chroma_intra_pred_filters.c:584-1360 | For every mode, each component of a predicted sample lies between the minimum and maximum of that component of the reference, so no result is truncated when stored |
| IntraSpec.FilteredWithin | common/ihevc_chroma_intra_pred_filters.c:495-505 | Filtering keeps the reference between the same bounds |
| IntraSpec.PredictionWithin | common/ihevc_chroma_intra_pred_filters.c:126-1363 | Substitution, filtering and prediction together stay between the bounds of the available neighbours alone; a constant neighbourhood predicts a constant block |
| IntraPrediction.PlanarPrediction | common/ihevc_chroma_intra_pred_filters.c:554-601 | The block becomes the planar prediction; nothing else changes |
| IntraPrediction.StretchesAreEdges | common/ihevc_chroma_intra_pred_filters.c:676-688 | Summing the left column and then the top row is the sum over both edges of section 8.4.4.2.5 |
| IntraPrediction.DcPrediction | common/ihevc_chroma_intra_pred_filters.c:642-705 | The block becomes the rounded average of both edges; nothing else changes |
| IntraPrediction.Horizontal | common/ihevc_chroma_intra_pred_filters.c:746-766 | Mode 10: the block becomes the angular prediction of section 8.4.4.2.6; nothing else changes |
| IntraPrediction.Vertical | common/ihevc_chroma_intra_pred_filters.c:808-827 | Mode 26: the same |
| IntraPrediction.Mode2 | common/ihevc_chroma_intra_pred_filters.c:868-894 | Mode 2: the same, by copying along the diagonal column by column |
| IntraPrediction.Mode18And34 | common/ihevc_chroma_intra_pred_filters.c:935-967 | Modes 18 and 34: the same, without building an extended reference |
| IntraPrediction.PositiveSample | common/ihevc_chroma_intra_pred_filters.c:1042-1052 | Interpolating on whole positions too gives the sample of the standard, and the extra read stays in the reference |
| IntraPrediction.Mode3To9 | common/ihevc_chroma_intra_pred_filters.c:1008-1056 | Modes 3 to 9: the block becomes the angular prediction; nothing else changes |
| IntraPrediction.Extend | common/ihevc_chroma_intra_pred_filters.c:1128-1145 | From an uninitialised temporary, the two loops write the main reference from just above RefIdx to nt, with every side read inside the reference and every write inside the temporary |
| IntraPrediction.NegativeSample | common/ihevc_chroma_intra_pred_filters.c:1149-1171 | All reads of the extended reference hit written entries, and the interpolation gives the sample of the standard |
| IntraPrediction.Mode11To17 | common/ihevc_chroma_intra_pred_filters.c:1097-1175 | Modes 11 to 17: the block becomes the angular prediction; nothing else changes |
| IntraPrediction.Mode19To25 | common/ihevc_chroma_intra_pred_filters.c:1217-1283 | Modes 19 to 25: the same |
| IntraPrediction.Mode27To33 | common/ihevc_chroma_intra_pred_filters.c:1325-1363 | Modes 27 to 33: the same |
| IntraPrediction.PredictedUnique | common/ihevc_chroma_intra_pred_filters.c:1023-1053 | Row order, column order and scratch content make no difference to the destination |
| IntraPrediction.RefFiltering | common/ihevc_chroma_intra_pred_filters.c:457-512 | The reference becomes the smoothed one exactly when the rule of section 8.4.4.2.3 says so, also when source and destination are one buffer; beyond it nothing changes |
| BufMgr.ReleaseBits | common/ihevc_buf_mgr.c:252-273 | On a proper status, releasing REF, DISP or both keeps the other reservation, frees the buffer exactly if there is no other, and leaves a proper status |
| BufMgr.MarkBits | common/ihevc_buf_mgr.c:304-323 | Setting REF, DISP or both keeps what was reserved; the status stays proper if and only if the buffer has been acquired |
| BufMgr.RunStaysProper | common/ihevc_buf_mgr.c:159-323 | Over every sequence of get_next_free, set_status on acquired buffers, release of REF, DISP or both and release_pics, every status stays 0, 1, 3, 5 or 7, so the assertions against 2 hold |
| BufMgr.Manager.Add | common/ihevc_buf_mgr.c:112-133 | Succeeds exactly for an id in range whose slot is empty or holds the same address, and then stores it |
| BufMgr.Manager.GetNextFree | common/ihevc_buf_mgr.c:159-183 | Takes the lowest buffer with status 0 and an address, sets it to DEC, and fails exactly when there is none |
| BufMgr.Manager.CheckFree | common/ihevc_buf_mgr.c:205-223 | Returns 1 exactly when get_next_free would succeed |
| BufMgr.Manager.Release | common/ihevc_buf_mgr.c:252-273 | Clears the masked bits of one status, and DEC with the last of the others; fails for ids out of range |
| BufMgr.Manager.SetStatus | common/ihevc_buf_mgr.c:304-323 | Sets the masked bits if none of them is set, otherwise fails and changes nothing |
| BufMgr.ReleasePics | common/ihevc_dpb_mgr.c:492-505 | Exactly the buffers of the prefix lose their reference bit, and are freed if it was their last; no buffer of the prefix keeps a REF bit |
| DpbMgr.Room | common/ihevc_dpb_mgr.c:139-150 | The chain holds at most 64 slots, and has 64 exactly when no slot is empty |
| DpbMgr.InsertLinked | common/ihevc_dpb_mgr.c:152-165 | Linking an empty slot in front of the head gives a chain through exactly the occupied slots, without cycles |
| DpbMgr.RemoveLinked | common/ihevc_dpb_mgr.c:230-245 | Taking any slot out of the chain gives a chain through the remaining occupied slots in the same order |
| DpbMgr.Manager.InsertRef | common/ihevc_dpb_mgr.c:118-165 | Fails exactly when the picture is listed and marked or the list is full, changing nothing; otherwise prepends the picture with its buffer id and mark |
| DpbMgr.Manager.Locate | common/ihevc_dpb_mgr.c:207-227 | Finds the first picture with the count, together with the slot linked to it |
| DpbMgr.Manager.DelRef | common/ihevc_dpb_mgr.c:195-246 | Removes the first picture with the count, keeps the order of the rest and releases the REF bit of its buffer; without a match nothing changes |
| DpbMgr.Manager.GetRefByPoc | common/ihevc_dpb_mgr.c:341-366 | The first picture of the list with the count, or NULL exactly when there is none |
| DpbMgr.Manager.GetRefByPocLsb | common/ihevc_dpb_mgr.c:394-418 | The first picture of the list with the low bits, or NULL exactly when there is none |
| DpbMgr.Manager.GetRefByNearestPoc | common/ihevc_dpb_mgr.c:274-313 | The closest used picture that strictly precedes, if there is one; otherwise the closest used picture; among equally distant ones that in the lowest slot; NULL exactly when every used picture is 0x7FFFFFFF away, so the slot scan agrees with the list |
| DispMgr.NextIsFirst | common/ihevc_disp_mgr.c:161-179 | The scan finds a frame of minimum count, the highest id among equals, and finds none exactly when none waits |
| DispMgr.TakenRemoves | common/ihevc_disp_mgr.c:181-187 | Taking removes just that frame from the queue |
| DispMgr.AddedInserts | common/ihevc_disp_mgr.c:107-125 | A successful add inserts just the new frame |
| DispMgr.AddedProper | common/ihevc_disp_mgr.c:107-125 | A successful add keeps slots whole if and only if address and count are both given or both absent |
| DispMgr.AddConservesExactly | common/ihevc_disp_mgr.c:107-125 | After any log whose account is right, accepting a frame keeps the account (accepted is returned plus waiting) if and only if it has an address and a count other than the reserved one |
| DispMgr.DefaultPocIsLost | common/ihevc_disp_mgr.c:107-187 | After any log, an accepted frame with the reserved count is never returned by whatever follows, and if it has an address its slot is never free again |
| DispMgr.ReturnsAreReal | common/ihevc_disp_mgr.c:161-187 | Over every continuation earlier returns stay, and no frame with the reserved count is returned |
| DispMgr.Conservation | common/ihevc_disp_mgr.c:107-187 | Over every interleaving of add and get, what was accepted is what was returned plus what still waits, as multisets |
| DispMgr.DrainSorted | common/ihevc_disp_mgr.c:150-187 | Draining returns waiting frames only, each at most once, in non-decreasing order of their counts |
| DispMgr.DrainComplete | common/ihevc_disp_mgr.c:150-187 | As many gets as frames wait, or more, return all of them |
| DispMgr.Manager.Add | common/ihevc_disp_mgr.c:107-125 | Succeeds exactly for an id in range whose slot is empty, and then stores the frame |
| DispMgr.Manager.Get | common/ihevc_disp_mgr.c:150-187 | Returns and clears the first frame of the queue, or NULL and -1 when none waits |
| Runs.FreeIsUnused | common/ihevc_buf_mgr.c:167-180 | Under the invariant a buffer with status 0 is in neither the reference list nor the display queue, display does not hold it, and it is not one that was acquired and not inserted since |
| Runs.AcquireView | common/ihevc_buf_mgr.c:159-183 | get_next_free makes exactly the first free buffer busy and being decoded; who holds any other buffer is unchanged |
| Runs.MarkView | common/ihevc_buf_mgr.c:304-323 | Setting REF, DISP or both of an acquired buffer makes those reservations unless one of them was made before, and changes nothing else about any buffer |
| Runs.InsertView | common/ihevc_dpb_mgr.c:152-165 | Insertion makes exactly that buffer a reference that is no longer being decoded; no reservation changes |
| Runs.QueueView | common/ihevc_disp_mgr.c:107-125 | Queueing makes exactly that buffer wait for display |
| Runs.ShowView | common/ihevc_disp_mgr.c:150-187 | Taking the next frame hands exactly that waiting buffer over to display |
| Runs.ReleaseView | common/ihevc_buf_mgr.c:263-270 | Giving a shown buffer back ends its DISP reservation and frees it exactly if it is not reserved as a reference, whether or not its picture is still being decoded |
| Runs.DropView | common/ihevc_dpb_mgr.c:195-246 | Removing a reference ends its REF reservation and frees its buffer exactly if display has not reserved it |
| Runs.StepKeepsInv | common/ihevc_buf_mgr.c:159-323 | Every step that the caller may take keeps the invariant: proper status words, distinct references, whole display slots, and for each buffer that whoever holds it has reserved it |
| Runs.RunKeepsInv | common/ihevc_buf_mgr.c:73-323 | The invariant holds after every run that the caller may take, starting from empty managers |
| Runs.DecodingIsUnfinished | common/ihevc_buf_mgr.c:159-183 | After every sequence of steps, promised or not, the buffers being decoded into are those that some get_next_free handed out and no later insertion took |
| Runs.NextFreeIsUnused | common/ihevc_buf_mgr.c:167-180 | After every run of the narrower kind (`Runs.Allowed`), the buffer that get_next_free would return is in neither list nor queue, display does not have it, and its last picture has been inserted |
| Promises.FreeIsNowhere | common/ihevc_buf_mgr.c:167-180 | After every run that sets REF before a picture is listed, DISP before it is queued or, once display knows it, listed, and gives back only what display has: a free buffer, and the one get_next_free would return, is in neither list nor queue and display does not have it; references have distinct buffers; each status is 0, 1, 3, 5 or 7 |
| Promises.ListingSucceeds | common/ihevc_dpb_mgr.c:127-150 | After every such run, whenever a picture may be listed it is not listed and the list has room |
| Promises.InsertExactly | common/ihevc_dpb_mgr.c:127-165 | Listing a picture keeps the invariant if and only if its REF bit is set, it is not listed and, if display knows it, its DISP bit is set |
| Promises.QueueExactly | common/ihevc_disp_mgr.c:107-125 | Queueing a picture into its empty slot keeps the invariant if and only if its count is not the reserved one, display does not have it, and its DISP bit is set or it is acquired and not listed yet |
| Promises.AllowedRunIsPromised | common/ihevc_buf_mgr.c:73-323 | Every run of the narrower kind is one of these |
| Promises.ShownUnfinished | decoder/ihevcd_decode.c:604-632 | A run that queues, shows and gives back a picture before it is finished is one of these and not of the narrower kind |
| Runs.UnclaimedIsOwed | common/ihevc_buf_mgr.c:304-323 | After every run a buffer is reserved for display without display waiting for it or having it, if and only if the caller set DISP at such a moment and has not queued the picture since |
| Runs.FreeExactly | common/ihevc_buf_mgr.c:263-270 | After every run, a buffer is free if and only if it was not acquired without being inserted since, it is no reference, display neither waits for it nor has it, and the caller does not owe it to display |
| Runs.NoBufferLost | decoder/ihevcd_utils.c:1443-1446 | If pictures are queued before they are reserved for display, as the decoder does, then after every run a buffer is free if and only if its picture is finished, it is no reference, and display neither waits for it nor has it |
| Runs.ReservedPictureIsLost | common/ihevc_buf_mgr.c:263-270 | That order is needed: for every table with a first buffer and every count, a run that reserves a picture and never queues it ends with a buffer that nobody holds and that is not free |
| Runs.TableRun | common/ihevc_buf_mgr.c:159-323 | Every run of the three managers is, for the buffer table, a run of the buffer manager alone |
| Runs.StatusNeverTwo | common/ihevc_buf_mgr.c:159-321 | After every run of the three managers each status is 0, 1, 3, 5 or 7, as a consequence for the buffer manager alone |
| Runs.InsertSucceeds | common/ihevc_dpb_mgr.c:127-150 | After every run of the narrower kind references have distinct buffers, and the conditions under which insertion fails do not hold for any picture being decoded |
| Runs.ReleaseFreesExactly | common/ihevc_buf_mgr.c:263-270 | Giving back a shown picture that is still being decoded frees its buffer, and breaks the invariant, if and only if its REF bit is not set |
| Runs.UnfinishedPictureIsReused | common/ihevc_buf_mgr.c:263-270 | For every table with a first buffer and every count, a run gives back such a picture: its buffer is the next to be handed out while the picture is unfinished, and marking the picture then gives status 2 |
| Runs.UnreservedExactly | common/ihevc_dpb_mgr.c:239-245 | Inserting a picture that display waits for or has, and dropping it, frees its buffer under display, and breaks the invariant, if and only if its DISP bit is not set |
| Runs.ReleasePicsExactly | common/ihevc_dpb_mgr.c:492-505 | Releasing the references of a prefix at once frees a listed buffer under the list if and only if it is in the prefix and not reserved for display; the invariant survives if and only if no buffer of the prefix is listed, or being decoded and not reserved for display |
| Runs.UnreservedPictureIsReused | common/ihevc_dpb_mgr.c:239-245 | A run that ends so: for every table with a first buffer and every count, the buffer is handed out while it still waits for display |
| Pictures.Pool.constructor | common/ihevc_buf_mgr.c:73-86 | Fresh managers over distinct picture structures start the state machine |
| Pictures.Pool.Acquire | decoder/ihevcd_utils.c:987-997 | Acquiring a picture is the run step Acquire; the buffer handed out is no reference and display does not have it; it fails exactly when no buffer is free |
| Pictures.Pool.Recount | decoder/ihevcd_utils.c:1001-1002 | Giving the structure of a fresh picture a new count changes no reference |
| Pictures.Pool.Queue | decoder/ihevcd_utils.c:1443-1446 | Adding a picture to the display manager is the run step Queue |
| Pictures.Pool.Begin | decoder/ihevcd_utils.c:987-1446 | Beginning a picture is the run step Acquire then Queue, and changes no reference; it fails exactly when no buffer is free |
| Pictures.Pool.Reserve | decoder/ihevcd_decode.c:1002-1010 | Setting a status bit, REF of a picture being decoded or DISP of any busy buffer, is the run step Mark |
| Pictures.Pool.Insert | decoder/ihevcd_decode.c:1012-1015 | Inserting the current picture always succeeds and is the run step Insert |
| Pictures.Pool.Finish | decoder/ihevcd_decode.c:1002-1015 | Setting REF, setting DISP and inserting is the run of those three steps, whatever was set before, and keeps the invariant |
| Pictures.Pool.Show | decoder/ihevcd_utils.c:1450-1457 | Taking the next frame for display is the run step Show |
| Pictures.Pool.Release | decoder/ihevcd_decode.c:1017-1020 | Releasing DISP of a shown picture, which has its REF bit if it is still being decoded, is the run step Release |
| Pictures.Pool.Drop | decoder/ihevcd_ref_list.c:495-501 | Dropping a reference through the real list is the run step Drop |

## Left out

- TransTable.Stored: a row is written in two halves; the transposed, interleaved and DST tables are not part of this model.
- Where the code repeats one computation in several inlined copies, the model has one method with a parameter: the nine branch pairs of the 16- and 32-point transforms differ only in how many leading rows each sum takes, and the two halves of each stage share `EvenOdd.EvenOddN`.
- InverseTransform.ItransRecon: destination and prediction either are different buffers or coincide with equal offsets and strides; buffers that overlap partially are not covered.
- InverseTransform.HbdItransRecon: bit depths above 15 are excluded, because the clip limit is kept in a signed 16-bit variable; `InverseTransform.ClipLimitExact` shows that 15 is exactly the last depth for which it is right.
- Overflow of 32-bit index and pointer arithmetic: strides and offsets are unbounded naturals here.
- IntraSubstitution.RefSubstitution: requires that a non-zero flag word has a bit set that the block size consults; `IntraSubstitution.SearchEndsExactly` shows that this is exactly when the search for the first available neighbour ends: otherwise the one-flag-per-block fill (`IntraSubstitution.UnconsultedWord`) reads past its five flags and the group fills past the reference. Raw casts between 8-bit and 16-bit views are modelled as copies of U/V pairs, so strides are even numbers of samples.
- IntraPrediction.RefFiltering: source and destination are the same array or different ones; partial overlap is not covered. The strong smoothing flag is read and unused in the source and absent here.
- The table of function pointers that selects an intra function for a mode, and all SIMD and assembly variants.
- DeblkChroma.ChromaTc: the chroma quantiser of 4:2:0 is used for every format but 4:4:4, as the code does; section 8.6.1 of H.265 uses Min(qPi, 51) for 4:2:2 as well. `DeblkChroma.ThresholdExactly` says when that makes no difference, `DeblkChroma.ThresholdDiffers` gives an input where it does.
- Long-term reference marking, and any change of `u1_used_as_ref` by other code between calls: the list functions read the mark but only insertion sets it here.
- `ihevc_dpb_mgr_reset`: it dereferences every slot, so it is only defined when all 64 slots are occupied. `ihevc_dpb_mgr_del_ref` on an empty list dereferences NULL; `DpbMgr.Manager.DelRef` requires a non-empty list.
- DpbMgr.Manager.GetRefByNearestPoc: requires that differences of counts and their magnitudes fit in 32 bits; a difference of exactly 0x7FFFFFFF counts as no picture, as in the code.
- `u4_active_buf_cnt`, `u4_last_abs_poc` and the functions that report the number of active buffers: the fields are never updated.
- BufMgr.Manager.Release: negative buffer ids index outside the table in the code and are excluded here by their type, as in the other functions that take an id.
- Runs.Allowed: a picture that is still being decoded may be given back only once it has its REF bit. On its usual path the decoder sets REF and DISP and inserts before it releases (decoder/ihevcd_decode.c:1002-1020). A picture that was queued (decoder/ihevcd_utils.c:1443-1446) by a call that returned early with an error (decoder/ihevcd_utils.c:1489-1491, decoder/ihevcd_decode.c:911-912) may reach flush mode, which shows and releases it (decoder/ihevcd_decode.c:604-632), without REF: `Runs.UnfinishedPictureIsReused` is then about the decoder itself, and `Promises.FreeIsNowhere` is what remains true. In shared display mode the application releases (decoder/ihevcd_api.c:3292).
- Runs.Next: `ihevc_dpb_mgr_release_pics` is no step of these runs, since it releases references under the list; `Runs.ReleasePicsExactly` says what it does to any state. Adding buffers to the table after the start, and buffers that an application owns in shared display mode before they are first acquired.
- Threads: the managers are called from one thread at a time.
- Inverse quantisation, the plain reconstruction and cross-component prediction loops, sample adaptive offset, weighted and inter prediction, entropy decoding, level and scan tables.
- The luma intra and luma transform files: same algorithms on non-interleaved samples, plus boundary filters that chroma does not have.
