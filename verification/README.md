# Verified models of musl's hard algorithms and of the ball controller

The repository holds a small SpiNNaker ball-balancing controller (`parallel/`) and the C library it
ships, musl 1.0.0. This project models the parts of both in which correctness is not obvious, in
Dafny 4.11, and proves what they are for. `dafny verify dfyconfig.toml` checks everything.

**Decimal-to-binary scanner** (`Scaling`, `DigitFractions`, `ScaledDigits`, `DigitRing`, `DecimalText`,
`Decfloat`, `DecfloatMeaning`, `DecfloatRounding`, `DecfloatExamples`). `decfloat` works on a circular buffer
of base-10^9 digits. The methods of `Decfloat` and `DigitRing` rewrite an array in place as the C loops do and
are proved against functions on digit sequences; `ScaledDigits` proves when each round keeps the value
2^e2 * 10^rp * 0.digits (an exact condition per round), that the loops end, and that they stop with a
significand of exactly LDBL_MANT_DIG bits; `DecfloatMeaning` relates all this to the number written in the
text, and `DecfloatRounding` shows that where digits or carries were lost, what is left still tells on which
side of the middle between two significands the number written lies. The two formats of `long double` are
values of `Format`.

**DES** (`DesTables`, `DesRows`, `Des`, `DesKey`, `DesMeaning`, `DesEncrypt`). Tables and loops as in the
source; every table row is shown to spread the bits of its index, so IP, FP, PC-1 and PC-2 become bit
permutations. Decryption undoes encryption, and complementing key and block complements the result, for
every block, key, salt and count, down to the 64-character interface of `setkey` and `encrypt`.

**Asynchronous I/O** (`Aio`, `AioSafety`, `AioMeaning`). Workers, waiters in `aio_suspend` and callers of
`lio_wait` as a state machine: one event per shared access, any number of threads, any interleaving. `seq`
is 32 bits wide; the exact condition under which a wake-up is lost is proved and reached by runs.

**Dynamic linker** (`Words`, `Tls`; `DepsModel`, `Deps`, `DepsLoad`; `InitFini`, `InitFiniSafety`,
`InitFiniMeaning`; `Lookup`). 64-bit alignment arithmetic with its wrap-around and the layout of
thread-local storage; the growing list that loads dependencies, with nodes linked by `next` and `prev`;
constructors and destructors under threads, nested loads and the conditional recursive lock, as a state
machine; and the two symbol tables against a linear scan.

**Streaming hashes** (`Streaming`, `StreamingMeaning`, `BlockFunctions`). One buffered state for SHA-256,
SHA-512 and MD5, with block length, length field and byte order as parameters and the block function as an
argument; the block functions of SHA-256 and MD5 against the standards.

**Integer scanner, exit handlers, bcrypt base-64** (`Intscan`, `Atexit`, `Bcrypt64`). The exit handlers may
register others while they run. `Wrappers` holds what several models share.

**Controller** (`Packets`, `Controller`). The packed messages between master and slaves, the averager that
keeps positions in range, and the mod-50 counter that discards repeats.

Results that differ from what the code or its interface promises are stated with a witness and, where the
code can meet the promise, with the exact condition:

- the early returns for small numbers ignore digits past the buffer (`EarlyReturnMeaning`, with the condition;
  `OverlongMisread`, texts above the middle of two 24-bit numbers that give the middle itself);
- words of trailing zeros turn an exact tie into more than one half (`TextFairIff`, with the condition;
  `TieBroken`, a text);
- a base-10^9 digit may become 10^9 (`RoundCanonicalIff`; `DigitOfBase`, from a text), and the merge in a full
  ring can lose a comparison (`UpStepSidesIff`; `CrowdedLosesSides`, from a text);
- a wake-up is lost exactly after a nonzero multiple of 2^32 completions (`LostWakeIff`, `WakeLost`), and a
  request whose thread could not be created reads as in progress until it is submitted again
  (`OrphanUntilResubmitted`, `RetryCompletes`);
- blocks above the thread pointer can overlap (`AboveDisjointIff`, `AboveOverlaps`), and names with one of
  fifteen stems, such as `lib.so` and `libx.so`, are taken for the C library itself (`WronglyReservedIff`,
  `LoadLibrary`);
- `__intscan` misses its clamp for two families of negative inputs (`FinalExactIff`, `NegativeOverflow`);
- a handler registered by a running exit handler may never be called: which handlers are called and when none
  is lost, for any registrations (`CalledIff`, `RunLosesNothingIff`, `OnlyReversedIff`), and in numbers when one
  handler registers others (`NestedCalledIff`, `OneNestedNever`, `TwoNestedIff`);
- a slave ignores a broadcast whose number is a nonzero multiple of fifty above the last one that arrived, that
  is, after it missed 49, 99 or so on in a row (`ExactlyOnceIff`).

## Model

| member | source | states |
|---|---|---|
| Decfloat.ConvertText | musl-1.0.0/src/internal/floatscan.c:58-244 | the whole run on an array used as a ring: every early return is the specified one, otherwise the ring holds the number read, aligned and scaled, with rp and e2 to match |
| Decfloat.ReadText | musl-1.0.0/src/internal/floatscan.c:77-124 | mantissa and exponent leave exactly the specified words, radix point and position |
| Decfloat.ReadMantissa | musl-1.0.0/src/internal/floatscan.c:80-108 | after any text the buffer holds the kept digits in groups of nine with the sticky mark, lrp and lnz as specified |
| Decfloat.SkipZeros | musl-1.0.0/src/internal/floatscan.c:80-85 | leading zeros on both sides of the point are skipped and counted |
| Decfloat.PutDigit | musl-1.0.0/src/internal/floatscan.c:94-101 | one digit extends the groups of nine by that digit |
| Decfloat.SkipDigit | musl-1.0.0/src/internal/floatscan.c:104-105 | a digit past the buffer only sets the low bit of word KMAX-4, and only if it is not zero |
| Decfloat.Complete | musl-1.0.0/src/internal/floatscan.c:146-156 | filling up the last group makes the buffer a window of whole digits starting at 0 |
| Decfloat.MidSizeReturn | musl-1.0.0/src/internal/floatscan.c:158-165 | the mid-size integer return is taken exactly when specified, with the specified factor |
| Decfloat.AlignRing | musl-1.0.0/src/internal/floatscan.c:167-183 | one pass over the ring gives the aligned number |
| Decfloat.UpscaleRound | musl-1.0.0/src/internal/floatscan.c:187-209 | one round of the upscale loop on the ring is one step of the specification, full ring included |
| Decfloat.UpscaleRing | musl-1.0.0/src/internal/floatscan.c:185-210 | the upscale loop ends and leaves the specified number in the ring |
| Decfloat.TestTop | musl-1.0.0/src/internal/floatscan.c:216-223 | the digit-by-digit comparison of the leading words with the table decides whether the number exceeds the window |
| Decfloat.DownscaleRound | musl-1.0.0/src/internal/floatscan.c:225-243 | one round of the downscale loop on the ring is one step of the specification |
| Decfloat.DownscaleRing | musl-1.0.0/src/internal/floatscan.c:212-244 | the downscale loop ends and leaves the specified number in the ring |
| Decfloat.ScaleRing | musl-1.0.0/src/internal/floatscan.c:167-244 | the three passes together compute Final of the number read |
| DecimalText.ScanExp | musl-1.0.0/src/internal/floatscan.c:31-55 | the exponent is the sign applied to the saturated value of all its digits, and failure is the absence of a digit |
| DecimalText.SaturatedMeaning | musl-1.0.0/src/internal/floatscan.c:48-52 | saturation changes only exponents beyond the clipping bound and keeps them beyond it |
| DecimalText.PackExact | musl-1.0.0/src/internal/floatscan.c:93-101 | grouping digits by nine does not change the fraction they denote |
| DigitRing.DividePass | musl-1.0.0/src/internal/floatscan.c:172-181 | the in-place division pass computes quotient digits, final carry and dropped leading zeros |
| DigitRing.MultiplyPass | musl-1.0.0/src/internal/floatscan.c:189-200 | the in-place multiplication pass computes the product digits, the final carry and the trimmed tail |
| DigitRing.StoreFront | musl-1.0.0/src/internal/floatscan.c:201-208 | a carry stored in front extends the window at its front end |
| DigitRing.MergeLast | musl-1.0.0/src/internal/floatscan.c:204-207 | with the ring full the last digit is OR-ed into its neighbour and the window shortened |
| DigitRing.AppendCarry | musl-1.0.0/src/internal/floatscan.c:238-243 | the carry of a division takes the slot behind the window or leaves a mark in its last digit |
| ScaledDigits.UpStepExactIff | musl-1.0.0/src/internal/floatscan.c:187-209 | a round of the upscale loop keeps the value exactly when its carry finds a free slot |
| ScaledDigits.DownStepExactIff | musl-1.0.0/src/internal/floatscan.c:225-243 | a round of the downscale loop keeps the value exactly when its carry is zero or finds a free slot |
| ScaledDigits.AlignExact | musl-1.0.0/src/internal/floatscan.c:167-183 | aligning keeps the value for every digit string and radix point |
| ScaledDigits.UpscaleExact | musl-1.0.0/src/internal/floatscan.c:185-210 | an upscale whose carries find slots keeps the value and keeps digits at most 10^9 |
| ScaledDigits.UpscaleRoomBound | musl-1.0.0/src/internal/floatscan.c:185-210 | one free slot for every nine places of rp below the window guarantees that no carry is lost |
| ScaledDigits.DownscaleExact | musl-1.0.0/src/internal/floatscan.c:212-244 | a downscale whose carries find slots keeps the value and keeps digits at most 10^9 |
| ScaledDigits.DownscaleRoomBound | musl-1.0.0/src/internal/floatscan.c:212-244 | a bound known beforehand, counted in places and net of the leading digits that drop out, on what guarantees an exact downscale |
| ScaledDigits.DownStepPlaces | musl-1.0.0/src/internal/floatscan.c:225-243 | a division by 2^sh takes up at most sh places, counting how often the last digit can still be halved |
| ScaledDigits.ShortHasRoom | musl-1.0.0/src/internal/floatscan.c:167-244 | a number of few enough words for the place of its radix point passes all three stages without loss, in either format |
| ScaledDigits.ExceedsIff | musl-1.0.0/src/internal/floatscan.c:214-223 | the comparison with the table is the comparison of the integer in front of the point with 2^LDBL_MANT_DIG |
| ScaledDigits.WindowExact | musl-1.0.0/src/internal/floatscan.c:212-244 | where the loops stop the digits in front of the point form an integer in [2^(LDBL_MANT_DIG-1), 2^LDBL_MANT_DIG), whatever was lost on the way |
| ScaledDigits.FinalExact | musl-1.0.0/src/internal/floatscan.c:167-244 | the three stages keep the value when every carry finds a slot |
| ScaledDigits.FinalSignificand | musl-1.0.0/src/internal/floatscan.c:167-244 | the value is 2^e2 times a significand of exactly LDBL_MANT_DIG bits plus the fraction behind it |
| ScaledDigits.PassCanonicalIff | musl-1.0.0/src/internal/floatscan.c:189-197 | a multiplication pass leaves proper base-10^9 digits exactly when the product at no position is 10^9 |
| ScaledDigits.RoundCanonicalIff | musl-1.0.0/src/internal/floatscan.c:187-209 | so does a whole round that finds a slot for its carry |
| DecfloatExamples.DigitOfBase | musl-1.0.0/src/internal/floatscan.c:185-197 | a text, 1862645150, whose first upscale round in the 53-bit format stores the digit 10^9 |
| ScaledDigits.MergeSidesIff | musl-1.0.0/src/internal/floatscan.c:204-207 | for all digits: the merge keeps the side of every integer that is even in the last place exactly when OR-ing the two last digits gives what OR-ing 1 would give |
| ScaledDigits.UpStepSidesIff | musl-1.0.0/src/internal/floatscan.c:187-209 | a round in a full ring keeps the number on its side of all of those exactly under that condition on its last two product digits |
| ScaledDigits.DownStepSides | musl-1.0.0/src/internal/floatscan.c:225-243 | the mark that a carry without a slot leaves in line 242 keeps the number on its side of every integer that is even in the last place |
| DecfloatExamples.CrowdedLosesSides | musl-1.0.0/src/internal/floatscan.c:58-209 | a text of 1125 digits that fits the buffer of the 53-bit format and loses a side in its third upscale round |
| DecfloatMeaning.StickyCompares | musl-1.0.0/src/internal/floatscan.c:103-106 | replacing a non-zero tail by the sticky bit keeps every comparison with thresholds that are even in the last kept place |
| DecfloatMeaning.KeptCompares | musl-1.0.0/src/internal/floatscan.c:87-107 | for texts of any length the kept words compare with every even threshold as the number written does |
| DecfloatMeaning.KeptExactIff | musl-1.0.0/src/internal/floatscan.c:87-107 | the kept words are the digits written exactly when the dropped ones are zero |
| DecfloatMeaning.ReadExactIff | musl-1.0.0/src/internal/floatscan.c:77-124 | the number read is the number written exactly when its digits fit the buffer |
| DecfloatMeaning.MidSizeExactIff | musl-1.0.0/src/internal/floatscan.c:158-165 | the mid-size return is the number written exactly when the digits past the buffer are zero, and otherwise below it |
| DecfloatMeaning.DecideDigitsMeaning | musl-1.0.0/src/internal/floatscan.c:131-165 | zero is returned exactly for zero, over- and underflow only beyond their powers of ten, and an exact return is the number if and only if its digits fit the buffer |
| DecfloatMeaning.EarlyReturnMeaning | musl-1.0.0/src/internal/floatscan.c:77-165 | the same from the text, for every early return |
| DecfloatExamples.OverlongMisread | musl-1.0.0/src/internal/floatscan.c:103-161 | a family of texts above the middle of two 24-bit numbers that are returned as the middle itself |
| DecfloatMeaning.ConversionExact | musl-1.0.0/src/internal/floatscan.c:58-244 | when digits fit and carries find slots, significand and fraction are exactly the number written |
| DecfloatRounding.DownscaleSides | musl-1.0.0/src/internal/floatscan.c:212-244 | whatever carries the downscale loses, the number keeps its side of every half of a unit of the significand it arrives at |
| DecfloatRounding.KeptSides | musl-1.0.0/src/internal/floatscan.c:87-107 | digits past the buffer leave the words kept on the side of the number written, for every integer even in the last word |
| DecfloatRounding.TextSides | musl-1.0.0/src/internal/floatscan.c:58-244 | from a text with any number of digits: the number arrived at lies on the side of the number written, for every half of a unit of the significand |
| DecfloatRounding.TailDecides | musl-1.0.0/src/internal/floatscan.c:58-244 | what stands behind the significand is zero, below, at or above one half, or below one, exactly as the number written lies |
| DecfloatRounding.RangeDecides | musl-1.0.0/src/internal/floatscan.c:58-244 | that holds for 774 digits over the range of the 53-bit format, 13419 over that of the extended one, and for any number of digits from 10^26 or 10^35 on |
| DecfloatRounding.TailQuarters | musl-1.0.0/src/internal/floatscan.c:266-277 | the test on the ring gives the specified number of quarters for what is behind the significand |
| DecfloatRounding.FairIff | musl-1.0.0/src/internal/floatscan.c:266-277 | the quarters say whether the tail is zero, below, at or above one half, except exactly for words of zeros behind nothing or one half and for digits of 10^9 that complete one half |
| DecfloatRounding.TextFairIff | musl-1.0.0/src/internal/floatscan.c:58-277 | from a text with any number of digits: the quarters are fair to the number written exactly outside those two cases |
| DecfloatExamples.TieBroken | musl-1.0.0/src/internal/floatscan.c:58-277 | a text of 28 digits midway between two numbers of 53 bits that goes on with three quarters because of its trailing zeros |
| DecfloatMeaning.ShortTextExact | musl-1.0.0/src/internal/floatscan.c:58-244 | a text with few enough digits for the place of its radix point is converted without loss, in either format |
| DecfloatMeaning.RangeTextExact | musl-1.0.0/src/internal/floatscan.c:58-244 | few enough are 207 digits over the whole range of the 53-bit format and 3600 over that of the extended one: the significand and what follows it are the number written |
| DecfloatMeaning.SaturationHarmless | musl-1.0.0/src/internal/floatscan.c:48-54 | clipping a huge exponent never changes what the scanner decides |
| Des.DoDes | musl-1.0.0/src/crypt/crypt_des.c:756-847 | the loops over tables, rounds and count compute the cipher that the other lemmas are about |
| Des.InitialPermutation | musl-1.0.0/src/crypt/crypt_des.c:765-774 | the nibble-table loop computes the bit permutation IP, for the skipped zero block too |
| Des.FinalPermutation | musl-1.0.0/src/crypt/crypt_des.c:833-846 | the nibble-table loop computes the bit permutation FP |
| Des.SixteenRounds | musl-1.0.0/src/crypt/crypt_des.c:780-827 | the round loop and the final swap are one pass |
| Des.RoundFunction | musl-1.0.0/src/crypt/crypt_des.c:789-818 | salted expansion, key addition and table lookups compute the round function |
| Des.FinalUndoesInitial | musl-1.0.0/src/crypt/crypt_des.c:765-846 | FP undoes IP on all 64 bits |
| Des.InitialUndoesFinal | musl-1.0.0/src/crypt/crypt_des.c:765-846 | IP undoes FP on all 64 bits |
| Des.RoundUndone | musl-1.0.0/src/crypt/crypt_des.c:785-825 | between swaps a round undoes itself, whatever the round function |
| Des.RoundsUndone | musl-1.0.0/src/crypt/crypt_des.c:780-827 | after n rounds of the reversed schedule the last n rounds are gone |
| Des.PassesUndone | musl-1.0.0/src/crypt/crypt_des.c:776-828 | count passes under the reversed schedule undo count passes |
| Des.CipherUndone | musl-1.0.0/src/crypt/crypt_des.c:756-847 | decryption undoes encryption for every block, key schedule, salt and count |
| DesKey.DesSetKey | musl-1.0.0/src/crypt/crypt_des.c:695-751 | the key-schedule loops fill the sixteen subkeys of the specification |
| DesKey.PermuteKey | musl-1.0.0/src/crypt/crypt_des.c:714-723 | the table loop computes the two 28-bit halves |
| DesKey.CompressKey | musl-1.0.0/src/crypt/crypt_des.c:738-747 | the table loop computes the two 24-bit subkey words |
| DesMeaning.FComplement | musl-1.0.0/src/crypt/crypt_des.c:789-818 | complementing data and key changes nothing in the output of the round function, for every salt |
| DesMeaning.PassesComplement | musl-1.0.0/src/crypt/crypt_des.c:776-828 | complementing block and subkeys complements the block after any number of passes |
| DesMeaning.ScheduleComplement | musl-1.0.0/src/crypt/crypt_des.c:695-751 | complementing the 64 key bits complements every subkey |
| DesMeaning.RotatedComplement | musl-1.0.0/src/crypt/crypt_des.c:733-736 | rotating complementary halves keeps the 28 bits that compression reads complementary |
| DesMeaning.DesComplement | musl-1.0.0/src/crypt/crypt_des.c:695-847 | complementing key and block complements the output, for every salt and count |
| DesEncrypt.SetupSalt | musl-1.0.0/src/crypt/crypt_des.c:677-693 | the mask is the mirror image of the low 24 bits and has no other bits |
| DesEncrypt.MirrorInjective | musl-1.0.0/src/crypt/crypt_des.c:677-693 | two salts have the same mask exactly when their low 24 bits agree |
| DesEncrypt.MirrorTwice | musl-1.0.0/src/crypt/crypt_des.c:677-693 | mirroring twice gives a 24-bit salt back |
| DesEncrypt.Encrypter.SetKey | musl-1.0.0/src/crypt/encrypt.c:17-29 | 64 characters become the key schedule of their low bits, most significant first |
| DesEncrypt.Encrypter.Encrypt | musl-1.0.0/src/crypt/encrypt.c:31-60 | the block is replaced by the cipher of its low bits, with the stored or the reversed schedule |
| DesEncrypt.ReadWord | musl-1.0.0/src/crypt/encrypt.c:38-43 | 32 characters are packed most significant bit first |
| DesEncrypt.WriteWord | musl-1.0.0/src/crypt/encrypt.c:56-59 | a word is written as 32 characters and nothing else of the block changes |
| DesEncrypt.EncryptUndone | musl-1.0.0/src/crypt/encrypt.c:31-60 | encrypt with the flag set undoes encrypt without it: every character keeps its low bit |
| DesEncrypt.EncryptFlipped | musl-1.0.0/src/crypt/encrypt.c:17-60 | flipping all key and block characters flips all result characters |
| AioSafety.StepKeeps | musl-1.0.0/src/aio/aio_suspend.c:13-57 | every access of any thread keeps the protocol invariant and the results of completed requests |
| AioSafety.RunKeeps | musl-1.0.0/src/aio/aio_suspend.c:13-57 | so does every interleaving of any length |
| AioMeaning.NoLostWake | musl-1.0.0/src/aio/aio_suspend.c:19-57 | a sleeper with a complete request and no wake-up pending slept a nonzero multiple of 2^32 completions after it read seq |
| AioMeaning.LostWakeIff | musl-1.0.0/src/aio/aio_suspend.c:37-57 | a waiter about to sleep while a listed request is complete and no wake-up for it is pending loses the wake-up exactly when that number is a nonzero multiple of 2^32 |
| AioMeaning.WakeReaches | musl-1.0.0/src/aio/aio_suspend.c:13-17 | a pending wake-up, when performed, reaches every sleeper |
| AioMeaning.WakeLost | musl-1.0.0/src/aio/aio_suspend.c:13-57 | for every nonzero multiple of 2^32 a run in which the wake-up is lost |
| AioMeaning.ResultFinal | musl-1.0.0/src/aio/aio_readwrite.c:47-52 | once __err is not EINPROGRESS, __err and __ret never change before the next submission |
| AioMeaning.ResultIsOutcome | musl-1.0.0/src/aio/aio_readwrite.c:47-50 | the stored result and error are those of the I/O call of that submission |
| AioMeaning.OrphanUntilResubmitted | musl-1.0.0/src/aio/aio_readwrite.c:86-90 | a block whose thread could not be created reads as in progress, with nobody at work on it, until it is submitted again and no longer |
| AioMeaning.RetryCompletes | musl-1.0.0/src/aio/aio_readwrite.c:47-90 | a second attempt whose thread is created completes with the result or the error of its I/O call |
| AioMeaning.SuspendResult | musl-1.0.0/src/aio/aio_suspend.c:32-35 | aio_suspend gives 0 only while a listed request is complete |
| AioMeaning.LioWaitResult | musl-1.0.0/src/aio/lio_listio.c:14-39 | lio_wait gives 0 or EIO only after it saw every listed request complete, and EIO exactly when it saw an error |
| AioMeaning.LioWaitNow | musl-1.0.0/src/aio/lio_listio.c:14-39 | if none was submitted again, all listed requests are still complete and EIO means one of them failed |
| Words.MaxP2IsMax | musl-1.0.0/src/ldso/dynlink.c:40 | MAXP2 on two powers of two is their maximum |
| Words.AlignRoundsUp | musl-1.0.0/src/ldso/dynlink.c:41 | ALIGN gives the next multiple of a power of two |
| Words.MaskOfWrapped | musl-1.0.0/src/ldso/dynlink.c:689-690 | masking a wrapped sum with align-1 takes its remainder by align |
| Tls.PlaceSuits | musl-1.0.0/src/ldso/dynlink.c:688-691 | the offset clears the previous blocks, is congruent to the image, and wastes less than the alignment |
| Tls.PlaceLeast | musl-1.0.0/src/ldso/dynlink.c:688-691 | no smaller offset clears the previous blocks with that congruence |
| Tls.AppIsPlace | musl-1.0.0/src/ldso/dynlink.c:1089-1091 | the formula for the program gives the same offset as the one for libraries |
| Tls.Layout.AddApp | musl-1.0.0/src/ldso/dynlink.c:1081-1094 | the first block is placed and the layout invariant established |
| Tls.Layout.AddLibrary | musl-1.0.0/src/ldso/dynlink.c:681-691 | one more block at the least suitable offset; all earlier blocks stay valid under the new alignment |
| Tls.Layout.UpdateTlsSize | musl-1.0.0/src/ldso/dynlink.c:941-949 | tls_size covers dtv, blocks, thread structure and twice the alignment, by less than one alignment more |
| Tls.Layout.CopyTls | musl-1.0.0/src/ldso/dynlink.c:864-898 | thread structure aligned and inside the memory, every dtv entry set, all blocks above the dtv |
| Tls.BlocksDisjoint | musl-1.0.0/src/ldso/dynlink.c:886-894 | the blocks of a thread are disjoint and end below the thread structure |
| Tls.BlockCongruent | musl-1.0.0/src/ldso/dynlink.c:886-894 | every block is congruent to its image modulo its alignment |
| Tls.AboveDisjointIff | musl-1.0.0/src/ldso/dynlink.c:683-686 | in the other layout any two blocks are disjoint exactly when the later padding and the modules between make up for the earlier padding, or it exceeds all that follows |
| Tls.AboveOverlaps | musl-1.0.0/src/ldso/dynlink.c:683-686 | two images of 32 bytes and where their blocks lie there, overlapping |
| DepsModel.WronglyReservedIff | musl-1.0.0/src/ldso/dynlink.c:539-562 | of all names with lib and a dot, those taken for the linker without being reserved are those with one of fifteen stems, the empty one included |
| Deps.Loader.AttachSelf | musl-1.0.0/src/ldso/dynlink.c:564-571 | the linker joins the list once, with the library that hangs on it |
| Deps.Loader.FindShortName | musl-1.0.0/src/ldso/dynlink.c:577-582 | the search along next finds a library with the short name, or there is none behind the head |
| Deps.Loader.FindIno | musl-1.0.0/src/ldso/dynlink.c:631-642 | the search along next finds the inode, or it is not loaded |
| Deps.Loader.Reuse | musl-1.0.0/src/ldso/dynlink.c:636-640 | a library found again is counted and gets a first short name only when it was searched for |
| Deps.Loader.Append | musl-1.0.0/src/ldso/dynlink.c:665-700 | a new library joins at the tail with all its fields, the list staying consistent |
| Deps.Loader.LoadFile | musl-1.0.0/src/ldso/dynlink.c:626-704 | the file is loaded, or the library that has its inode reused; it fails exactly when nothing can be had |
| Deps.Loader.LoadLibrary | musl-1.0.0/src/ldso/dynlink.c:526-705 | the result answers the name and joins the list at its end; a name taken for the linker gives the linker and loads nothing, whatever the search would find; failure leaves everything unchanged and happens exactly when the name cannot be had |
| Deps.ListConsistent | musl-1.0.0/src/ldso/dynlink.c:698-700 | next and prev undo each other along the list and the tail is its end |
| Deps.NoFileTwice | musl-1.0.0/src/ldso/dynlink.c:631-642 | no inode is loaded twice |
| DepsLoad.LoadNeeded | musl-1.0.0/src/ldso/dynlink.c:712-731 | the answers to the names of one library in DT_NEEDED order; they join the list and at run time deps in this order, one for each name when nothing failed |
| DepsLoad.LoadDeps | musl-1.0.0/src/ldso/dynlink.c:707-733 | the walk ends; the list becomes the old one and the answers in the order of the walk, library by library and name by name; deps is all of them at run time; without failure the list is closed under DT_NEEDED |
| DepsLoad.Startup | musl-1.0.0/src/ldso/dynlink.c:1098-1140 | from the program alone: the list is the program and the answers in the order of the walk, and closed under DT_NEEDED unless ldso_fail is set |
| DepsLoad.ClosedKept | musl-1.0.0/src/ldso/dynlink.c:711-732 | what was answered stays answered while the list grows |
| InitFiniSafety.EventKeeps | musl-1.0.0/src/ldso/dynlink.c:795-845 | every step of any thread keeps lock, flags, lists and history consistent |
| InitFiniMeaning.ConstructedOnce | musl-1.0.0/src/ldso/dynlink.c:814-845 | constructors of a library start at most once, and exactly for the libraries marked constructed |
| InitFiniMeaning.FlagExclusive | musl-1.0.0/src/ldso/dynlink.c:817-844 | no two threads are at the flag together, although the lock is taken only when there are several threads |
| InitFiniMeaning.LeaveComplete | musl-1.0.0/src/ldso/dynlink.c:822-843 | an activation leaves only when every library up to its start was constructed or is being constructed |
| InitFiniMeaning.QuietFinished | musl-1.0.0/src/ldso/dynlink.c:822-843 | with no activation left every constructor that started has ended |
| InitFiniMeaning.StepUnlessWaiting | musl-1.0.0/src/ldso/dynlink.c:814-845 | an activation is stuck only while another thread holds the lock |
| InitFiniMeaning.BegunGrows | musl-1.0.0/src/ldso/dynlink.c:824-829 | the order of construction only grows at its end |
| InitFini.DoFini | musl-1.0.0/src/ldso/dynlink.c:795-812 | the loop calls the constructed libraries of the list in list order |
| InitFiniMeaning.FiniIsReverse | musl-1.0.0/src/ldso/dynlink.c:795-812 | the destructors called are those of the libraries begun, each once, in reverse order |
| Lookup.SysvHash | musl-1.0.0/src/ldso/dynlink.c:134-143 | masking at the end gives the hash of the ABI (chapter 5, Hash Table) on every string |
| Lookup.FoldAgrees | musl-1.0.0/src/ldso/dynlink.c:140 | folding without clearing agrees with the ABI on the low 28 bits |
| Lookup.ComputeGnuHash | musl-1.0.0/src/ldso/dynlink.c:145-152 | the loop computes the multiplicative hash of the whole string |
| Lookup.SysvLookup | musl-1.0.0/src/ldso/dynlink.c:154-166 | finds a visible symbol of the name, or there is none |
| Lookup.GnuLookup | musl-1.0.0/src/ldso/dynlink.c:168-192 | finds a visible hashed symbol of the name, or there is none |
| Lookup.AnswerIsScan | musl-1.0.0/src/ldso/dynlink.c:154-192 | with unique visible names such an answer is that of a linear scan |
| Lookup.TablesAgreeIff | musl-1.0.0/src/ldso/dynlink.c:154-192 | the two tables agree on a name exactly when its symbol is not below those the GNU table covers |
| Streaming.Hasher.Update | musl-1.0.0/src/crypt/crypt_sha256.c:135-154 | after a piece of any length the state stands for the concatenation |
| Streaming.Hasher.Pad | musl-1.0.0/src/crypt/crypt_sha512.c:103-124 | the state becomes the fold of the block function over the message and its padding |
| Streaming.Hasher.WholeBlocks | musl-1.0.0/src/crypt/crypt_md5.c:150-151 | the loop folds every whole block of the piece |
| Streaming.StoreLength | musl-1.0.0/src/crypt/crypt_md5.c:100-108 | eight bytes of the length in the order of the format |
| Streaming.BlocksJoin | musl-1.0.0/src/crypt/crypt_sha256.c:135-154 | folding whole blocks and then the rest is folding everything |
| StreamingMeaning.HashParts | musl-1.0.0/src/crypt/crypt_sha256.c:86-154 | init, any updates and pad hash the concatenation with the standard padding |
| StreamingMeaning.PaddingIff | musl-1.0.0/src/crypt/crypt_sha512.c:103-124 | the padding is the standard one exactly when the bit length fits the 64 bits kept or the field has no more |
| StreamingMeaning.PaddingStandard | musl-1.0.0/src/crypt/crypt_sha256.c:86-107 | messages below 2^61 bytes get the standard padding |
| StreamingMeaning.PaddingInjective | musl-1.0.0/src/crypt/crypt_sha256.c:86-107 | different messages never have the same padded form |
| BlockFunctions.Sha256ProcessBlock | musl-1.0.0/src/crypt/crypt_sha256.c:43-84 | the block function of section 6.2.2 of FIPS 180-3 |
| BlockFunctions.ChooseAgrees | musl-1.0.0/src/crypt/crypt_sha256.c:25 | the macro is the Ch of the standard |
| BlockFunctions.MajorityAgrees | musl-1.0.0/src/crypt/crypt_sha256.c:26 | the macro is the Maj of the standard |
| BlockFunctions.Md5ProcessBlock | musl-1.0.0/src/crypt/crypt_md5.c:41-87 | the block function of section 3.4 of RFC 1321 |
| BlockFunctions.Md5FourSteps | musl-1.0.0/src/crypt/crypt_md5.c:58-81 | four operations with renamed registers are four rotating steps of the standard |
| BlockFunctions.AuxAgrees | musl-1.0.0/src/crypt/crypt_md5.c:21-24 | the four macros are the auxiliary functions of the standard |
| BlockFunctions.IndexExpressions | musl-1.0.0/src/crypt/crypt_md5.c:64-81 | the three index formulas run through the word orders of the standard |
| Intscan.IntScan | musl-1.0.0/src/internal/intscan.c:26-99 | spaces, sign, prefix and digits are read as specified; result and error are those of the number read |
| Intscan.Accumulate | musl-1.0.0/src/internal/intscan.c:64-98 | the two-phase loops give the clamped value of all the digits and consume them |
| Intscan.Decimal | musl-1.0.0/src/internal/intscan.c:65-68 | neither phase wraps, and the digits taken are all or the next does not fit |
| Intscan.PowerBase | musl-1.0.0/src/internal/intscan.c:71-75 | the same for powers of two with shift and or |
| Intscan.OtherBase | musl-1.0.0/src/internal/intscan.c:77-80 | the same for the other bases |
| Intscan.ShiftIsLog | musl-1.0.0/src/internal/intscan.c:70-71 | the test finds the powers of two, and the string lookup gives their logarithms |
| Intscan.ErangeIff | musl-1.0.0/src/internal/intscan.c:82-98 | ERANGE exactly when the number is outside its range |
| Intscan.FinalExactIff | musl-1.0.0/src/internal/intscan.c:82-98 | the result is the clamped value modulo 2^64 exactly when neither of two families of negative inputs is given |
| Intscan.NegativeOverflow | musl-1.0.0/src/internal/intscan.c:84-98 | a member of one family: strtoull of minus twenty nines gives 1 |
| Atexit.ExitList.Register | musl-1.0.0/src/exit/atexit.c:37-64 | the handler joins at the end; failure exactly when slot 31 is in use and no chunk can be allocated |
| Atexit.ExitList.RunAll | musl-1.0.0/src/exit/atexit.c:17-31 | the loops over chunks and slots call the handlers of the specification, whatever the handlers called register in turn |
| Atexit.ReverseOrder | musl-1.0.0/src/exit/atexit.c:17-31 | when no handler registers another, all run in reverse order of registration |
| Atexit.OnlyReversedIff | musl-1.0.0/src/exit/atexit.c:17-60 | exactly the handlers registered before run, in reverse order, if and only if no registration during the run needs a new chunk |
| Atexit.CalledOrLost | musl-1.0.0/src/exit/atexit.c:17-60 | whatever is registered during the run, each handler is called once or lost once |
| Atexit.CalledIff | musl-1.0.0/src/exit/atexit.c:17-60 | at any point of any run: a handler listed once and not registered again is called exactly when the scan has not passed its slot in the head or a new chunk is needed before the scan leaves that head |
| Atexit.RunLosesNothingIff | musl-1.0.0/src/exit/atexit.c:17-60 | all handlers are called exactly when after every call nothing stands in a passed slot of the head or a new chunk is needed in time |
| Atexit.NestedCalled | musl-1.0.0/src/exit/atexit.c:17-60 | when one handler registers any number of others, the calls of the whole run in order |
| Atexit.NestedCalledIff | musl-1.0.0/src/exit/atexit.c:17-60 | the j-th of them is called exactly when j is below a bound computed from their number and the slot |
| Atexit.OneNestedNever | musl-1.0.0/src/exit/atexit.c:17-60 | a single handler registered during the run is never called |
| Atexit.TwoNestedIff | musl-1.0.0/src/exit/atexit.c:17-60 | of two that one handler registers both are called when it stood in the last slot of a chunk, and otherwise neither |
| Bcrypt64.BfEncode | musl-1.0.0/src/crypt/crypt_blowfish.c:398-428 | the loop with its breaks writes the base-64 characters of all bytes |
| Bcrypt64.BfDecode | musl-1.0.0/src/crypt/crypt_blowfish.c:374-396 | the loop decodes the bytes wanted, or fails exactly when a character it needs is foreign |
| Bcrypt64.CharRoundTrip | musl-1.0.0/src/crypt/crypt_blowfish.c:353-363 | the two tables undo each other |
| Bcrypt64.RoundTrip | musl-1.0.0/src/crypt/crypt_blowfish.c:374-428 | decoding undoes encoding for every byte string |
| Bcrypt64.Reencoded | musl-1.0.0/src/crypt/crypt_blowfish.c:374-428 | encoding what was decoded gives the canonical form of the characters |
| Bcrypt64.DecodeSameIff | musl-1.0.0/src/crypt/crypt_blowfish.c:374-396 | two strings decode alike exactly when their canonical forms agree |
| Bcrypt64.SaltCanonical | musl-1.0.0/src/crypt/crypt_blowfish.c:712-714 | the salt written back is the encoding of the salt used |
| Controller.Averager.ComputePos | parallel/BallController.c:43-61 | the running sum is always the sum of the last sixteen accepted samples |
| Controller.PositionFits | parallel/BallController.c:53-54 | the mean stays within seven bits |
| Controller.Master.SendErr | parallel/network.c:151-174 | key and payload carry the fields without collision; the counter is the number of broadcasts modulo 50 |
| Controller.RecErr | parallel/network.c:177-202 | position and counter arrive exactly, the errors with their signs and less than 1/10000 nearer to zero |
| Controller.SendUpd | parallel/network.c:217-265 | the four values clipped and quantised, and the index, are the fields of key and payload |
| Controller.RecUpd | parallel/network.c:269-314 | the index arrives exactly, the clipped values with their signs, V within 1/1000 and A within 1/10000 |
| Packets.EncodeErrorKey | parallel/network.c:152-170 | the or-ed fields do not overlap |
| Packets.DecodeError | parallel/network.c:178-198 | the fields of any key and payload built that way are recovered |
| Packets.EncodeUpdateKey | parallel/network.c:232-260 | the or-ed fields of an update do not overlap |
| Packets.DecodeUpdate | parallel/network.c:269-282 | the fields of an update are recovered |
| Packets.RestoredClose | parallel/network.c:155-198 | a quantised value arrives with its sign and less than one step towards zero |
| Packets.KindsDistinct | parallel/BallController.c:92-112 | neither kind of message passes the other's test |
| Packets.CoreNumberUnique | parallel/network.h:8 | core numbers fit the index field and are unique |
| Controller.Slave.EventNode | parallel/BallController.c:92-108 | a packet is applied exactly when its counter differs from the last one |
| Controller.Listen | parallel/BallController.c:92-108 | a slave fed an in-order stream applies each broadcast once exactly when no two successive arrivals are a nonzero multiple of fifty apart |
| Controller.ExactlyOnceIff | parallel/BallController.c:92-96 | the same as a law of the mod-50 counter |

## Left out

- The rounding itself, the long-double assembly and hexadecimal input (`floatscan.c`, lines 246 to 265, 278 to 300 and `hexfloat`) are not part of this model: they are IEEE arithmetic. The scanner model ends with the significand and with what lines 266 to 277 make of the digits behind it.
- Stream push-back: texts are sequences of characters, a position says what was consumed, and the end of the input reads as -1.
- Aio: requests, waiters and control blocks are values of a state machine, not objects updated in place, because the property is about interleavings; the timeouts of `aio_suspend` are possible at any moment of a wait; notification after completion is not modelled; an I/O call is taken to fail with a positive errno other than EINPROGRESS.
- AioMeaning.NoLostWake: assumes that a block is not submitted again while a thread works on it, which POSIX demands of the caller; submitting it again after EAGAIN is part of the runs.
- InitFini: libraries and stacks of activations are values of a state machine for the same reason; constructors are not run but begin and end, and may load, enter and start threads in between; the removal of libraries after a failed load is not part of it.
- Deps.Loader.LoadLibrary: allocation failures, `ldd` output and the search itself are not modelled; the search is a function of the name and of the inodes whose search paths apply, and a file that cannot be mapped is absent from the finite map of files. Pointers between nodes are indices into a sequence.
- DepsLoad.Startup: no libraries are preloaded.
- DepsLoad.LoadDeps: a failure at run time ends the walk where the program jumps out; undoing the partial load is left to the caller and not modelled.
- Tls.Layout.CopyTls: copying the image bytes is not modelled, and the list has only the modules that have TLS, so `tls_id` is the index plus one. Addresses and sizes do not wrap around within one thread's memory.
- Late allocation in `__tls_get_addr`, relocation, ELF mapping and memory reclamation are not part of this model.
- Lookup.GnuLookup: the bloom filter is not read by the source either; the table is a well-formed one over the same symbols, and a corrupt table is not considered.
- Des.DoDes: the key schedule is a sequence of sixteen pairs of 24-bit words.
- `crypt` output formats, key derivation loops and self-tests of the crypt files, and the block function of SHA-512, which has the shape of SHA-256 with other constants, are not part of this model.
- Streaming.Hasher.Pad: `processblock` is an argument that maps a state and a block to a state.
- Bcrypt64: masks and shifts of single bytes are written as remainders and quotients, and the two tables as the ranges they list.
- Intscan.IntScan: the digit table is written as the ranges it lists.
- Atexit.ExitList.RunAll: what a handler registers is given beforehand, and registrations that fail are left out of it, since they leave the list alone; the lock is not modelled.
- Controller.RecErr: floating-point values are real numbers, so the bounds do not count the rounding of `float`; learning, motors, noise and routing are not modelled. 
- Controller.RecUpd: gives the decoded values; the source stores three of them in arrays and drops the one for V_y.
- `env/` and the older demo under `doc/` would only add easy members.
