# Verification of the CEP co-simulation algorithms

The Common Evaluation Platform is a system-on-chip test platform: drivers run on simulated or real cores, talk to
crypto and signal-processing blocks, and check them against software references. This project models the parts of it
that carry an algorithm or a protocol, and proves what each of them is for.

- **Fourier library** (`Arithmetic`, `Bits`, `Complexes`, `Trigonometry`, `Fourier`, `FourierTheory`, `RealSums`,
  `Radix2`, `Chirp`, `ChirpLimits`, `Fft`). The in-place radix-2 transform, Bluestein's transform for other lengths,
  the swapped-array inverse and convolution by transform, over exact complex numbers. The cosine and sine functions
  and pi are a parameter `Trig` with the few laws that are used (angle sums, unit circle, half turn, and that no
  angle strictly between zero and a full turn has cosine 1). The square `i * i` of the chirp table is a 64-bit
  product that wraps; this decides for which lengths the library is exact. For the transform, for the inverse after
  it and for the convolution alike these are the powers of two and every length up to 2^32, and no other. `RealSums`
  writes the results as sums of cosines and sines, which fixes the direction of each transform.
- **White-box cipher emulator** (`SboxTable`, `SboxField`, `Rounds`, `CipherBytes`, `BlockText`, `Aeees`). Key
  expansion, stock encryption, and encryption through S-boxes that fold the round keys in, with nested lists that are
  shared, deep-copied and changed in place. Both modes end in the same ciphertext for every key, plaintext and
  positive number of rounds. `CipherBytes` states each round, the key words and the texts byte by byte, and
  `SboxField` the S-box by inverses in the field, as FIPS 197 does.
- **Command capture and playback** (`Playback`, `PlaybackRanges`, `Capture`). The device is an arbitrary
  deterministic machine whose reads may change its state. A captured stream replays without a mismatch, whole or up
  to the single-loop mark, and also when it is filtered by address range on a bus that several devices share;
  neighbouring ranges split a stream between them.
- **Shared-memory mailbox** (`Mailbox`, `MailboxSafety`, `MailboxRuns`, `MailboxCalls`, `MailboxProgress`,
  `MailboxTargets`). Test threads, one simulator process per slot and the system daemon as a state machine whose
  steps read or write one shared field each. Commands are carried out exactly once, a call issues what its caller
  asked for and returns what the hardware answered, and a call that has begun can always still end. One offset field
  of a slot holds both the slot it asks and the slot that asks it; `MailboxTargets` says for which assignments of
  targets remote prints arrive: exactly those where a target that is a requester itself asks for its own requester.
- **Claiming of tests under a lock** (`TestClaim`, `TestClaimProgress`, `TestClaimLimits`). Four cores share nine
  tests through scratch registers and a test-and-set register; every bus access is a step. No test runs twice at a
  time, and a core that gets the lock claims the least test that is free for it.
- **Hash feeding** (`HashFeed`, `HashLayout`). A streaming driver and a whole-message driver that pad for SHA-256
  (section 5.1.1 of FIPS 180-4) and MD5 (sections 3.1 and 3.2 of RFC 1321). The streaming driver computes the length
  in bits as an unsigned 32-bit product. They agree exactly when the last block does not hold 56 bytes and the
  string is shorter than 2^29 bytes; for any other string the streamed text is not the padding of any message.
- **IIR reference filter** (`Iir`), **bare-metal printing** (`Syscalls`, `Conversions`), **four-state vectors**
  (`VecVals`, `VecBases`) and the **collection of thread errors** (`ThreadPool`). `Common` holds word sizes and
  small helpers.

Imperative source is imperative here: loops over arrays, classes whose methods change their fields. Each such method
is proved against a function of its inputs, and the lemmas say what that function means. The two concurrent
protocols are state machines over values, so that every interleaving is covered.

`dafny verify dfyconfig.toml` checks everything.

## Model

| member | source | states |
|---|---|---|
| Radix2.ReverseBits | cosim/drivers/cep_tests/fft.cc:254-259 | returns the low bits of the index in reverse order |
| Bits.RevRev | cosim/drivers/cep_tests/fft.cc:76-87 | reversing twice is the identity, so the index map is a permutation of the positions |
| Bits.PowerTest | cosim/drivers/cep_tests/fft.cc:42 | `n & (n - 1)` is zero exactly for the powers of two |
| Radix2.Permute | cosim/drivers/cep_tests/fft.cc:76-87 | the swaps that skip `j <= i` leave at every position the element of the reversed position |
| Radix2.TrigTables | cosim/drivers/cep_tests/fft.cc:63-74 | entry i of the two tables is the cosine and the sine of i steps out of n, the conjugate parts of the i-th power of the root of unity |
| Radix2.Levels | cosim/drivers/cep_tests/fft.cc:57-61 | the halving loop returns the base-two logarithm of a power of two |
| Fourier.StridedSplit | cosim/drivers/cep_tests/fft.cc:89-106 | a strided transform of even size is the even half plus the twiddled odd half |
| Fourier.Butterfly | cosim/drivers/cep_tests/fft.cc:94-102 | entries k and k + h of a combined block are the sum and the difference of the half-size transforms |
| Radix2.OutStep | cosim/drivers/cep_tests/fft.cc:93-103 | what stage m must leave at both ends of a butterfly follows from what stage m + 1 left there |
| Radix2.ButterflyAt | cosim/drivers/cep_tests/fft.cc:95-101 | one butterfly changes exactly its two entries, to sum and difference with the twiddled upper one |
| Radix2.CombineBlock | cosim/drivers/cep_tests/fft.cc:94-102 | the innermost loop combines one block and touches nothing else |
| Radix2.Stage | cosim/drivers/cep_tests/fft.cc:93-103 | one pass turns all transforms of half size into transforms of full block size |
| Radix2.Stages | cosim/drivers/cep_tests/fft.cc:89-106 | all passes together leave the transform of the whole vector |
| Radix2.TransformRadix2 | cosim/drivers/cep_tests/fft.cc:54-113 | for every power of two, succeeds unless the size test fails and leaves the defining sum in the arrays, also as sums of real products |
| Trigonometry.RootSum | cosim/drivers/cep_tests/fft.cc:72-73 | orthogonality: the powers of a root of unity over a period sum to n or to zero |
| Trigonometry.RootIsOne | cosim/drivers/cep_tests/fft.cc:72-73 | a power of the primitive root is 1 exactly for multiples of n |
| Trigonometry.RootHalf | cosim/drivers/cep_tests/fft.cc:92-101 | half a turn negates, which makes the lower butterfly a subtraction |
| RealSums.ForwardParts | cosim/drivers/cep_tests/fft.cc:72-73 | output k of the defining sum has the real part sum of re cos + im sin and the imaginary part sum of im cos - re sin, at the angles 2 pi j k / n |
| RealSums.BackwardParts | cosim/drivers/cep_tests/fft.cc:49-51 | with exchanged arrays the sine changes its sign |
| RealSums.ConvolutionParts | cosim/drivers/cep_tests/fft.cc:209-251 | the circular convolution in real and imaginary parts |
| FourierTheory.SwappedTransform | cosim/drivers/cep_tests/fft.cc:49-51 | transforming with real and imaginary parts exchanged is the conjugate-kernel transform, exchanged |
| FourierTheory.InverseOfForward | cosim/drivers/cep_tests/fft.cc:49-51 | the swapped transform of the transform is n times the vector |
| FourierTheory.TransformOfConvolution | cosim/drivers/cep_tests/fft.cc:231-235 | the transform of a circular convolution is the pointwise product |
| Chirp.SquaresMeet | cosim/drivers/cep_tests/fft.cc:147-152 | the chirp of two indices whose 64-bit squares do not wrap combines to a root of unity times a chirp of their distance |
| Chirp.BluesteinIsDft | cosim/drivers/cep_tests/fft.cc:146-175 | chirp, convolve, chirp computes the defining sum for every length up to 2^32 |
| Chirp.ImpulseDiffers | cosim/drivers/cep_tests/fft.cc:148-149 | for every longer length that is not a power of two the wrapped square makes the output for an impulse wrong |
| Chirp.BluesteinExactly | cosim/drivers/cep_tests/fft.cc:116-189 | for lengths that are not powers of two, exact on all inputs if and only if the length is at most 2^32 |
| Chirp.ConvolutionIsChirp | cosim/drivers/cep_tests/fft.cc:155-169 | the circular convolution of the padded vectors is the chirp sum, because m is over twice n |
| Fft.TransformedExactly | cosim/drivers/cep_tests/fft.cc:39-46 | the dispatcher returns the defining sum for all vectors of a length if and only if the length is a power of two or at most 2^32 |
| ChirpLimits.GramFails | cosim/drivers/cep_tests/fft.cc:146-153 | between 2^32 and 2^63 elements two shifted chirps are not orthogonal, unless the length is a power of two |
| ChirpLimits.ImpulseLost | cosim/drivers/cep_tests/fft.cc:49-51 | for such a length some impulse comes back from forward and inverse transform with a second nonzero element |
| Fft.InverseExactly | cosim/drivers/cep_tests/fft.cc:49-51 | inverse after forward is n times the vector for all vectors of a length if and only if the length is a power of two or at most 2^32 |
| Fft.ConvolvedExactly | cosim/drivers/cep_tests/fft.cc:209-251 | the scaled inverse of the product is the circular convolution for all pairs of vectors of a length if and only if the length is a power of two or at most 2^32 |
| Fft.RealParts | cosim/drivers/cep_tests/fft.cc:39-51 | for every exact length the forward transform, the inverse and the convolution are those real sums at every position |
| Fft.Transform | cosim/drivers/cep_tests/fft.cc:39-46 | in place, for every length, with the mutual recursion proved to end; for the exact lengths the arrays hold the forward sums of cosines and sines; arrays unchanged on failure |
| Fft.InverseTransform | cosim/drivers/cep_tests/fft.cc:49-51 | the call with the arrays exchanged leaves the unscaled inverse, for the exact lengths the sums with the sign of the sine changed |
| Fft.TransformBluestein | cosim/drivers/cep_tests/fft.cc:116-189 | leaves the chirp sum for every positive length that fits, and the arrays unchanged otherwise |
| Fft.ConvolutionLength | cosim/drivers/cep_tests/fft.cc:119-125 | finds the smallest power of two m with m / 2 over n, and cannot fail for n up to 2^58 |
| Fft.ChirpTables | cosim/drivers/cep_tests/fft.cc:146-153 | the tables hold cosine and sine of the chirp angle with the 64-bit wrapped square |
| Fft.Modulate | cosim/drivers/cep_tests/fft.cc:155-159 | the input times the conjugate chirp, padded with zeros |
| Fft.ChirpVector | cosim/drivers/cep_tests/fft.cc:160-165 | the chirp laid out symmetrically around position 0 |
| Fft.FillSymmetric | cosim/drivers/cep_tests/fft.cc:160-165 | both copies of every table entry are where the convolution reads them |
| Fft.Demodulate | cosim/drivers/cep_tests/fft.cc:171-175 | the first n convolution outputs times the conjugate chirp |
| Fft.ConvolveComplex | cosim/drivers/cep_tests/fft.cc:209-251 | writes the scaled inverse of the product of the transforms, for the exact lengths the circular convolution as real sums, and leaves the inputs alone |
| Fft.Multiply | cosim/drivers/cep_tests/fft.cc:231-235 | pointwise complex product in place, with the temporary that keeps the real part |
| Fft.Rescale | cosim/drivers/cep_tests/fft.cc:239-242 | divides both parts by n into the output arrays |
| SboxTable.SboxInverse | hdl_cores/aeees/aeees_emu.py:45-62 | the table has an inverse table |
| SboxTable.SboxInjective | hdl_cores/aeees/aeees_emu.py:45-62 | the S-box is a permutation of the bytes |
| Rounds.MixWordIsMatrix | hdl_cores/aeees/aeees_emu.py:234-241 | the column mix is the MixColumns matrix of section 5.1.3 of FIPS 197 |
| Rounds.MixFour | hdl_cores/aeees/aeees_emu.py:243-245 | mixing four times is the identity, so mixing is invertible |
| Rounds.ShiftRowsUndone | hdl_cores/aeees/aeees_emu.py:224-232 | the inverse row shift undoes the row shift |
| Rounds.RoundKeyDeterminesKey | hdl_cores/aeees/aeees_emu.py:100-117 | any one round key determines the master key |
| Rounds.FoldedIsKeyed | hdl_cores/aeees/aeees_emu.py:121-147 | looking up a key-folded S-box is adding the round key first, and in the last round the un-shifted last key after |
| Rounds.WhiteBoxTracksStock | hdl_cores/aeees/aeees_emu.py:150-153 | before the last round, the white-box state plus the round key is the stock state |
| Rounds.WhiteBoxIsStock | hdl_cores/aeees/aeees_emu.py:160-192 | white-box and stock encryption give the same block for every key, block and round count |
| Rounds.StockInjective | hdl_cores/aeees/aeees_emu.py:176-185 | every intermediate state determines the plaintext |
| Rounds.CipherInjective | hdl_cores/aeees/aeees_emu.py:176-192 | under a fixed key, different blocks have different ciphertexts |
| SboxField.SboxIsInverse | hdl_cores/aeees/aeees_emu.py:45-62 | every entry of the table is the affine image of the inverse of its index in the field, and of 0 for 0 (section 5.1.1 of FIPS 197) |
| CipherBytes.FirstBytes | hdl_cores/aeees/aeees_emu.py:176-182 | before the first round each byte is the plaintext byte plus the key byte |
| CipherBytes.RoundBytes | hdl_cores/aeees/aeees_emu.py:205-209 | each byte of each middle round, in all four columns, is the matrix row 2 3 1 1 over the substituted bytes of the row-shifted columns, plus the key byte |
| CipherBytes.LastRoundBytes | hdl_cores/aeees/aeees_emu.py:187-192 | each byte of the ciphertext is the substituted byte of the shifted column plus the key byte |
| CipherBytes.KeyBytes | hdl_cores/aeees/aeees_emu.py:100-117 | each byte of each key word from bytes four and one words back, with rotation, table and power of x every fourth time |
| CipherBytes.TextBytes | hdl_cores/aeees/aeees_emu.py:69-85 | byte r of column c is byte 4 c + r of the text, from the highest, in both directions |
| BlockText.TextRoundTrip | hdl_cores/aeees/aeees_emu.py:69-85 | matrix to text and back is the identity, and text to matrix and back keeps the low 128 bits |
| Aeees.Text2Matrix | hdl_cores/aeees/aeees_emu.py:69-77 | four fresh separate rows that hold the bytes of the low 128 bits |
| Aeees.Matrix2Text | hdl_cores/aeees/aeees_emu.py:80-85 | the number whose bytes are the matrix, row after row |
| Aeees.AEEES.constructor | hdl_cores/aeees/aeees_emu.py:89-117 | round constants and round keys are those of section 5.2 of FIPS 197 for any number of rounds |
| Aeees.MakeRcon | hdl_cores/aeees/aeees_emu.py:95-98 | entry k is the k-th power of x in the field |
| Aeees.ExpandKey | hdl_cores/aeees/aeees_emu.py:100-117 | every appended row is the next key word and a list of its own |
| Aeees.NextWord | hdl_cores/aeees/aeees_emu.py:101-117 | one row from the row before and the row four back, with rotation, S-box and constant every fourth time |
| Aeees.AEEES.GetModdedSbox | hdl_cores/aeees/aeees_emu.py:121-147 | returns the folded S-box and, thanks to the deep copy, leaves the round keys as they are |
| Aeees.DeepCopy | hdl_cores/aeees/aeees_emu.py:137 | fresh rows with equal contents, shared with nothing |
| Aeees.AddRoundKey | hdl_cores/aeees/aeees_emu.py:194-197 | adds the key to the state in place |
| Aeees.SubBytesInPlace | hdl_cores/aeees/aeees_emu.py:219-222 | S-box on every byte in place |
| Aeees.ShiftRowsInPlace | hdl_cores/aeees/aeees_emu.py:224-227 | the simultaneous assignments are the row shift |
| Aeees.InvShiftRowsInPlace | hdl_cores/aeees/aeees_emu.py:229-232 | the simultaneous assignments are the inverse row shift |
| Aeees.MixSingleColumn | hdl_cores/aeees/aeees_emu.py:234-241 | four updates in place, the last with the saved first byte, are the column mix |
| Aeees.MixColumnsInPlace | hdl_cores/aeees/aeees_emu.py:243-245 | all four rows mixed in place; CipherBytes.RoundBytes says what that is byte by byte |
| Aeees.AEEES.WbSubBytes | hdl_cores/aeees/aeees_emu.py:212-217 | each byte goes through the box of its own position |
| Aeees.AEEES.WbRound | hdl_cores/aeees/aeees_emu.py:199-203 | one middle round in place takes one white-box state to the next |
| Aeees.AEEES.WbEncrypt | hdl_cores/aeees/aeees_emu.py:160-173 | lists the white-box states, and last the stock ciphertext |
| Aeees.AEEES.StockRound | hdl_cores/aeees/aeees_emu.py:205-209 | one middle round of the stock cipher in place |
| Aeees.AEEES.Encrypt | hdl_cores/aeees/aeees_emu.py:176-192 | lists the stock states, and last the ciphertext |
| Aeees.EncryptInjective | hdl_cores/aeees/aeees_emu.py:176-192 | two plaintexts have the same final text if and only if they agree in their low 128 bits |
| Capture.CepCrypto.constructor | cosim/drivers/cep_tests/cep_crypto.cc:25-37 | no capture is open |
| Capture.CepCrypto.SetCaptureMode | cosim/drivers/cep_tests/cep_crypto.cc:157-250 | opens an empty capture at the present state of the device; without its file capturing stays off |
| Capture.CepCrypto.WriteNCapture | cosim/drivers/cep_tests/cep_crypto.cc:252-272 | writes the device at base plus offset, appends 1, the low 32 bits of that address and the data, and fixes the 64 KiB window of the first write |
| Capture.CepCrypto.ReadNCapture | cosim/drivers/cep_tests/cep_crypto.cc:277-294 | returns what the device answers at base plus offset, and appends 2, the address and the answer |
| Capture.CepCrypto.ReadNSpin | cosim/drivers/cep_tests/cep_crypto.cc:300-325 | appends 3, address, data, mask and the time-out as 32 bits, and reports a used-up time-out |
| Capture.CepCrypto.MarkSingle | cosim/drivers/cep_tests/cep_crypto.cc:326-330 | remembers the command count once |
| Capture.CepCrypto.PrefixReplays | cosim/drivers/cep_tests/cep_crypto.cc:252-330 | replaying the first n commands of a capture (n = mSingle in particular) matches every value, stops on a command boundary, reaches the state recorded there, and reports an error exactly for a recorded time-out |
| Capture.CepCrypto.CaptureReplays | cosim/drivers/cep_tests/cep_crypto.cc:252-330 | replaying everything uses exactly mWordCnt words and reaches the present state |
| Capture.LastTimeOutZero | cosim/drivers/cep_tests/cep_apis.cc:482-498 | the reported count is 0 exactly when no spin in the range timed out |
| Playback.ReplayOne | cosim/drivers/cep_tests/cep_apis.cc:421-503 | one recorded write, read or spin, replayed through the raw accesses, keeps the two devices related, moves the cursor past its words and reports an error exactly for a recorded time-out in range |
| Playback.IntRoundTrip | cosim/drivers/cep_tests/cep_crypto.cc:307-308 | a time-out printed as 32-bit hexadecimal and converted to int is unchanged, also when negative |
| Playback.CepPlayback | cosim/drivers/cep_tests/cep_apis.cc:452-503 | leaves the device and the count that interpreting the stream command by command defines |
| Playback.PlaySpin | cosim/drivers/cep_tests/cep_apis.cc:484-497 | the spin loop reads until a match or the time-out, and flags only a used-up positive one |
| Playback.RecordedReadable | cosim/drivers/cep_tests/cep_apis.cc:459-501 | on a recorded stream the cursor is always on a command boundary and never past the end |
| Playback.Replay | cosim/drivers/cep_tests/cep_apis.cc:448-503 | simulation theorem: replay on a device that agrees inside the range and does not see the outside has no mismatch, related final states, and only the recorded time-outs as errors |
| Playback.RoundTrip | cosim/drivers/cep_tests/cep_apis.cc:452-503 | the same device from the same state ends in the recorded state, for every prefix |
| Playback.FilteredReplay | cosim/bfmTests/playback/c_module.cc:183-193 | a stream that interleaves two devices, one from lower to below upper and one elsewhere, played with that range, drives the first to its recorded state and leaves the other untouched |
| PlaybackRanges.OutOfRange | cosim/drivers/cep_tests/cep_apis.cc:448-450 | a write, read or spin at an address below lower, at upper or above leaves the device alone and is passed over whole |
| PlaybackRanges.InsideRange | cosim/drivers/cep_tests/cep_apis.cc:459-501 | one at an address from lower to below upper performs its access: the write, the compared read that stops at a mismatch, or the spin |
| PlaybackRanges.SpinReads | cosim/drivers/cep_tests/cep_apis.cc:484-497 | a spin reads until the first answer with the wanted bits under the mask, or as often as the time-out says |
| PlaybackRanges.ExactlyOne | cosim/bfmTests/playback/c_module.cc:183-191 | with two adjacent ranges each command is performed in exactly one of the two replays |
| PlaybackRanges.AdjacentReplays | cosim/bfmTests/playback/c_module.cc:183-191 | one stream replayed with two adjacent ranges brings each of two neighbours to its recorded state, and neither replay touches the other one |
| MailboxRuns.StepInv | cosim/share/shIpc.cc:145-171 | every step of every thread, simulator process and the daemon keeps the protocol invariant |
| MailboxRuns.RunInv | cosim/share/shIpc.cc:107-171 | the invariant holds in every state of every interleaving |
| MailboxRuns.NeverStuck | cosim/pli/vpp2shMem.cc:248-352 | no process follows an offset outside the slots or copies outside an argument block, so its next step is always possible |
| MailboxProgress.SimServesRemote | cosim/pli/vpp2shMem.cc:248-352 | each step of a process with a raised request brings it nearer to acknowledging it |
| MailboxProgress.DaemonNearer | cosim/src/shPthread.cc:179-201 | each step of the daemon brings a request that waits for it nearer to being passed on, or its flag to being cleared |
| MailboxProgress.CallCanEnd | cosim/share/shIpc.cc:107-171 | every run in which a thread is inside a call goes on to its return by steps of the simulator processes, the daemon and that thread alone, and then all its commands are executed and all its prints delivered |
| MailboxRuns.LocalExactlyOnce | cosim/pli/vpp2shMem.cc:248-352 | local commands are executed exactly once, in order, with the arguments written |
| MailboxRuns.LocalReturn | cosim/share/shIpc.cc:145-163 | when the wait ends the command was executed and the arguments are what the execution stored |
| MailboxCalls.LocalIssues | cosim/share/shIpc.cc:145-154 | a call issues one job: the command sent with the arguments of that moment, or the print of its string |
| MailboxCalls.LocalCallReturns | cosim/pli/vpp2shMem.cc:329-352 | when the call returns, its job was executed, the address words are unchanged, and the eight parameters are the words the hardware returned in the step that executed it |
| MailboxCalls.RunStatus | cosim/pli/vpp2shMem.cc:290-352 | during a local call the status is pending, inactive from where a shutdown is taken up, and success from the acknowledgement on |
| MailboxCalls.RemoteCallReturns | cosim/share/shIpc.cc:145-163 | when a remote call returns, exactly its string was sent to the announced slot and delivered, and its arguments are unchanged |
| MailboxCalls.TargetIsLast | cosim/share/shIpc.cc:139-142 | the target of a call is the one its thread announced last |
| MailboxRuns.RemoteExactlyOnce | cosim/src/shPthread.cc:179-201 | remote prints reach the process of their target exactly once, in order, unchanged; slots may target each other or themselves |
| MailboxRuns.RemoteReturn | cosim/share/shIpc.cc:123-129 | the remote wait ends only after the daemon cleared the flag and the target acknowledged, and then nobody works on the request any more |
| MailboxRuns.SimWritesOwned | cosim/pli/vpp2shMem.cc:329-352 | the simulator side writes a slot's arguments only while its thread waits |
| MailboxRuns.ThreadWritesOwned | cosim/share/shIpc.cc:145-163 | a thread writes them only while no command is valid or being served |
| MailboxSafety.SimAckValidRemote | cosim/share/shIpc.cc:427-439 | the acknowledgement of a remote print keeps the invariant |
| MailboxSafety.DaemonPutReq | cosim/src/shPthread.cc:188-194 | announcing a request to its target keeps the invariant |
| MailboxTargets.DeliveredExactly | cosim/src/shPthread.cc:179-201 | with fixed targets, every run delivers every remote print once and at its target if and only if each target that is a requester asks for its own requester |
| MailboxTargets.Misdelivered | cosim/src/shPthread.cc:188-193 | for any k that asks i while i asks another slot, a run delivers a print of i at the wrong slot |
| MailboxTargets.TargetRunIsRun | cosim/share/shIpc.cc:123-129 | runs with such targets are runs to which all the other theorems apply |
| TestClaim.StepInv | cosim/bfmTests/playback/c_module.cc:28-71 | every bus access of every core keeps the claim invariant |
| TestClaim.MutualExclusion | cosim/bfmTests/playback/c_module.cc:28-71 | in no state of any run are two cores in the locked section, or do two hold the same test, from its claim to the end of its run |
| TestClaim.ExactlyOnce | cosim/bfmTests/playback/c_module.cc:133-207 | a core that leaves without error has run each of the nine tests exactly once |
| TestClaimProgress.ClaimsLeast | cosim/bfmTests/playback/c_module.cc:28-64 | in every run a core that has been granted the lock claims and runs the least test it has not done and no other core has claimed, within 64 steps of its own |
| TestClaimProgress.AloneRunsAll | cosim/bfmTests/playback/c_module.cc:133-207 | a core alone, with every playback returning 0, leaves without error after running tests 0 to 8 in order, and every such run can go on until it does |
| TestClaimLimits.LockGivenUp | cosim/drivers/cep_tests/cep_apis.cc:508-531 | a call gives up on the lock exactly at its hundredth refusal |
| TestClaimLimits.TestsGivenUp | cosim/bfmTests/playback/c_module.cc:133-147 | the loop ends with one error exactly when a thousand calls in a row found no test, or a hundred since the last test |
| TestClaimLimits.RunPublishes | cosim/bfmTests/playback/c_module.cc:40-62 | the scratch register of a core shows the tests it has done, and with the tag the test it runs |
| TestClaim.GivesUpUnlocked | cosim/drivers/cep_tests/cep_apis.cc:508-531 | a core that gives up on the lock does not hold it |
| TestClaim.StepDescends | cosim/bfmTests/playback/c_module.cc:133-211 | each step of a core lowers its measure of tests left, time-out and call position |
| TestClaim.Terminates | cosim/bfmTests/playback/c_module.cc:133-211 | in every run the number of steps a core takes is bounded by its first measure, whatever the others do |
| HashFeed.ZeroCount | cosim/drivers/cep_tests/cep_sha256.cc:171-181 | the number of zero bytes is below a block and completes one |
| HashFeed.PaddingInjective | cosim/drivers/cep_tests/cep_sha256.cc:171-187 | different messages have different padded texts |
| HashLayout.PaddedBytes | cosim/drivers/cep_tests/cep_sha256.cc:171-187 | the padded text is the message, the byte 128, the fewest zeros, and eight bytes that are the number of bits, highest first for SHA-256 and lowest first for MD5 |
| HashLayout.StreamedBytes | cosim/drivers/cep_tests/cepregression.cc:1053-1071 | the streamed text has the same layout with the number of bits modulo 2^32, and at 56 the marker in place of the first length byte |
| HashLayout.BlockBytes | cosim/drivers/cep_tests/cep_sha256.cc:202-210 | block q holds bytes 64 q to 64 q + 63, and only the first SHA-256 block starts a hash |
| HashFeed.AddPadding | cosim/drivers/cep_tests/cepregression.cc:1053-1071 | writes marker, zeros and length after the bytes in the buffer, the marker over the length when 56 bytes are there |
| HashFeed.WriteTail | cosim/drivers/cep_tests/cepregression.cc:776-799 | the loop over the padding bytes, low length byte first for MD5 |
| HashFeed.CopyPart | cosim/drivers/cep_tests/cepregression.cc:842-852 | copies up to a block and notices the end of the string |
| HashFeed.SendBlocks | cosim/drivers/cep_tests/cepregression.cc:1134-1151 | the do-while sends exactly the blocks the padding fills, the first with the init strobe |
| HashFeed.FillMessage | cosim/drivers/cep_tests/cepregression.cc:1109-1130 | one round of the loop puts the next stretch of the streamed text into the buffer |
| HashFeed.HashString | cosim/drivers/cep_tests/cepregression.cc:1101-1153 | the core is loaded with the blocks of the streamed text, for every string the byte counter can count |
| HashFeed.PadMessage | cosim/drivers/cep_tests/cep_md5.cc:180-199 | pads in place per the standard and keeps the rest of the buffer |
| HashFeed.SendText | cosim/drivers/cep_tests/cep_sha256.cc:202-210 | loads every block of a padded text once and in order, the first with the init strobe |
| HashFeed.HashMessage | cosim/drivers/cep_tests/cep_sha256.cc:171-207 | the core is loaded with the blocks of the standard padding |
| HashFeed.StreamIsPadding | cosim/drivers/cep_tests/cepregression.cc:1053-1071 | both drivers load the same blocks if and only if the length modulo 64 is not 56 and the length in bits fits the unsigned 32-bit product |
| HashFeed.StreamAtFiftySix | cosim/drivers/cep_tests/cepregression.cc:1055 | at 56 the streamed text differs from the padding of every message |
| HashFeed.StreamWrapped | cosim/drivers/cep_tests/CEP.h:18 | so it does for every string of 2^29 bytes or more |
| HashFeed.StreamedIsSomePadding | cosim/drivers/cep_tests/cepregression.cc:776-873 | the streamed text is some message's padding if and only if the length modulo 64 is not 56 and the length is below 2^29 |
| Iir.DoFilter | cosim/drivers/cep_tests/cep_iir.cc:131-152 | the pointer walk solves the difference equation for every length and filter length, and writes nothing past it |
| Iir.Recurrence | cosim/drivers/cep_tests/cep_iir.cc:131-152 | each output times the first feedback coefficient is the sum over b[k] x[m - k] less the sum over a[k + 1] y[m - 1 - k] |
| Iir.Causal | cosim/drivers/cep_tests/cep_iir.cc:131-152 | the output up to a time depends only on the input up to that time |
| Iir.Unique | cosim/drivers/cep_tests/cep_iir.cc:131-152 | the equation has one solution, so it determines the output |
| Iir.Linear | cosim/drivers/cep_tests/cep_iir.cc:131-152 | the filter of a mixture is the mixture of the filters |
| Iir.TimeInvariant | cosim/drivers/cep_tests/cep_iir.cc:131-152 | delaying the input delays the output |
| Iir.ExchangedUndoes | cosim/drivers/cep_tests/cep_iir.cc:131-152 | filtering again with the two coefficient lists exchanged restores the input |
| Syscalls.DigitsAreNumeral | cosim/drivers/bare/syscalls.c:171-190 | the printed digits are the numeral of the number in its base, without leading zero |
| Syscalls.PrintNum | cosim/drivers/bare/syscalls.c:171-190 | padding then digits, and the 64-entry digit buffer never overflows |
| Syscalls.Vprintfmt | cosim/drivers/bare/syscalls.c:212-361 | prints what reading the format directive by directive defines |
| Syscalls.ReadDirective | cosim/drivers/bare/syscalls.c:231-290 | flags, widths, stars and length marks up to the conversion |
| Syscalls.Convert | cosim/drivers/bare/syscalls.c:292-359 | every conversion, a null string included, and none for an unknown character |
| Syscalls.PrintString | cosim/drivers/bare/syscalls.c:297-309 | at most the precision, padded left or right |
| Syscalls.Sprintf | cosim/drivers/bare/syscalls.c:450-468 | the text and its length |
| Syscalls.Atol | cosim/drivers/bare/syscalls.c:585-604 | the number the text spells in wrap-free long arithmetic, none where the C arithmetic overflows |
| Syscalls.TotalOfDigits | cosim/drivers/bare/syscalls.c:598-601 | reading digits gives the number they print, none beyond the largest long |
| Syscalls.FlagsRead | cosim/drivers/bare/syscalls.c:231-290 | what a format of flags, width and `ld` sets |
| Syscalls.PrintThenParse | cosim/drivers/bare/syscalls.c:450-604 | for all flags, widths and longs, `atol` of `sprintf` gives the number back if and only if it is not the minimum and the padding is absent, zeros, spaces before a non-negative number, or one minus before zero |
| Conversions.ConversionPrints | cosim/drivers/bare/syscalls.c:292-359 | digits by position in base 10, 8 or 16 of the low 32 or 64 bits, signs, padding, precision, characters and the null string, for every conversion; other characters are none |
| Conversions.DirectivePrints | cosim/drivers/bare/syscalls.c:231-359 | a directive with any flags, width, precision and length marks, anywhere in a format, prints its argument so and goes on with the next |
| Conversions.StarPrints | cosim/drivers/bare/syscalls.c:268-285 | a star takes the width from an argument of its own |
| Conversions.UnknownPrints | cosim/drivers/bare/syscalls.c:355-359 | a percent sign before an unknown character is printed itself |
| Conversions.LiteralPrints | cosim/drivers/bare/syscalls.c:219-225 | text without a percent sign is printed as it is |
| Conversions.AtolReads | cosim/drivers/bare/syscalls.c:585-604 | spaces, either sign and digits read as the signed number, up to the largest long |
| VecVals.Ascii2Int | cosim/pli/VecVal.h:308-354 | the value of at most as many digits as the base allows, modulo 2^32, and where reading stopped |
| VecVals.VecVal.constructor | cosim/pli/VecVal.h:34-38 | one word for every 32 bits begun |
| VecVals.VecVal.Set0 | cosim/pli/VecVal.h:186-193 | every word cleared |
| VecVals.VecVal.SetHex | cosim/pli/VecVal.h:416-459 | every word holds its group of digits of the cleaned text in its base, the words beyond the text are zero, and the answer says whether the text fits |
| VecVals.VecVal.GetAsciiHex | cosim/pli/VecVal.h:528-549 | one character for each hexadecimal digit of the width, highest first |
| VecVals.ReadChar | cosim/pli/VecVal.h:215-283 | printing and reading one digit keeps two-state, all-X and all-Z ones and turns every mixture into X |
| VecVals.TextFits | cosim/pli/VecVal.h:416-459 | the printed text with its prefix is one that setHex accepts for that width |
| VecVals.PrintThenSet | cosim/pli/VecVal.h:416-549 | after printing and setting, every digit of the width is settled and every other one is zero |
| VecVals.RoundTrip | cosim/pli/VecVal.h:416-549 | the vector is restored in both halves of every word if and only if its digits are two-state, all-X or all-Z and those above the width are zero |
| VecBases.QuoteAnnounces | cosim/pli/VecVal.h:369-392 | after a quote character b, o, d, h and x mean base 2, 8, 10, 16 and 16, any other letter 10, and the size before it is dropped |
| VecBases.HexAnnounces | cosim/pli/VecVal.h:392-403 | without a quote the first 0x means base 16 |
| VecBases.NothingAnnounces | cosim/pli/VecVal.h:392-403 | without either the whole text is decimal |
| VecBases.LowWord | cosim/pli/VecVal.h:308-354 | digits of a base up to ten set the lowest word to the number they spell |
| VecBases.HexCharacters | cosim/pli/VecVal.h:215-283 | which characters are read and printed for each digit, with x and z |
| VecBases.CleanedOne | cosim/pli/VecVal.h:424-436 | white space and underscores are dropped and capitals become small letters |
| VecBases.CleanedParts | cosim/pli/VecVal.h:424-436 | each character is cleaned by itself, wherever it stands |
| VecBases.Sizes | cosim/pli/VecVal.h:34-38 | one word for every 32 bits begun, one digit for every four |
| VecVals.Reload | cosim/pli/VecVal.h:416-549 | a vector set from the text that another of its width prints equals it under exactly that condition |
| ThreadPool.ShPthread.constructor | cosim/include/shPthread.h:39 | no thread, no errors, no system thread |
| ThreadPool.ShPthread.AddSysThread | cosim/src/shPthread.cc:149-165 | registers the slot that polls skip, and starts a new count |
| ThreadPool.ShPthread.ForkAThread | cosim/src/shPthread.cc:84-103 | makes the slot active and starts a new count |
| ThreadPool.ShPthread.AllThreadDone | cosim/src/shPthread.cc:126-147 | retires the finished threads and answers whether none is left; over all polls since the last start the object's total has grown by each finished thread's errors once, and by all of them when the answer is yes |
| ThreadPool.StillActive | cosim/src/shPthread.cc:130-137 | after any polls a slot is active exactly if it was and was never seen finished |
| ThreadPool.CountedOnce | cosim/src/shPthread.cc:126-147 | over any sequence of polls each finished thread's errors are in the total exactly once |
| ThreadPool.AllDoneMeansAllCounted | cosim/src/shPthread.cc:126-147 | a poll answers "all done" exactly when every started thread but the system's was seen finished, and then the total is the sum over all of them |

## Left out

- Floating-point rounding, the fixed-point conversions and the sample tolerances: arithmetic is over exact reals.
- Memory allocation failure in the Fourier library, and `Fft_convolveReal`, which only adds zero imaginary parts.
- Fft.TransformBluestein: the case n = 0 is not modelled, because the code reads entry 0 of its empty tables there; the dispatcher never calls it with 0.
- Fft.InverseExactly, Fft.ConvolvedExactly: for at most 2^63 elements; Fft.ConvolutionLength finds no length for 2^62 or more, where Bluestein's transform fails anyway.
- Aeees.AEEES.constructor: requires at least one round, because with none the source indexes past its constants.
- Aeees: Python lists that grow are sequences of rows of fixed length four; a row is a list object of its own, so sharing and copying of rows are modelled. The console output of the white-box substitution is left out.
- Mailbox, TestClaim: the shared slots and registers are values in a state machine, so that all interleavings are quantified over; update in place and aliasing between processes are not expressed there. Reading or writing one field, or one print string, is one step.
- Mailbox: remote commands other than prints, because `send_v2c_mail` never acknowledges them (cosim/pli/vpp2shMem.cc:330); verbose strings, cycle counts, the slot-identity check, thread shutdown detection and the daemon's thread-status filter. While a slot asks another, the slot it asks may ask nobody but it, and nobody else may ask the requester, as one offset field serves both roles; MailboxTargets.DeliveredExactly shows that for fixed targets no weaker rule would do.
- MailboxProgress.CallCanEnd: shows that every call can end, not that a scheduler must let it; the polling loops have no order of their own.
- TestClaim: the done mask is a set of test numbers, and the hardware answers the lock request before the next bus access.
- Capture: file output is the flat command array it defines; whether its file can be opened is a parameter. The cross-core capture bits are left out.
- Capture.CepCrypto.CaptureReplays: assumes that all addresses print in 32 bits and lie in the 64 KiB window of the first write, since the file stores only those.
- Playback.CepPlayback: requires the words of each command to exist, since the source does not test the array length; C counters are unbounded here.
- HashFeed.HashString: requires a string below 2^31 bytes, beyond which its `int` byte counter overflows; the waiting loops and the hash read-out are left out, and MD5 is the build with BIG_ENDIAN defined.
- Iir.DoFilter: requires the output array not to overlap the input and coefficient arrays, and a nonzero first feedback coefficient, by which the source divides.
- Conversions.DirectivePrints: for flags first, then the width, then a precision other than 0, which is how such directives are written; the source takes the 0 of `.0` for a pad flag.
- Syscalls: the width counter is unbounded; negating the smallest long gives its unsigned magnitude as two's-complement hardware does; `putchar` output and the bare-metal print buffer are left out.
- VecVals.VecVal.SetHex: for a text longer than the vector the bound test at cosim/pli/VecVal.h:446 lets one word be written past the end; the model stops there and says so in its answer. Warnings and errors reported to the simulator are left out, and so are the assignment operators.
- ThreadPool.CountedOnce: a thread that has finished is assumed to count no more errors. Threads are started between counts: starting one begins a new count on top of the old total. Creating and joining system threads is left out.
- The random generator, the DES key odd-parity helper, the FIR copy of the filter, the GPS, register, GPIO, SPI and UART tests, logging and memory loading.
