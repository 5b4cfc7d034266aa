# Verified models of hassmic's hard parts

The repository replaces the voice assistant of an Echo with a satellite for Home Assistant.
This project models eight of its pieces in Dafny, in the form each has in the source, and
proves what each is there for.

**The Dalvik tool chain, `tools/dexasm.py`.** A small compiler back end with its own reader and
bytecode verifier. `DexCode` is the instruction subset and its decoder, `DexVerify` the type-flow
verifier as a worklist over a lattice of register kinds, `DexFixpoint` and `DexLoop` what its loop
keeps, that it ends, and what it decides. `DexMachine` says what the instructions do: registers and a
heap of typed arrays and objects. A step is stuck on a value of the wrong kind, an unconstructed
object, a register or a table index out of range and a jump into the middle of an instruction; it is a
misfit at a call whose receiver or argument is an object of a class that the callee does not take.
`DexSound` proves that a method the verifier accepts never gets stuck, and is a misfit only where the
verifier knows a class and does not compare it; `DexMisfit` shows such a method. `DexAsm`,
`DexEncode`, `DexAssembler` and `DexWriter` are the assembler (registers renamed, labels patched,
names resolved) and `DexRename` proves that the units it makes run as the listing reads.
`DexTables`, `DexLayout`, `DexSections` and `DexBuild` are the two passes over the id tables and the
file that is built; `DexReader` and `DexRoundTrip` read it back, verifying every method. `DexChain`
joins them: what is emitted line by line, built and accepted by the reader never gets stuck.

**X25519, `web/crypto.js`.** `Field` is the arithmetic on 16 limbs in place, every intermediate value
within 2^53; `X25519` packing and unpacking; `LimbLadder` inversion and the ladder. All of it is
proved against `Rfc7748`, an independent reading of section 5 of RFC 7748 on numbers modulo
2^255 - 19, for every scalar and every point.

**EdDSA and the update bundle, `scripts/otatool.py`.** `PrimeField` (Euclid, the binomial theorem,
Fermat), `Edwards` (the addition law is complete), `EdPoint` (extended coordinates compute it; it
stays on the curve; double and add), `EdCodec` (section 5.1.2 and 5.1.3 of RFC 8032) and `EdDsa`
(sections 5.1.5 to 5.1.7, with BLAKE2b for the hash). `Bundle` is the length-prefixed bundle, its
printer and its parser.

**The limiter, `web/loudness.js`.** `Limiter`, over real numbers: the queue with its moving head and
compaction, the running sum, the release filter.

**The ramdisk editor, `scripts/mkbootroot.py`.** `Cpio` is the loop that edits a newc stream and the
independent reader's, with Python's `int()` and slices, and says on which streams they end (`Walk`);
`CpioEdit` what editing does to the files of a stream, and the comparison with the original;
`CpioStreams` writes streams as the format has them. `BootImage` takes a boot image apart and puts it
together with another ramdisk.

**tar, `web/tar.js`.** `Tar`: the ustar header, written in place, and the reader, on any bytes.

**The wake word round, `tools/arbsim.py`.** `WakeRound`: Echos deciding one after the other on claims
and answers that take 50 to 350 ms, for arbitrary scores, delays and waiting.

**Ring designs, `web/ring.js`.** `RingDesign`: merging repeated frames around the loop point.

`Wrappers`, `ModArith`, `LittleEndian`, `ByteText`, `Chunks`, `Ordering`, `Limbs` and `Bits32` hold what
several of them share. `dafny verify dfyconfig.toml` checks the whole project.

Byte strings that are mostly text (bundle, cpio, tar) are strings of one character a byte; the boot
image and the dex file are sequences of numbers below 256. A failed assertion, a `die`, a thrown
error or an index out of range is `None`.

## What is taken for granted

- `DexSound.Loader`, `DexSound.Tables`, `DexSound.Conforming`: class loading is a preorder under Object,
  prototypes name well-formed descriptors, and what a call or a field answers fits its descriptor.
- `Edwards.Good` (P prime, 5 modulo 8, SQRT_M1 squared is -1, D no square), `EdPoint.Associative` (the
  one group law not proved; closure, commutativity, neutral element and inverses are) and
  `EdDsa.Sound` (the base point is on the curve and L times it is neutral; the hash has 64 bytes).
- `DexLayout.ValidHashes` (SHA-1 has 20 bytes, Adler-32 fits 32 bits), `BootImage.ValidGzip` (unpacking
  undoes packing).

## Where the code differs from its documentation

- `verify` says that invokes match their prototypes; it does not compare the class of an object that is
  passed, beyond arrays. `DexSound.AcceptedNeverStuck` and `DexMisfit.MisfitExactly` say at
  which calls that matters, `DexMisfit.AcceptedMisfits` is a method it accepts that calls `String.length`
  on any object.
- `build` takes a program that lists a method twice, and code that `verify` does not accept; `read` refuses
  the file. `DexBuild.BuiltReads` has the exact condition, `DexRefused.TwiceRefused` and
  `DexRefused.WrongReturnRefused` one program of each kind.
- `edit_cpio` says it keeps the trailer "and whatever follows it"; it stops at the end of the trailer's
  header and name, so bytes behind that are left out. `CpioEdit.Unedited` and `CpioEdit.UneditedStream` have
  the exact condition, `CpioStreams.ByteBehindDropped` a stream with a byte behind its trailer.
- `edit_cpio` and `entries` take a negative size, which sends them back in the stream, and on
  `Cpio.GoesRound`'s header they never end. `Cpio.EntriesEnd` and `Cpio.EditingEnds` have the exact
  condition, `Cpio.ForwardEnds` and `Cpio.UnsignedCalm` one to be read off the header's characters.
- `compare` fails on a file that was changed as it should be if the file's name is no UTF-8, which it
  prints. `CpioEdit.CompareHolds` has the exact condition, `CpioStreams.OddNameFails` such a file.
- A path that begins with a byte order mark, or whose name behind the split does, comes back without
  it from `list` (TextDecoder drops it); `Tar.RoundTrip` has the exact condition, `Tar.MarkDropped` a path.
- `pack` takes any version and mode; one with a newline, of no or more than 63 bytes, or a negative
  mode, is not read back. `Bundle.RoundTrip` has the exact condition, `Bundle.NoVersionUnread` a bundle.

## Model

| member | source | states |
|---|---|---|
| DexSound.AcceptedNeverStuck | tools/dexasm.py:485-658 | a method verify accepts, from any frame whose last registers hold conforming arguments, only steps, returns a value of its return kind or throws, in every run of any length, unless it comes to a call where a class the accepted states know is not assignable to the one the callee declares |
| DexSound.RunAgrees | tools/dexasm.py:516-658 | along a run the registers and the pending result stay within what the accepted states say at each instruction |
| DexSound.StepAgrees | tools/dexasm.py:516-658 | one step of the machine from an agreeing configuration is never stuck, lands at an agreeing one if it goes on, and is a misfit only at a call the states know to be one |
| DexSound.ExecFine | tools/dexasm.py:539-632 | for every instruction whose transfer passes its checks, the machine is not stuck, and what it leaves fits the kinds the transfer gives |
| DexSound.InitFine | tools/dexasm.py:615-637 | a constructor call turns the one register that holds the unconstructed object into a usable reference of that class |
| DexSound.CallFine | tools/dexasm.py:597-637 | a call whose receiver and arguments pass the checks is entered and its answer is what the transfer leaves pending, or it throws on null, or a class known of a register shows the misfit |
| DexMisfit.AcceptedMisfits | tools/dexasm.py:615-632 | verify accepts String.length on a parameter of class Object, and where Object is not assignable to String a run of it is a misfit |
| DexMisfit.MisfitExactly | tools/dexasm.py:597-632 | at a call of an accepted method, on registers known by classes objects can have, some configuration that agrees with the states is a misfit exactly if a class known is not assignable to the one declared |
| DexVerify.MergeIsJoin | tools/dexasm.py:499-506 | merge is the least upper bound of a partial order of height four |
| DexFixpoint.PushKeeps | tools/dexasm.py:646-657 | merging a flow into a successor keeps the invariant of the worklist: only that entry changes, and upwards |
| DexFixpoint.VisitKeeps | tools/dexasm.py:518-657 | one pass of the outer loop keeps the invariant: off the stack everything reached covers its successors |
| DexFixpoint.AcceptedIsInductive | tools/dexasm.py:516-658 | the states an accepting run ends with cover the entry and every successor of every instruction reached: a fixpoint |
| DexFixpoint.MoveResultFollowsInvoke | tools/dexasm.py:542-549 | in an accepted method control reaches a move-result only from the invoke directly before it |
| DexFixpoint.InitChangesOneRegister | tools/dexasm.py:615-637 | in an accepted method a constructor call changes what is known of one register, the receiver's |
| DexFixpoint.UnbuiltAtSites | tools/dexasm.py:516-658 | whatever a run of the worklist has reached, accepting or not, an unconstructed object sits only in the destination register of the new-instance at its site |
| DexLoop.PotentialDrops | tools/dexasm.py:646-657 | raising an entry lowers what the entries can still change |
| DexLoop.Spread | tools/dexasm.py:646-657 | the inner loop pushes each successor in turn; it changes nothing or the measure drops |
| DexLoop.Verify | tools/dexasm.py:516-658 | with read's check of the frame before it, the worklist loop ends on every method, and accepts or rejects as the step-by-step description does |
| DexLoop.VerdictUnique | tools/dexasm.py:516-658 | a method has one verdict, with one set of states |
| DexCode.Decode | tools/dexasm.py:457-482 | a decoded instruction has one to three units, inside the code |
| DexCode.SweepSpaced | tools/dexasm.py:492-495 | the instructions of the linear sweep do not overlap |
| DexEncode.DecodeEncode | tools/dexasm.py:457-482 | every instruction that fits its format decodes from its units, wherever they stand |
| DexEncode.PackedNibbles | tools/dexasm.py:107-111 | up to four argument registers read back from the nibbles they are packed into |
| DexAsm.PhysicalIs | tools/dexasm.py:35-39 | the renumbering is a bijection of the frame that takes parameter i to register nregs - ins + i |
| DexAsm.LineMeans | tools/dexasm.py:138-145 | a line's packed units are those of its instruction with label and name filled in |
| DexAsm.UnpackedUnresolved | tools/dexasm.py:138-145 | packing a line fails only on a name without a table entry that fits |
| DexAssembler.PatchedUnit | tools/dexasm.py:139-143 | after all branches are patched each unit is its block's own, with its own offset |
| DexAssembler.PackedCode | tools/dexasm.py:138-145 | the linear sweep over the assembled units finds exactly the lines emitted, each decoding to what it means |
| DexAssembler.Assembles | tools/dexasm.py:138-145 | patching the branches in turn and packing unit by unit gives that code, and fails exactly where some line's label or name cannot be filled in |
| DexWriter.Assembler.constructor | tools/dexasm.py:31-33 | a new assembler holds no line |
| DexWriter.Assembler.R | tools/dexasm.py:35-39 | a logical register of the frame has a physical one in it |
| DexWriter.Assembler.Label | tools/dexasm.py:41-43 | a label stands at the next unit, where a line starts or the code ends |
| DexWriter.Assembler.Branch | tools/dexasm.py:45-47 | a branch appends its line and notes the unit to patch |
| DexWriter.Assembler.LoadLit | tools/dexasm.py:63-66 | the shortest const that holds the literal is emitted |
| DexWriter.Assembler.Invoke | tools/dexasm.py:107-111 | a call appends its line and makes room for its arguments |
| DexWriter.Assembler.InvokeRange | tools/dexasm.py:113-117 | a range call appends its line, its registers consecutive after renumbering |
| DexWriter.Assembler.AGetAt | tools/dexasm.py:89-91 | two lines: the literal index, then the load through it |
| DexWriter.Assembler.BinopLit8 | tools/dexasm.py:125-127 | the line appended is the operation with its signed literal |
| DexWriter.Assembler.Assemble | tools/dexasm.py:138-145 | gives the packed body of the patched units, the code item of the lines emitted, and fails exactly where a label, a name or a count cannot be filled in |
| DexRename.TurnedAt | tools/dexasm.py:35-39 | reading and setting a renumbered register is reading and setting the logical one |
| DexRename.ArgumentsFirst | tools/dexasm.py:27-30 | the arguments last in the frame are the first logical registers |
| DexRename.ExecTurned | tools/dexasm.py:35-145 | one instruction, renumbered, does to the renumbered frame what it does to the logical one |
| DexRename.AssemblyPreservesMeaning | tools/dexasm.py:35-145 | any run of the assembled units is the listing's run on logical registers, renumbered |
| DexTables.Collector.Index | tools/dexasm.py:260-291 | a name is collected with everything its id is made of; it fails exactly for a name the program lacks |
| DexTables.SymKeeps | tools/dexasm.py:260-291 | collecting loses nothing and leaves no id without its parts |
| DexTables.TablesSorted | tools/dexasm.py:296-308 | every table ascends by its key and holds what was collected, strings the shorties too |
| DexTables.CollectedResolves | tools/dexasm.py:294-323 | a name collected in the first pass resolves in the second to the table entry it names |
| DexBuild.CodeResolves | tools/dexasm.py:336-353 | so does every name in the code of every method |
| DexSections.ListsLie | tools/dexasm.py:364-369 | the offset added up for a type list is where the list is written |
| DexSections.StringsLie | tools/dexasm.py:374-378 | so for string data |
| DexSections.SectionsLie | tools/dexasm.py:355-399 | each section of the file lies at the offset recorded for it |
| DexBuild.WriteFile | tools/dexasm.py:401-439 | appending the sections and patching the header gives the file |
| DexBuild.PlanSound | tools/dexasm.py:336-353 | whatever build accepts has tables closed under their parts and numbers that fit |
| DexRoundTrip.HeadReads | tools/dexasm.py:664-669 | the header's words read back, its checksum and signature hold |
| DexRoundTrip.MapRises | tools/dexasm.py:422-431 | the map's entries are listed by ascending offset, so sorting them changes nothing |
| DexRoundTrip.MapChecks | tools/dexasm.py:672-682 | every check read makes of the map holds |
| DexRoundTrip.TablesRead | tools/dexasm.py:683-701 | strings, types, prototypes, fields and methods read back, and in order |
| DexRoundTrip.UlebReads | tools/dexasm.py:326-333 | a uleb128 number reads back and ends where its bytes end |
| DexRoundTrip.ItemReads | tools/dexasm.py:724-727 | a method's registers and code units read back at its offset |
| DexRoundTrip.ReadsBack | tools/dexasm.py:661-737 | reading a built file gives its tables and its code, or fails exactly on the count of methods or on one that does not pass read's checks, verify among them |
| DexBuild.BuiltReads | tools/dexasm.py:661-737 | reading what build made succeeds exactly if no method is listed twice and the code of each has a frame read takes, is accepted by verify, and calls its own class statically |
| DexBuild.BuiltReadsBack | tools/dexasm.py:661-737 | then it gives the sorted tables, and each method's own code under the id of that method, every number as it was and every name the place of the entry it names |
| DexRefused.TwiceRefused | tools/dexasm.py:713-713 | build makes a file of a program that lists a method twice, and read refuses it |
| DexRefused.WrongReturnRefused | tools/dexasm.py:550-551 | build makes a file of a method that is to return an int and returns nothing, and read refuses it |
| DexChain.ReadNeverStuck | tools/dexasm.py:661-737 | no run of any method of any file that read accepts gets stuck |
| DexChain.AssembledNeverStuck | tools/dexasm.py:661-737 | no method emitted through the assembler, built and accepted by read gets stuck, run as its lines are written on registers in the author's order; it returns a value of its kind |
| Field.Car | web/crypto.js:11-15 | carries keep the number modulo p and leave limbs in 16 bits but for the lowest |
| Field.Sum | web/crypto.js:34-34 | the sum in the field, limbs within twice the bounds of reduced ones |
| Field.Diff | web/crypto.js:35-35 | the difference in the field, limbs within twice the bounds of reduced ones |
| Field.Schoolbook | web/crypto.js:37-38 | the 31 limbs hold the product of the numbers, every one of them exact in a double |
| Field.Fold | web/crypto.js:39-40 | folding the upper half in with 38 keeps the residue |
| Field.Mul | web/crypto.js:36-42 | for operands that are sums or differences of reduced elements: the product in the field, limbs in [-38, 65573], aliased or not |
| Bits32.XorTwice | web/crypto.js:18-18 | the 32-bit exclusive or of a limb twice is the limb |
| X25519.Sel | web/crypto.js:16-19 | exchanges the limbs for 1 and leaves them for 0 |
| X25519.Subtract | web/crypto.js:24-28 | the borrow chain computes t - p, and its sign in bit 16 of the top limb |
| X25519.SubtractP | web/crypto.js:24-29 | p is taken off exactly if the number is at least p |
| X25519.Pack | web/crypto.js:20-32 | packs the one representative in [0, p), little-endian |
| X25519.Unpack | web/crypto.js:33-33 | the number of 32 bytes, its top bit masked |
| LimbLadder.Raise | web/crypto.js:46-46 | the loop of squarings and multiplications computes the input to a power |
| LimbLadder.Invert | web/crypto.js:44-48 | that power is p - 2; source and destination may be one |
| LimbLadder.RungAgrees | web/crypto.js:61-62 | the formulas of a pass are those of RFC 7748, factors in another order |
| LimbLadder.Pass | web/crypto.js:60-63 | exchange, pass and exchange back on the limbs is the same on field elements |
| LimbLadder.Deferred | web/crypto.js:58-64 | exchanging before and after each bit comes to the deferred exchange of RFC 7748 |
| LimbLadder.Climbing | web/crypto.js:58-64 | the loop over the bits leaves the RFC's ladder state with its pending exchange done |
| LimbLadder.ScalarBit | web/crypto.js:59-59 | the bit read from the bytes is that bit of the scalar |
| LimbLadder.Multiply | web/crypto.js:51-69 | for every scalar and point of 32 bytes the result is X25519 of RFC 7748 |
| PrimeField.Fermat | scripts/otatool.py:54-54 | the power p - 1 of anything but 0 is 1 |
| PrimeField.InvIs | scripts/otatool.py:54-54 | the power p - 2 is the inverse |
| Edwards.Complete | scripts/otatool.py:33-39 | the denominators of the addition law never vanish on the curve |
| EdPoint.Closed | scripts/otatool.py:33-39 | the sum of two points of the curve is one |
| EdPoint.AddRepresents | scripts/otatool.py:33-39 | add computes the affine twisted Edwards sum of the points its arguments stand for |
| EdPoint.ExtendedInvariant | scripts/otatool.py:32-39 | X Y = Z T holds of every point that stands for one |
| EdPoint.Mul | scripts/otatool.py:42-49 | the loop of mul computes double and add |
| EdPoint.MulRepresents | scripts/otatool.py:42-49 | mul(s, p) stands for s times p, for every s |
| EdCodec.RootOfSquare | scripts/otatool.py:65-69 | for p 5 modulo 8 the candidate, or it times SQRT_M1, is a root of every square |
| EdCodec.DecodeAfterEncode | scripts/otatool.py:52-72 | decode(encode(p)) is p in affine form, for every point with Z not 0 |
| EdCodec.EncodeAfterDecode | scripts/otatool.py:52-72 | encode(decode(b)) is b and a point of the curve, for every 32 bytes decode accepts |
| EdCodec.DecodeAccepts | scripts/otatool.py:59-72 | decode accepts exactly the bytes that encode some point of the curve |
| EdDsa.VerificationEquation | scripts/otatool.py:106-108 | [r + k a] G - [k] A is [r] G for A = [a] G |
| EdDsa.SignatureParts | scripts/otatool.py:92-96 | a signature is the nonce's point and the scalar r + k a below the order |
| EdDsa.SignedChecks | scripts/otatool.py:78-108 | check accepts every signature sign makes with the key pair of any seed, on any message |
| Bundle.Pack | scripts/otatool.py:154-168 | the loop over the files prints the bundle; a name it cannot take ends it |
| Bundle.ParseBundle | scripts/otatool.py:183-197 | the parser ends on any bytes and gives what the grammar reads |
| Bundle.HeadReads | scripts/otatool.py:188-193 | a file's line reads back as its name, mode and size |
| Bundle.MemberReads | scripts/otatool.py:188-197 | the parser passes a printed file, whatever its content holds |
| Bundle.RoundTrip | scripts/otatool.py:154-197 | parsing what pack writes gives back version and files exactly if the version has 1 to 63 bytes without a newline and no mode is negative |
| Bundle.NoVersionUnread | scripts/otatool.py:154-186 | a version of no bytes is packed, and its bundle is not read |
| Bundle.PackedInstalls | scripts/otatool.py:154-197 | a bundle packed with a seed's secret key verifies and installs with its public key |
| Limiter.NeedOf | web/loudness.js:55-55 | the gain a sample needs: at most 1, and enough to bring it under the ceiling |
| Limiter.Push | web/loudness.js:58-59 | popping and pushing keep the queue: indexes fall, needs rise, every sample of the window is covered |
| Limiter.Expire | web/loudness.js:60-60 | the head moves on exactly when its sample leaves the window |
| Limiter.WindowMinimums | web/loudness.js:56-63 | min[i] is the lowest of need[i .. i+L-1], compaction included |
| Limiter.TotalMoves | web/loudness.js:67-67 | the sum of the last L minimums moves by the one that comes in and the one that goes out |
| Limiter.Smooth | web/loudness.js:64-70 | the second loop computes the gain from that sum and the release |
| Limiter.Limit | web/loudness.js:53-72 | limit computes the samples scaled by the gain and clipped |
| Limiter.AverageCovers | web/loudness.js:49-52 | each average is of minimums that already cover the sample |
| Limiter.GainBounds | web/loudness.js:66-70 | the gain is never above what its sample needs, nor below the lowest need |
| Limiter.NoStep | web/loudness.js:49-52 | from one sample to the next the gain drops by at most 1/L and rises by at most the release |
| Limiter.UnderCeiling | web/loudness.js:49-72 | every output magnitude is at most the ceiling and at most 1 |
| Limiter.OnlyDown | web/loudness.js:49-72 | no sample gets louder than its gain makes it, and none changes sign |
| Limiter.OnlyScaled | web/loudness.js:49-72 | a signal whose peaks fit is only scaled, clipped at full scale |
| Cpio.Entries | scripts/mkbootroot.py:225-237 | the reader's loop, on a stream on which it ends, gives the entries or fails |
| Cpio.EditStream | scripts/mkbootroot.py:188-222 | the editor's loop, on a stream on which it ends, the keys used collected, is the edited stream or fails |
| Cpio.EntriesEnd | scripts/mkbootroot.py:225-237 | the reader's loop ends exactly if no offset comes twice; it has ended after twice as many turns as the stream has bytes, or never does |
| Cpio.EditingEnds | scripts/mkbootroot.py:204-219 | so does the editor's, and wherever the reader's does |
| Cpio.ForwardEnds | scripts/mkbootroot.py:225-237 | the loop ends on a stream no header of which has a negative size or namesize |
| Cpio.UnsignedCalm | scripts/mkbootroot.py:228-229 | a header without a minus sign in these two fields has none |
| Cpio.GoesRound | scripts/mkbootroot.py:204-219 | a header of a nameless file of minus 112 bytes keeps both loops where they are, for ever |
| CpioEdit.Aligned | scripts/mkbootroot.py:204-219 | offsets stay multiples of four |
| CpioEdit.ReadShift | scripts/mkbootroot.py:225-237 | from a multiple of four on a stream that goes forward reads as if it started there |
| CpioEdit.RewrittenReads | scripts/mkbootroot.py:211-216 | an entry written with other data reads as that entry with that data, whatever follows |
| CpioEdit.KeptReads | scripts/mkbootroot.py:217-218 | an entry left alone reads as it did |
| CpioEdit.EditSucceeds | scripts/mkbootroot.py:188-222 | on every stream the editor succeeds exactly if the reader does, no edit fails, and every key changed a file |
| CpioEdit.EditReads | scripts/mkbootroot.py:188-237 | the edited stream holds the same files in the same order, metadata unchanged, only the edited ones with new data |
| CpioEdit.CompareHolds | scripts/mkbootroot.py:240-248 | compare returns on what the editor made exactly if the name of every file changed is UTF-8 |
| CpioEdit.Unedited | scripts/mkbootroot.py:207-219 | without an edited file the stream goes out as it came in up to the end of the trailer, whole exactly if nothing follows that |
| CpioEdit.UneditedStream | scripts/mkbootroot.py:188-222 | with nothing to edit the editor returns its input exactly if nothing follows the trailer |
| CpioStreams.StreamReads | scripts/mkbootroot.py:225-237 | a stream written as the format has it reads as the files it was written from, whatever follows, its trailer where it ends |
| CpioStreams.ByteBehindDropped | scripts/mkbootroot.py:207-209 | a stream with a byte behind its trailer is edited to one without it |
| CpioStreams.OddNameFails | scripts/mkbootroot.py:245-248 | the edit of a file named init.\xff.rc goes through and comparing fails |
| BootImage.ImageParts | scripts/mkbootroot.py:92-104 | header page, kernel, ramdisk and trailing bytes lie at the pages the sizes give |
| BootImage.AssembledParses | scripts/mkbootroot.py:68-104 | the image assembled with another ramdisk parses as the same boot image with that ramdisk; of the header page only size and ID change |
| BootImage.RootedCompares | scripts/mkbootroot.py:297-300 | the comparison main ends with holds on the image it built exactly if the name of every file changed is UTF-8 |
| Tar.SplitPath | web/tar.js:24-31 | the loop finds the first slash that will do |
| Tar.SplitIs | web/tar.js:24-31 | prefix and name fit their fields and join to the path; it gives up exactly where no slash will do |
| Tar.PutField | web/tar.js:10-14 | puts a text at its offset, or fails if it does not fit |
| Tar.Header | web/tar.js:33-42 | fills the 512 bytes in place, checksum last |
| Tar.SumBytes | web/tar.js:21-21 | the sum of the bytes with the checksum's own as spaces |
| Tar.ChecksumReads | web/tar.js:40-40 | the checksum fits its field, changes no sum, and reads back as the sum |
| Tar.HeaderReads | web/tar.js:33-66 | a written header reads as a regular file of its size, prefix and name, checksum good |
| Tar.Write | web/tar.js:44-53 | the pieces are the bytes of the tar |
| Tar.Writes | web/tar.js:44-53 | write succeeds exactly for paths that can be divided and numbers of at most twelve octal digits |
| Tar.List | web/tar.js:56-79 | the reader ends on any bytes, its offset growing by a block at least |
| Tar.ShownIs | web/tar.js:24-73 | a path is listed as it was written exactly if it has no NUL, no slash or "./" first and no byte order mark before its parts |
| Tar.RoundTrip | web/tar.js:18-79 | list over what write made gives every file in order with its size and the true offset of its content |
| Tar.MarkDropped | web/tar.js:15-73 | a path that begins with a byte order mark is written, and listed without it |
| WakeRound.DueWithin | tools/arbsim.py:106-110 | an Echo is due within the window |
| WakeRound.Soonest | tools/arbsim.py:114-119 | the inner loop picks an Echo that decides soonest of those left |
| WakeRound.Round | tools/arbsim.py:111-121 | the round is a complete run of such decisions, in any order of ties |
| WakeRound.TimesAscend | tools/arbsim.py:111-121 | decisions come in the order of their times |
| WakeRound.TimesWithin | tools/arbsim.py:111-121 | none later than the window or sooner than 30 ms; who has not lost has answered |
| WakeRound.SomebodyAnswers | tools/arbsim.py:111-122 | somebody answers, the first within the window |
| WakeRound.TwoAnswers | tools/arbsim.py:115-117 | two answer only if each decided before the other's answer, or a better claim, could reach it |
| WakeRound.BestAloneAnswers | tools/arbsim.py:106-121 | where each Echo waits for the best, the best answers and nobody else |
| WakeRound.BetterAwaited | tools/arbsim.py:139-140 | Always and Oracle wait for every better one that heard the word |
| WakeRound.WaitingForBetter | tools/arbsim.py:106-121 | with distinct scores the best answers and nobody else, for Always and for Oracle |
| WakeRound.NeverWaiting | tools/arbsim.py:134-135 | for Never everybody answers, at 30 ms |
| RingDesign.FrameShows | web/ring.js:336-349 | the frame found is what the intro shows once and the loop shows again and again |
| RingDesign.SamePlayback | web/ring.js:336-354 | designs whose intros and loops show the same show the same at every time |
| RingDesign.StockDesign | web/ring.js:99-112 | the loop that merges frames in place |
| RingDesign.MergeKeeps | web/ring.js:101-107 | merging keeps what is shown before the loop point and from it on, and the loop point |
| RingDesign.MergeSettles | web/ring.js:101-107 | no two frames that follow each other could be merged further, but at the loop point; none is longer than 60 s |
| RingDesign.MergingKeepsPlayback | web/ring.js:88-112 | where none is cut the merged design shows the same colours at every time, intro, loop, once and turn included |
| RingDesign.DarkLoopIsOnce | web/ring.js:99-100 | until a preview starts over, a dark loop shows what playing once shows |

## Left out

- Whole-program typing of the dex: a call's or a field's answer is assumed to fit its descriptor, and return-object checks only that its operand is a reference, so no claim is made about the class of what a method returns.
- float, wide and try/catch: the subset has none; the primitive test is membership in "ZBSCI", never an empty string.
- The uses of methods that read returns, for check_framework.
- Non-ASCII strings and files of 4 GB in dex files.
- DexReader.Read: read's loops are functions over values here, a list built element by element; offsets and failures are those of the source.
- check_framework, boot_classes, cli and the programs assembled with the tool chain.
- LimbLadder.Multiply: the subarray views x16 and x32 of one array at its end are separate arrays.
- Floating point as such: X25519 shows that its doubles hold integers exactly; the limiter is over real numbers, without rounding, its release 1 - e^(-1/3840) any number in [0, 1] and its window of 240 samples any length.
- BLAKE2b, SHA-1, Adler-32 and gzip: functions of which only what is listed above is assumed. Constant-time behaviour is not modelled.
- Associativity of the Edwards addition, primality of 2^255 - 19 and the order of the base point.
- Bundle.PackedInstalls: file names and modes on disk, key files and the network commands are not part of it.
- Bundle.ParseBundle: int() refuses a size of more than 4300 digits; here it has its value.
- loudness.js beyond limit: the filters and gates of lufs, looped, and the search of match.
- CpioEdit.EditReads: asks for a stream that goes forward, that a replaced entry counts its name's NUL (the format demands it) and that new data has less than 4 GB, the size field's limit.
- The edits themselves (default_prop, no_verity, rc_lines_out): any function of a file's data.
- BootImage.AssembledParses: asks for a whole header page of at least 0x260 bytes, past the ID, and a whole kernel.
- Tar.List: the regular expression for pax paths is any function of the record's text; trim takes ASCII spaces; UTF-8 is left as bytes but for the byte order mark, which decoding drops.
- packWrite and packRead: uses of write and list.
- The scores, doors and learning estimators of arbsim.py and its random numbers: scores, delays and waiting are arbitrary.
- RingDesign.StockDesign: starts from the frames the text's lines give; the parsing of the lines, colour curves, the keys compared in place of colours, and the frames cut where a design holds fewer are not part of the playback claim.
- The designer, dialogs and drawing of ring.js; app.js and matrix.js.
- The C programs under src/, and the device and firmware scripts.
