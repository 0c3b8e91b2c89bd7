# Verified models of Apple system library code

This project models, in Dafny 4.11, the parts of two Apple libraries that are hardest to get right, and
proves what their code promises.

* **The Blocks runtime** (libclosure). `LatchingCount` is the reference count in the flags word as a
  state machine: any number of threads, interleaved at every read and every compare-and-swap.
  `CaptureLayout` is the walk over a block's captures in all four layout encodings, and
  `CaptureHelpers` the generic copy and dispose helpers with the cleanup that runs when a capture
  throws. `BlockHeap` and `BlockRuntime` are the heap of copied blocks and `__block` variables, with
  copying, forwarding and releasing, and the invariant that ties every count to the references that
  exist; `BlockCounts` keeps account of how copying moves the counts. `BlockLeaks` is about what is never
  freed and `BlockClients` about what is.
* **DES in crypt** (Libc). `DesTables` holds the constant tables and `DesSpec` the algorithm of FIPS
  PUB 46-3, bit by bit. `DesBits`, `DesKeys`, `DesEnds` and `DesRound` prove the optimised forms equal
  to it: nibble-table permutations, the incremental key schedule, the fused S-P-E tables, the
  permanently expanded halves. `Crypt` is the code that builds and uses the tables.
* **The fts walker** (Libc). `FtsWalk` specifies the stream as a machine over the list of nodes that it
  holds. `FtsListed` says which entries the walk shows, and how. `FtsRuns` proves what whole runs do
  without instructions, `FtsEnds` what they do with
  instructions, and `FtsBound` that all of them end. `Fts` is the imperative code over linked nodes and
  the shared path buffer, proved equal to the machine step by step, and `FtsClient` uses it from
  opening to closing.
* **Three smaller pieces of Libc**: `MulDiv` (the 128-bit division of nanosleep), `Wtmp` (the reader of
  login records in both directions) and `FFlags` (file flags as text).

Bits of a word are sequences of booleans in the DES modules; the flags word of a block is a 32-bit
integer. Freed nodes and cells are removed or marked, so that every access is proved to be to live
memory. Operations that change state in the source are methods of classes here, and their contracts
tie the new state to a function of the old one.

All lemmas carry `{:induction false}`: every proof by induction is written out.

`dafny verify dfyconfig.toml` checks the whole project.

## Where the code and its promises part

* fts promises that the path of a returned node is in `fts_path`. For an empty root directory named
  `/` the terminator lands on the slash, and the post-order visit shows an empty path.
  `FtsRuns.EmptySlash` is the input and `FtsRuns.BufferHoldsPath` the exact condition.
* `FTS_FOLLOW` set on a node that has not been returned yet is carried out before the node's name is
  in the path buffer, and so by the path of the node returned before it (fts.c:489-490). A plain file
  is reported as a directory, and a walk can go round a cycle. `FtsEnds.WaitingFollow` and
  `FtsEnds.WaitingFollowGoesRound` are the inputs, `FtsEnds.ArrivesAsItself` is the exact condition,
  and `FtsEnds.WalksTellTheTruth` is what holds when it is kept.
* A walk with `FTS_FOLLOW` need not end, even without `FTS_AGAIN`: following a dead link returns the
  same node each time. `FtsEnds.DeadLinkStalls` and `FtsEnds.FollowForever` show it;
  `FtsBound.RunsEnd` proves that nothing else can go on for ever.
* `muldiv128` is meant to fail for a quotient that does not fit 64 unsigned bits, but compares its
  estimate with the largest signed number. `MulDiv.SignedLimitReported` is an input that fits and is
  refused; `MulDiv.OverflowExactly` is the exact condition, and `MulDiv.OverflowReported` says what it
  comes to for every way of rounding.
* The outer loop of `muldiv128` need not end: `MulDiv.FortyNineNeverEnds` is the input, and
  `MulDiv.EndsExactly` the exact condition, for every divisor.

## Model

| member | source | states |
|---|---|---|
| LatchingCount.SwapArithmetic | libclosure-libclosure-84/runtime.cpp:56-107 | The arithmetic of the three loops on a 32-bit word: +2 and -2 move only the count, -1 on the last reference turns a count of one into the deallocating bit, and bits 16..31 are never touched. |
| LatchingCount.AttemptKeepsCount | libclosure-libclosure-84/runtime.cpp:56-107 | One completed retain, try-retain or release on a word whose count equals the references owned leaves a count equal to the references then owned, unless latched; a release reports only if none is left. |
| LatchingCount.InitialInv | libclosure-libclosure-84/runtime.cpp:56-107 | A new object with one reference, owned by one thread, satisfies the invariant of the protocol. |
| LatchingCount.StepKeepsInv | libclosure-libclosure-84/runtime.cpp:56-107 | Every read, every compare-and-swap, successful or not, and every hand-over of a reference, by any of any number of threads, keeps the invariant and bits 16..31. |
| LatchingCount.RunKeepsInv | libclosure-libclosure-84/runtime.cpp:56-107 | The same over every interleaved run. |
| LatchingCount.RunSafety | libclosure-libclosure-84/runtime.cpp:56-107 | In every run from a new object: bits 16..31 are unchanged, at most one release reports "should deallocate", every later try-retain fails, and if nothing is owned and the count has not latched, some release has reported. |
| LatchingCount.ReleaseAttempt | libclosure-libclosure-84/runtime.cpp:88-107 | Where a release completes, however many retries it took, its result is that of a single attempt on the word as it then is, and one reference fewer is owned. |
| LatchingCount.ReportsAtLastRelease | libclosure-libclosure-84/runtime.cpp:88-107 | A release that completes on an unlatched count before deallocation reports exactly if no thread owns a reference afterwards; once latched, or once deallocating, no release reports. |
| LatchingCount.LatchedForever | libclosure-libclosure-84/runtime.cpp:58-61 | Once the count has latched, no run changes the word again. |
| LatchingCount.HoldersSeeLiveObject | libclosure-libclosure-84/runtime.cpp:94-96 | A thread that owns a reference never finds the count at zero, so the underflow exit is reached only by misuse. |
| LatchingCount.AloneCompletes | libclosure-libclosure-84/runtime.cpp:56-107 | In every state that a run reaches, a thread at its read whose read and compare-and-swap are not disturbed completes its operation: one more reference for a retain and for a try-retain of an object that is not being disposed of, one fewer for a release, which reports exactly if it was the last, and the word unchanged once latched. |
| LatchingCount.StartedCompletes | libclosure-libclosure-84/runtime.cpp:56-107 | The same from the start of the operation. |
| LatchingCount.SwapFailsIfChanged | libclosure-libclosure-84/runtime.cpp:62-64 | A compare-and-swap goes back to the read if and only if the word is not what was read, and otherwise completes the operation. |
| LatchingCount.FailureMeansProgress | libclosure-libclosure-84/runtime.cpp:56-107 | If a compare-and-swap fails, some other operation has completed since the read: the loops are lock-free. |
| LatchingCount.HandOverMoves | libclosure-libclosure-84/runtime.cpp:56-107 | Handing over a reference between threads leaves the word and the number of references as they are. |
| LatchingCount.NeverStuck | libclosure-libclosure-84/runtime.cpp:56-107 | A thread in the middle of an operation always has a next step, and an idle one can start every operation that its references allow. |
| CaptureLayout.DecodeAt | libclosure-libclosure-84/runtime.cpp:529-689 | For each of the four encodings, stepping the decoder yields the pairs of the layout one by one and then the terminator. |
| CaptureLayout.WalkBounds | libclosure-libclosure-84/runtime.cpp:255-260 | The offsets of a walk start at the first capture, and each is at least a pointer beyond the one before. |
| CaptureLayout.WalkIsFlat | libclosure-libclosure-84/runtime.cpp:360-396 | The walk over (opcode, count) pairs is the walk over the flattened list of single captures and gaps. |
| CaptureLayout.SameCapturesSameWalk | libclosure-libclosure-84/runtime.cpp:529-689 | Two layouts in any of the encodings with the same flattened captures have the same walk of (kind, offset) pairs. |
| CaptureLayout.SplitRun | libclosure-libclosure-84/runtime.cpp:273-278 | Splitting a run over several opcodes, or spelling a word of plain data as eight bytes, does not change the walk. |
| CaptureLayout.StringDecoded | libclosure-libclosure-84/runtime.cpp:574-588 | Decoding the bytes written for a list of pairs, long runs taking several bytes, flattens to that list; the decoder reaches the terminator. |
| CaptureLayout.TranscriptionSameWalk | libclosure-libclosure-84/runtime.cpp:529-689 | Rewriting any layout as an out-of-line generic string, or as an extended string if it captures no block, leaves the walk unchanged. |
| CaptureLayout.InlineForms | libclosure-libclosure-84/runtime.cpp:529-572 | What each nibble of the two inline forms counts, and that for a block that captures no blocks the two forms have the same walk. |
| CaptureLayout.InlineMeaning | libclosure-libclosure-84/runtime.cpp:529-572 | The captures of an inline word, one by one: as many strong ones, blocks, __block variables and weak ones as the nibbles say, in that order and a pointer apart from offset 32 on; the extended form has no blocks. |
| CaptureLayout.OutOfLineMeaning | libclosure-libclosure-84/runtime.cpp:574-689 | The captures of a layout string, byte by byte: what each opcode of the generic and of the extended encoding captures or skips, and how far. |
| CaptureHelpers.FirstAt | libclosure-libclosure-84/runtime.cpp:404-411 | Where a walk stops: the first capture at one of the given offsets, or the end. |
| CaptureHelpers.StopsAt | libclosure-libclosure-84/runtime.cpp:512-515 | Offsets in a walk differ, so stopping at the address of capture n stops exactly at capture n. |
| CaptureHelpers.Helper.constructor | libclosure-libclosure-84/runtime.cpp:290-301 | A helper object for a layout, with nothing done yet. |
| CaptureHelpers.Helper.InitState | libclosure-libclosure-84/runtime.cpp:340-353 | The decoder and the capture pointers are at the first capture. |
| CaptureHelpers.Helper.NextState | libclosure-libclosure-84/runtime.cpp:355-358 | The decoder moves to the next pair and the counter is reset. |
| CaptureHelpers.Helper.CopyCapture | libclosure-libclosure-84/runtime.cpp:303-338 | A run of captures is copied in order up to the first that throws; the pointers and the counter are left on that one. |
| CaptureHelpers.Helper.DisposeCapture | libclosure-libclosure-84/runtime.cpp:398-438 | The rest of a run is disposed of in order, stopping before the end address without touching it, or at a capture that throws. |
| CaptureHelpers.Helper.CopyBlock | libclosure-libclosure-84/runtime.cpp:360-396 | Exactly the captures before the first throwing one are copied, in walk order and each as what it is; without a throw, all of them. |
| CaptureHelpers.Helper.DestroyRun | libclosure-libclosure-84/runtime.cpp:458-494 | One object run of the destroy loop, from wherever an interrupted walk stands. |
| CaptureHelpers.Helper.DestroyBlock | libclosure-libclosure-84/runtime.cpp:440-495 | Every capture from the start, or what an interrupted walk has left, is disposed of exactly once and in order, up to the end address or the first throw. |
| CaptureHelpers.Helper.CleanupCaptures | libclosure-libclosure-84/runtime.cpp:507-524 | Cleanup after a throw: all captures after a custom helper threw, those before the throwing one after a generic copy, those behind the throwing one after a generic dispose. |
| CaptureHelpers.Helper.CallCopyHelpers | libclosure-libclosure-84/generic_helpers.c:13-25 | For every set of captures that throw on copying: a failed generic copy releases exactly the captures acquired before it, a failed custom copy releases all, and the new block is freed once; otherwise every capture is acquired once. |
| CaptureHelpers.Helper.CallDisposeHelpers | libclosure-libclosure-84/generic_helpers.c:27-37 | Whatever throws, the dispose of every capture is attempted exactly once and in order; the block is freed here exactly if something threw. |
| CaptureHelpers.Helper.DisposeAndFree | libclosure-libclosure-84/runtime.cpp:998-1009 | With the free of _Block_release, which an exception passes over, the block is freed exactly once. |
| BlockHeap.HeapFlags | libclosure-libclosure-84/runtime.cpp:906-907 | The flags of a heap copy: the wanted count, not deallocating, BLOCK_NEEDS_FREE set, every other high bit kept. |
| BlockHeap.RetainKeepsInv | libclosure-libclosure-84/runtime.cpp:871-874 | A retain keeps the invariant: each unlatched count equals the references that exist. |
| BlockHeap.ReleaseKeepsInv | libclosure-libclosure-84/runtime.cpp:965-982 | A release keeps it; it is the last one exactly if a single reference was left, and then the cell's own references pass to the releaser. The asserted non-zero count of a byref release always holds. |
| BlockHeap.FreeKeepsInv | libclosure-libclosure-84/runtime.cpp:1004-1008 | Nothing refers to a cell at the time it is freed. |
| BlockHeap.ForwardIsAlive | libclosure-libclosure-84/runtime.cpp:922-963 | Forwarding is idempotent: the forwarding pointer of a live variable leads to a live byref that forwards to itself, on the heap exactly if its count is not zero. |
| BlockHeap.AppendKeepsInv | libclosure-libclosure-84/runtime.cpp:881-907 | A newly allocated block or byref with as many references as its count says keeps the invariant. |
| BlockHeap.ForwardKeepsInv | libclosure-libclosure-84/runtime.cpp:930-933 | Pointing the stack variable at its heap copy accounts for the frame's share of the initial count of two. |
| BlockHeap.HoldKeepsInv | libclosure-libclosure-84/runtime.cpp:935-950 | What the keep helper copied becomes a reference of the heap byref. |
| BlockHeap.CapturesKeepInv | libclosure-libclosure-84/runtime.cpp:908 | What the copy helper acquired become references of the heap block. |
| BlockHeap.EndKeepsInv | libclosure-libclosure-84/runtime.cpp:1228-1234 | When a frame ends, its variable's references pass to the code that gives them up, except those of a block in the variable to the variable itself. |
| BlockHeap.ObjectKeepsInv | libclosure-libclosure-84/runtime.cpp:303-338 | Retaining and releasing captured objects keeps each object's retains equal to the captures of it. |
| BlockHeap.CopyPersists | libclosure-libclosure-84/runtime.cpp:864-913 | What a copy made stays a copy, down to every nested block, through all later copying. |
| BlockHeap.LastIsClosed | libclosure-libclosure-84/runtime.cpp:998-1009 | A cell that loses its last reference belongs to every set that is closed under losing all references from outside. |
| BlockHeap.LeastThrough | libclosure-libclosure-84/runtime.cpp:998-1009 | Successive releases together free no more than they have to. |
| BlockHeap.FreedIsClosed | libclosure-libclosure-84/runtime.cpp:998-1009 | Whatever a release leaves alive still has a reference from outside the freed cells. |
| BlockCounts.EarnedRetain | libclosure-libclosure-84/runtime.cpp:56-66 | A retain latches the count only of a cell that then has 32767 references. |
| BlockCounts.EarnedThrough | libclosure-libclosure-84/runtime.cpp:864-963 | So does a sequence of copying steps, in which no reference to a heap cell is lost. |
| BlockCounts.SparedThrough | libclosure-libclosure-84/runtime.cpp:864-963 | A heap cell to which nothing refers is left as it is by a sequence of copying steps. |
| BlockRuntime.Runtime.constructor | libclosure-libclosure-84/runtime.cpp:864 | The empty heap satisfies the invariant. |
| BlockRuntime.Runtime.Retain | libclosure-libclosure-84/runtime.cpp:56-66 | The count goes up by one or stays latched, nothing else changes, and the caller holds one more reference. |
| BlockRuntime.Runtime.BlockCopy | libclosure-libclosure-84/runtime.cpp:864-913 | Null and global blocks are returned as they are, a heap block is retained, and a stack block becomes a new heap block whose captures are copies of the original's, to any depth; the caller gains exactly one reference and the invariant is kept. Terminates even when a variable captures itself. A new block has a count of one; a count latches only where 32767 references exist; cells that neither the block nor any cell refers to are untouched. |
| BlockRuntime.Runtime.CopyCaptures | libclosure-libclosure-84/runtime.cpp:360-396 | The captures of the new block are copies of the old ones, in order. |
| BlockRuntime.Runtime.CopyCapture | libclosure-libclosure-84/runtime.cpp:1157-1224 | Objects are retained, blocks copied, __block variables replaced by the heap byref they forward to, weak captures left uncounted. |
| BlockRuntime.Runtime.MoveByref | libclosure-libclosure-84/runtime.cpp:925-955 | The first copy of a variable makes one heap byref, to which the variable forwards, holding a copy of what the variable held. The heap byref has a count of two, and more only for what was copied with it; no count latches unearned. |
| BlockRuntime.Runtime.ByrefCopy | libclosure-libclosure-84/runtime.cpp:922-963 | A variable already on the heap is retained there and nothing else changes; otherwise it is moved. The caller gains one reference to the byref that the variable forwards to. |
| BlockRuntime.Runtime.Decrement | libclosure-libclosure-84/runtime.cpp:88-107 | The count goes down by one, or the cell is marked as deallocating because this was its last reference. |
| BlockRuntime.Runtime.BlockRelease | libclosure-libclosure-84/runtime.cpp:998-1009 | Gives up one reference and frees exactly the least set of cells closed under "unlatched and not referenced from outside the set"; everything else keeps its contents, latched cells and stack variables are untouched. Terminates because every nested dispose marks one more cell. |
| BlockRuntime.Runtime.DisposeCaptures | libclosure-libclosure-84/runtime.cpp:440-495 | Every captured reference is given up, and no more is freed than that implies. |
| BlockRuntime.Runtime.DisposeCapture | libclosure-libclosure-84/runtime.cpp:1228-1249 | Each kind of capture is given up in its own way. |
| BlockRuntime.Runtime.ByrefRelease | libclosure-libclosure-84/runtime.cpp:965-982 | Gives up a reference to the heap byref that the variable forwards to, with the same exact account of what is freed; a variable still on the stack is left alone. The refcount assertion never fails. |
| BlockRuntime.Runtime.DisposeHeld | libclosure-libclosure-84/runtime.cpp:975-978 | The destroy helper releases what the byref held. |
| BlockRuntime.Runtime.TryRetain | libclosure-libclosure-84/runtime.cpp:1011-1014 | Fails exactly for a block that is being disposed of; otherwise retains it. If it succeeds the count is one more, or latched. |
| BlockRuntime.Runtime.DeclareByref | libclosure-libclosure-84/runtime.cpp:922-926 | A variable in a frame, which may hold a block that captures the variable itself. |
| BlockRuntime.Runtime.EndFrame | libclosure-libclosure-84/runtime.cpp:1228-1234 | The end of a frame gives up its share of the heap byref, if the variable was copied, and frees exactly what that was the last reference to; nothing but a block in the variable may still mention it. |
| BlockRuntime.Runtime.MentionVariable | libclosure-libclosure-84/runtime.cpp:922-933 | A stack block that captures a variable of a live frame takes no count. |
| BlockRuntime.Runtime.ForgetVariable | libclosure-libclosure-84/runtime.cpp:922-933 | Nor is one given up when that stack block goes away. |
| BlockRuntime.HeapByrefCount | libclosure-libclosure-84/runtime.cpp:922-982 | The count of an unlatched heap byref is the number of captures that hold it, plus references in client hands, plus one exactly while the frame of its variable is alive. |
| BlockLeaks.CycleSurvives | libclosure-libclosure-84/runtime.cpp:998-1009 | No release frees any of a set of cells each of which is held by one of them. |
| BlockLeaks.SelfCaptureLeaks | libclosure-libclosure-84/runtime.cpp:965-1009 | A heap byref and a block that holds it and is held by it: no release, and no end of a frame, frees either. |
| BlockLeaks.CopyIsCycle | libclosure-libclosure-84/runtime.cpp:922-963 | Copying a variable whose block captures the variable makes such a pair. |
| BlockLeaks.SelfCapture | libclosure-libclosure-84/runtime.cpp:922-1009 | Declaring such a variable, copying it, giving the copy back and ending the frame leaves client code with nothing and the pair on the heap. |
| BlockLeaks.OnlyCyclesLeak | libclosure-libclosure-84/runtime.cpp:864-1009 | When client code holds nothing, every unlatched block or byref that is left is reached by a path of references from a cycle, from the variable of a live frame or from a latched cell. |
| BlockClients.UnreferencedIsFreed | libclosure-libclosure-84/runtime.cpp:998-1009 | An unlatched cell to which no reference is left after a release has been freed. |
| BlockClients.CopyAndRelease | libclosure-libclosure-84/runtime.cpp:864-1009 | Copying a block on the stack and releasing the result once frees the heap block, whatever it captures. |
| BlockClients.CopyVariable | libclosure-libclosure-84/runtime.cpp:922-1009 | A variable that is copied once: when the copy has been given back and the frame has ended, the heap byref has been freed. |
| DesBits.InitPerm | Libc-Libc-1534.81.1/gen/crypt.c:933-951 | Fills the nibble table in place so that it represents the bit-source table p. |
| DesBits.Permute | Libc-Libc-1534.81.1/gen/crypt.c:327-344 | For every source table and every input, output bit k is input bit p[k]-1, or zero where p[k] is zero. |
| DesTables.IpClosed | Libc-Libc-1534.81.1/gen/crypt.c:357-366 | The initial permutation in closed form, as the standard prints it. |
| DesTables.ExpandOuter | Libc-Libc-1534.81.1/gen/crypt.c:370-379 | The outer columns of the expansion: the neighbouring bits of each group of four. |
| DesTables.Pc1Closed | Libc-Libc-1534.81.1/gen/crypt.c:381-391 | Permuted choice 1 in closed form. |
| DesTables.P32Permutes | Libc-Libc-1534.81.1/gen/crypt.c:461-470 | P is a permutation. |
| DesTables.SboxRow | Libc-Libc-1534.81.1/gen/crypt.c:410-459 | Every row of every S box is a permutation of 0 to 15. |
| DesSpec.PermutationsCancel | Libc-Libc-1534.81.1/gen/crypt.c:357-366 | The final permutation undoes the initial one. |
| DesSpec.RoundsUndone | Libc-Libc-1534.81.1/gen/crypt.c:728-771 | Any number of Feistel rounds, with any salt, are undone by the same rounds with the keys in reverse. |
| DesSpec.EncipherUndone | Libc-Libc-1534.81.1/gen/crypt.c:728-771 | One pass is undone by one pass with the keys in reverse. |
| DesSpec.EncipherTimesUndone | Libc-Libc-1534.81.1/gen/crypt.c:728-771 | The same for any number of passes. |
| DesSpec.RotationsAdd | Libc-Libc-1534.81.1/gen/crypt.c:393-395 | Rotating both key halves by m and then n is rotating by m + n. |
| DesSpec.RotationsClosed | Libc-Libc-1534.81.1/gen/crypt.c:393-395 | How far the key halves have been rotated in each round, and once round in all. |
| DesKeys.BuildPc1RotSources | Libc-Libc-1534.81.1/gen/crypt.c:803-815 | The loop computes bit reversal, permuted choice 1, one rotation and padded permuted choice 2 as one source table. |
| DesKeys.InvertPc2 | Libc-Libc-1534.81.1/gen/crypt.c:829-835 | The loop computes the inverse of permuted choice 2. |
| DesKeys.BuildPc2RotSources | Libc-Libc-1534.81.1/gen/crypt.c:827-842 | The loop computes "undo permuted choice 2, rotate, redo it" as one source table. |
| DesKeys.Pc1RotMeaning | Libc-Libc-1534.81.1/gen/crypt.c:800-815 | That first table applied to any key is padded PC2 of the rotated PC1 of the key in the standard's bit order. |
| DesKeys.Pc2RotMeaning | Libc-Libc-1534.81.1/gen/crypt.c:824-842 | The stepping table takes the padded code of any C and D to the padded code of C and D rotated once or twice more. |
| DesKeys.MaskedStoreMeaning | Libc-Libc-1534.81.1/gen/crypt.c:650-658 | Masking only the first word gives the exact 48-bit code, because the zero columns of PC2 leave the other word's low bits clear. |
| DesEnds.BuildIeSources | Libc-Libc-1534.81.1/gen/crypt.c:852-866 | The loop computes the source table of the input permutation and expansion. |
| DesEnds.InputMeaning | Libc-Libc-1534.81.1/gen/crypt.c:705-714 | Collecting even and odd bits and applying IE3264 to both gives the expansions of the two halves of the initially permuted block. |
| DesEnds.BuildCfSources | Libc-Libc-1534.81.1/gen/crypt.c:876-884 | The loop computes the source table of the output compression and final permutation. |
| DesEnds.OutputMeaning | Libc-Libc-1534.81.1/gen/crypt.c:773-777 | Compressing two expanded halves and applying CF6464 is the final permutation, for every pair of halves. |
| DesRound.BuildSpeEntry | Libc-Libc-1534.81.1/gen/crypt.c:898-921 | One pair of SPE entries is E(P(S)) of a single S box output, six bits to a byte. |
| DesRound.BuildSpe | Libc-Libc-1534.81.1/gen/crypt.c:892-922 | The whole fused table. |
| DesRound.SpreadIndex | Libc-Libc-1534.81.1/gen/crypt.c:732-742 | Each byte of an S box input in expanded form is a multiple of four below 256 and selects the entry of its own six bits, so every table access is aligned and in bounds. |
| DesRound.SaltedInput | Libc-Libc-1534.81.1/gen/crypt.c:747-749 | The word operations on the half, the salt and the key form the salted E-expansion xor the round key. |
| DesRound.OneBox | Libc-Libc-1534.81.1/gen/crypt.c:752-759 | Adding one table entry adds that box's contribution to E(P(S)). |
| DesRound.Crunch | Libc-Libc-1534.81.1/gen/crypt.c:746-759 | CRUNCH is one round L xor f(R, K) of the standard on expanded halves, for every salt; the result is again an expansion of a 32-bit half with the low two bits of every byte zero. |
| Crypt.PlainDes | Libc-Libc-1534.81.1/gen/crypt.c:672-786 | With salt 0 and one iteration the cipher is DES of FIPS PUB 46-3, and with minus one its inverse. |
| Crypt.NoSalt | Libc-Libc-1534.81.1/gen/crypt.c:747-749 | Without salt the exchange does nothing. |
| Crypt.CipherUndone | Libc-Libc-1534.81.1/gen/crypt.c:672-786 | For every block, key and 24-bit salt, running the cipher with n and then with -n gives back the original bytes. |
| Crypt.PermuteOnce | Libc-Libc-1534.81.1/gen/crypt.c:728-771 | Leaving out the permutations between passes changes nothing, because they cancel. |
| Crypt.TwoRounds | Libc-Libc-1534.81.1/gen/crypt.c:761-762 | Two calls of CRUNCH without an exchange are two rounds of the standard. |
| Crypt.XorSwap | Libc-Libc-1534.81.1/gen/crypt.c:767-770 | The three-step exclusive-or exchange swaps the halves. |
| Crypt.NextCode | Libc-Libc-1534.81.1/gen/crypt.c:653-659 | Each stored code permuted through PC2ROT is the next code of the direct schedule. |
| Crypt.Des.constructor | Libc-Libc-1534.81.1/gen/crypt.c:643 | No tables yet, and no key set. |
| Crypt.Des.NewTable | Libc-Libc-1534.81.1/gen/crypt.c:819-822 | A zeroed table filled by init_perm. |
| Crypt.Des.InitDes | Libc-Libc-1534.81.1/gen/crypt.c:793-923 | Every run-time table holds what the standard's tables prescribe. |
| Crypt.Des.SetSchedule | Libc-Libc-1534.81.1/gen/crypt.c:637-662 | After the incremental schedule, KS holds for all 16 rounds PC2 of PC1 of the key rotated by the running sum of Rotates. |
| Crypt.FillSchedule | Libc-Libc-1534.81.1/gen/crypt.c:650-659 | The schedule loop in place, against that direct schedule. |
| Crypt.Des.Cipher | Libc-Libc-1534.81.1/gen/crypt.c:672-786 | The result is |num_iter| passes of salted DES under the current key, the schedule read backwards for a negative count. |
| Crypt.Des.Passes | Libc-Libc-1534.81.1/gen/crypt.c:728-771 | The outer loop: each turn is sixteen rounds and the final exchange, and the key pointer returns to its start. |
| Crypt.Des.SixteenRounds | Libc-Libc-1534.81.1/gen/crypt.c:729-764 | The inner loop: eight double rounds, the halves staying expansions of 32-bit halves. |
| Crypt.Des.SetKey | Libc-Libc-1534.81.1/gen/crypt.c:958-980 | Sets the schedule for the key that 64 entries of any value make up: each entry gives its bit in the standard's order, and what exceeds one bit runs into the entries before it in its group of eight. |
| Crypt.Des.Encrypt | Libc-Libc-1534.81.1/gen/crypt.c:986-1026 | Replaces the 64 entries by the bits, 0 or 1, of their DES encipherment, or decipherment, under the current key; an all-zero key is set if none was. |
| Crypt.Des.EncryptAndRestore | Libc-Libc-1534.81.1/gen/crypt.c:986-1026 | encrypt(block, 0) followed by encrypt(block, 1) gives back the same bits, and the same array exactly if its entries were 0 and 1. |
| Crypt.DesBlockUndone | Libc-Libc-1534.81.1/gen/crypt.c:986-1026 | Deciphering undoes enciphering, on blocks in the standard's bit order. |
| Crypt.BitsOfBits | Libc-Libc-1534.81.1/gen/crypt.c:1002-1009 | For entries of 0 and 1 the bits that they make up are the entries themselves. |
| Crypt.Pack | Libc-Libc-1534.81.1/gen/crypt.c:1002-1009 | Eight entries to a byte, high bit first, for entries of any value. |
| Crypt.Unpack | Libc-Libc-1534.81.1/gen/crypt.c:1016-1022 | Written back last bit first, giving the same order. |
| FtsWalk.RoomFits | Libc-Libc-1534.81.1/gen/fts.c:1108-1148 | Where fts_build goes on, every child's path with its terminator fits the buffer and its length fits 16 bits. |
| FtsWalk.ReadKeepsSound | Libc-Libc-1534.81.1/gen/fts.c:365-555 | Every read keeps the list in depth-first shape, every path inside the buffer and below 65535, every depth at most half its path, and no recorded identity of an open directory repeated. |
| FtsWalk.AdvanceKeepsSound | Libc-Libc-1534.81.1/gen/fts.c:462-554 | The same for leaving a node, with FTS_FOLLOW on the next one carried out by the path still in the buffer. |
| FtsWalk.DescendKeepsSound | Libc-Libc-1534.81.1/gen/fts.c:410-460 | The same for entering a directory. |
| FtsWalk.LastSlash | Libc-Libc-1534.81.1/gen/fts.c:291 | The last slash of a path, if any. |
| FtsRuns.OpenedSound | Libc-Libc-1534.81.1/gen/fts.c:142-207 | The opened stream is sound. |
| FtsRuns.ReadReports | Libc-Libc-1534.81.1/gen/fts.c:365-555 | One read without instructions reports the next event of the depth-first walk, or NULL exactly when none is left, or stops at a name that is too long. |
| FtsRuns.DepthFirst | Libc-Libc-1534.81.1/gen/fts.c:365-555 | On any finite directory graph, the reports of any number of reads are a prefix of the depth-first walk: every directory as FTS_D before and FTS_DP after its children, an unreadable one as FTS_DNR, a repeated one once as FTS_DC, every other entry once; one read more than the walk has yields all of it and then NULL for ever, unless the stream has stopped. |
| FtsRuns.ShortWalkCompletes | Libc-Libc-1534.81.1/gen/fts.c:1479-1504 | If no path has more than 32638 characters, the stream never stops and the whole walk is reported. |
| FtsRuns.BufferHoldsPath | Libc-Libc-1534.81.1/gen/fts.c:1250-1254 | The shared buffer holds exactly the reported node's path at every report if and only if no root is an empty directory named "/". |
| FtsRuns.EmptySlash | Libc-Libc-1534.81.1/gen/fts.c:1250-1254 | The failing case: an empty root "/" is reported as FTS_DP with an empty path. |
| FtsListed.ListingReported | Libc-Libc-1534.81.1/gen/fts.c:1100-1236 | Of a directory that can be read and is not open already, the walk reports every entry but "." and "..", and those two exactly with FTS_SEEDOT, in listing order, under the directory's path and the entry's name, with the type of the file: FTS_DC exactly for a directory open above, FTS_DOT exactly for directories of those two names. |
| FtsListed.ArgumentsReported | Libc-Libc-1534.81.1/gen/fts.c:142-207 | The arguments are reported in order, under their own paths and with their own types. |
| FtsListed.StatIsRight | Libc-Libc-1534.81.1/gen/fts.c:1291-1390 | Which type fts_stat gives to which file, for links followed or not. |
| FtsListed.DotFile | Libc-Libc-1534.81.1/gen/fts.c:1100-1107 | A file named .profile is reported between the two visits of its directory. |
| FtsEnds.RunKeepsSound | Libc-Libc-1534.81.1/gen/fts.c:365-574 | After any sequence of reads and fts_set calls the stream is sound. |
| FtsEnds.ArrivesAsItself | Libc-Libc-1534.81.1/gen/fts.c:486-501 | A node that waits behind the current one arrives with the type of its own file, whatever file was returned before it, if and only if FTS_FOLLOW is not set on it. |
| FtsEnds.FollowedAsItself | Libc-Libc-1534.81.1/gen/fts.c:489-490 | With FTS_FOLLOW set on it and a given file returned before, its type comes out right if and only if the two names lead to the same file, and, where that is none, both are links or neither is. |
| FtsEnds.WaitingFollow | Libc-Libc-1534.81.1/gen/fts.c:489-490 | The failing input: FTS_FOLLOW on any file that waits behind an empty directory reports the file as that directory. |
| FtsEnds.WaitingFollowGoesRound | Libc-Libc-1534.81.1/gen/fts.c:489-490 | With a link to the directory being walked in its place, the walk goes into that directory a second time. |
| FtsEnds.QuietRunsTellTheTruth | Libc-Libc-1534.81.1/gen/fts.c:365-574 | In every run from a quiet state that sets FTS_FOLLOW on no waiting node, the type of every node, and the identity of every directory, is that of its own file. |
| FtsEnds.WalksTellTheTruth | Libc-Libc-1534.81.1/gen/fts.c:142-574 | The same from fts_open on, for all arguments. |
| FtsEnds.ReadSpends | Libc-Libc-1534.81.1/gen/fts.c:365-555 | In such a run every read that returns a node lowers a finite budget computed from the directory graph, unless it follows a dead link once more. |
| FtsEnds.QuietRunsEnd | Libc-Libc-1534.81.1/gen/fts.c:1356-1383 | So the number of such reads is at most the budget, on any graph with cycles through links followed or not. |
| FtsEnds.WalksEnd | Libc-Libc-1534.81.1/gen/fts.c:142-574 | The same from fts_open on, with the budget of the arguments. |
| FtsEnds.FollowForever | Libc-Libc-1534.81.1/gen/fts.c:395-408 | The only way never to end: following a dead link again and again leaves the stream unchanged. |
| FtsEnds.DeadLinkStalls | Libc-Libc-1534.81.1/gen/fts.c:395-408 | That state is reached by a dead link given as an argument and followed twice. |
| FtsEnds.RecordedIdsDiffer | Libc-Libc-1534.81.1/gen/fts.c:1377-1383 | In every reachable state the directories open on the parent chain have different recorded device and inode pairs. |
| FtsEnds.OpenDirectoriesDiffer | Libc-Libc-1534.81.1/gen/fts.c:1377-1383 | Where FTS_FOLLOW was set on no waiting node, they are different directories. |
| FtsEnds.DepthFits | Libc-Libc-1534.81.1/gen/fts.c:1092-1098 | In every sound state depths are at most 32767, so the 16-bit level never wraps. |
| FtsBound.ReadSpendsWide | Libc-Libc-1534.81.1/gen/fts.c:365-555 | In every sound state, whatever was set, every read that returns a node lowers a bound computed from the number of directories and the longest listing, unless it follows a dead link once more. |
| FtsBound.RunsEnd | Libc-Libc-1534.81.1/gen/fts.c:365-574 | Whatever instructions are given, FTS_FOLLOW on waiting nodes included, the number of such reads from the opened stream on is bounded by a number that depends only on the graph and the arguments. |
| Fts.ParentAt | Libc-Libc-1534.81.1/gen/fts.c:1377-1378 | The parent pointers of the linked nodes lead exactly through the open directories. |
| Fts.NameWritten | Libc-Libc-1534.81.1/gen/fts.c:503-505 | Writing a slash and a name after the directory's path puts the child's path and a terminator into the buffer. |
| Fts.ChildEnt | Libc-Libc-1534.81.1/gen/fts.c:1149-1151 | The 16-bit level and path length of a new node are its true depth and length. |
| Fts.FtsStream.constructor | Libc-Libc-1534.81.1/gen/fts.c:232-248 | A stream with nothing allocated and nothing open. |
| Fts.FtsStream.Free | Libc-Libc-1534.81.1/gen/fts.c:465 | Frees a node that must still be allocated. |
| Fts.FtsStream.Alloc | Libc-Libc-1534.81.1/gen/fts.c:1431-1459 | A new node, never at an address used before. |
| Fts.FtsStream.FreeList | Libc-Libc-1534.81.1/gen/fts.c:1461-1471 | Frees each node of a list once. |
| Fts.FtsStream.OnParentChain | Libc-Libc-1534.81.1/gen/fts.c:1377-1382 | The ancestor scan finds a directory exactly if it is open above the node. |
| Fts.FtsStream.StatFile | Libc-Libc-1534.81.1/gen/fts.c:1291-1390 | The type of a node, for logical and physical walks and followed links. |
| Fts.FtsStream.Palloc | Libc-Libc-1534.81.1/gen/fts.c:1479-1504 | Grows the buffer, keeping its contents, or fails at 65535. |
| Fts.FtsStream.Napp | Libc-Libc-1534.81.1/gen/fts.c:360-362 | The length to which names are appended: none for the root "/". |
| Fts.FtsStream.GiveUp | Libc-Libc-1534.81.1/gen/fts.c:1116-1123 | Frees everything built and stops the stream. |
| Fts.FtsStream.EnsureRoom | Libc-Libc-1534.81.1/gen/fts.c:1108-1148 | Makes room for one name, with the source's two failures. |
| Fts.FtsStream.AddEntry | Libc-Libc-1534.81.1/gen/fts.c:1106-1235 | One entry becomes one node at the end of the list of children, or the build gives up. |
| Fts.FtsStream.FillEntry | Libc-Libc-1534.81.1/gen/fts.c:1149-1234 | The fields and links of the new node. |
| Fts.FtsStream.ReadEntries | Libc-Libc-1534.81.1/gen/fts.c:1100-1236 | The children made are those of the visible entries, in directory order, and the buffer has the size the names call for. |
| Fts.FtsStream.StartBuild | Libc-Libc-1534.81.1/gen/fts.c:1084-1090 | The separator goes after the directory's path, inside the buffer. |
| Fts.FtsStream.EndBuild | Libc-Libc-1534.81.1/gen/fts.c:1246-1276 | The buffer is terminated again, inside its bounds, and an empty directory becomes FTS_DP. |
| Fts.FtsStream.Build | Libc-Libc-1534.81.1/gen/fts.c:999-1282 | Reading a directory, by the path in the buffer and not by the identity recorded, has the effect specified: FTS_DNR, stop, FTS_DP or the children. |
| Fts.FtsStream.FreeHead | Libc-Libc-1534.81.1/gen/fts.c:463-465 | Leaving a node frees it and nothing else. |
| Fts.FtsStream.WriteName | Libc-Libc-1534.81.1/gen/fts.c:503-505 | Afterwards the buffer holds the node's path. |
| Fts.FtsStream.Load | Libc-Libc-1534.81.1/gen/fts.c:277-298 | Afterwards the buffer holds the root's path. |
| Fts.FtsStream.SkipSiblings | Libc-Libc-1534.81.1/gen/fts.c:486-488 | Siblings marked FTS_SKIP are freed on the way. |
| Fts.FtsStream.NextRoot | Libc-Libc-1534.81.1/gen/fts.c:471-479 | The next root becomes current. |
| Fts.FtsStream.NextSibling | Libc-Libc-1534.81.1/gen/fts.c:481-506 | The next node of the directory becomes current; if it is to be followed, its type is taken from the file whose path is still in the buffer. |
| Fts.FtsStream.FollowCurrent | Libc-Libc-1534.81.1/gen/fts.c:489-501 | The node's type and identity become those of what the path in the buffer leads to. |
| Fts.FtsStream.GoUp | Libc-Libc-1534.81.1/gen/fts.c:509-554 | The directory above becomes current as FTS_DP and the buffer holds its path. |
| Fts.FtsStream.Finish | Libc-Libc-1534.81.1/gen/fts.c:509-521 | At the end nothing is allocated any more. |
| Fts.FtsStream.Next | Libc-Libc-1534.81.1/gen/fts.c:462-555 | Leaving the current node has the effect specified. |
| Fts.FtsStream.Read | Libc-Libc-1534.81.1/gen/fts.c:365-555 | fts_read has exactly the effect specified on the list, and when it returns a node the C string in the buffer is the text specified. |
| Fts.FtsStream.FollowLink | Libc-Libc-1534.81.1/gen/fts.c:395-408 | An FTS_FOLLOW on the current link. |
| Fts.FtsStream.ReadDirectory | Libc-Libc-1534.81.1/gen/fts.c:410-460 | A directory in pre-order is skipped or entered. |
| Fts.FtsStream.ClearInstr | Libc-Libc-1534.81.1/gen/fts.c:379-381 | The instruction is used up. |
| Fts.FtsStream.Enter | Libc-Libc-1534.81.1/gen/fts.c:457-459 | The first child becomes current and the children precede their directory in the list. |
| Fts.FtsStream.Set | Libc-Libc-1534.81.1/gen/fts.c:565-574 | Changes the instruction of one node only. |
| Fts.FtsStream.Close | Libc-Libc-1534.81.1/gen/fts.c:301-318 | From any reachable state, finished, abandoned or stopped: afterwards every node ever allocated has been freed, and none twice, and nothing is open. |
| Fts.FtsStream.MaxArgLen | Libc-Libc-1534.81.1/gen/fts.c:1534-1543 | One more than the longest argument. |
| Fts.FtsStream.MakeRoots | Libc-Libc-1534.81.1/gen/fts.c:165-195 | The roots, linked in argument order. |
| Fts.FtsStream.MakeList | Libc-Libc-1534.81.1/gen/fts.c:160-207 | The parent of the roots, the roots, and the dummy node in front. |
| Fts.FtsStream.Open | Libc-Libc-1534.81.1/gen/fts.c:142-223 | Opens the stream specified, or fails exactly if the first buffer would be too large. |
| FtsClient.NodeAt | Libc-Libc-1534.81.1/gen/fts.c:301-318 | Following links, and parents at the end of a directory, leads to the nodes of the list in order and then past its end. |
| FtsClient.Act | Libc-Libc-1534.81.1/gen/fts.c:365-574 | One read or fts_set of an application: the machine's step, and what it is shown of the node returned. |
| FtsClient.Session | Libc-Libc-1534.81.1/gen/fts.c:142-574 | fts_open, any reads and instructions, and fts_close: the types, depths and strings shown are those that the machine reports, nothing is left allocated, and every node that there ever was has been freed. |
| FtsClient.WalkTree | Libc-Libc-1534.81.1/gen/fts.c:142-555 | fts_open, k reads and fts_close: what is shown is the beginning of the depth-first walk, and all of it if k exceeds its length and the stream has not stopped; every node is freed once. |
| MulDiv.Add128 | Libc-Libc-1534.81.1/gen/nanosleep.c:143-149 | The sum modulo 2^128. |
| MulDiv.Sub128 | Libc-Libc-1534.81.1/gen/nanosleep.c:153-159 | The difference modulo 2^128. |
| MulDiv.Mul64x64 | Libc-Libc-1534.81.1/gen/nanosleep.c:170-201 | The exact 128-bit product for all inputs. |
| MulDiv.Correct | Libc-Libc-1534.81.1/gen/nanosleep.c:234-237 | The inner loop ends, and leaves the smaller of the estimate and the true quotient, with its product. |
| MulDiv.ApproxClose | Libc-Libc-1534.81.1/gen/nanosleep.c:219-223 | In double arithmetic with any rounding of at most one part in 2^53, the estimate times the divisor is within one part in 2^50 of what is divided. |
| MulDiv.RunDivides | Libc-Libc-1534.81.1/gen/nanosleep.c:220-240 | A normal exit of the outer loop leaves the floor of the quotient. |
| MulDiv.OverflowExactly | Libc-Libc-1534.81.1/gen/nanosleep.c:220-240 | A quotient is reported as too large if and only if the loop is entered and its first estimate is above 2^63. |
| MulDiv.OverflowReported | Libc-Libc-1534.81.1/gen/nanosleep.c:225-226 | However estimates are rounded: a quotient of 2^64 or more is reported, and one above 2^63 by more than one part in 2^50; one below 2^63 by as much is not. |
| MulDiv.SignedLimitReported | Libc-Libc-1534.81.1/gen/nanosleep.c:225-226 | The failing input: 2^63 + 2^14 divided by one fits 64 bits and is reported as too large, however estimates are rounded. |
| MulDiv.SignedLimitExact | Libc-Libc-1534.81.1/gen/nanosleep.c:225-226 | So is 2^63 + 4096, which is a double and is not rounded at all. |
| MulDiv.StuckForever | Libc-Libc-1534.81.1/gen/nanosleep.c:220-240 | Where the estimate for a number that is still to be lowered is below one, the loop never ends. |
| MulDiv.EndsOrNever | Libc-Libc-1534.81.1/gen/nanosleep.c:220-240 | A division that has not ended after one pass more than its quotient never ends. |
| MulDiv.EndsExactly | Libc-Libc-1534.81.1/gen/nanosleep.c:219-240 | Every division by a divisor ends if and only if no estimate for a number from the divisor to one part in 2^50 - 1 above it is below one; for a divisor below 2^50 - 1, if and only if the divisor times its reciprocal, in double arithmetic, is not below one. |
| MulDiv.EndsUnlessMultiple | Libc-Libc-1534.81.1/gen/nanosleep.c:220-240 | Every division ends whose remainder is more than one part in 2^50 - 1 of the divisor; for a divisor below 2^50 - 1, every one that leaves a remainder. |
| MulDiv.FortyNineNeverEnds | Libc-Libc-1534.81.1/gen/nanosleep.c:219-240 | The failing input: 49 divided by 49 never ends. |
| MulDiv.NearestDoubles | Libc-Libc-1534.81.1/gen/nanosleep.c:219-223 | The two roundings behind that input are to the nearest double. |
| MulDiv.MulDiv128 | Libc-Libc-1534.81.1/gen/nanosleep.c:204-243 | For every way of rounding: the outcome is that of the loop specified; a normal exit gives floor(x*y/divisor), below 2^64, and implies divisor > 0; overflow is reported exactly if the loop is entered and its first estimate is above 2^63. Dividing by zero, it is reported exactly if x*y is not zero. |
| Wtmp.InWholeBlocks | Libc-Libc-1534.81.1/gen/utmpx-darwin.c:821 | The first read takes between 1 and 32 records and leaves a multiple of 32. |
| Wtmp.Loaded | Libc-Libc-1534.81.1/gen/utmpx-darwin.c:835-854 | A block read from the file holds the right records, seen from either end. |
| Wtmp.Reader.constructor | Libc-Libc-1534.81.1/gen/utmpx-darwin.c:490-504 | Closed, and set to read backward. |
| Wtmp.Reader.SetDir | Libc-Libc-1534.81.1/gen/utmpx-darwin.c:691-710 | A negative argument keeps the direction. |
| Wtmp.Reader.ReadSome | Libc-Libc-1534.81.1/gen/utmpx-darwin.c:842 | read() returns between one byte and the number asked for, as many as are at hand, or nothing at the end. |
| Wtmp.Reader.Fill | Libc-Libc-1534.81.1/gen/utmpx-darwin.c:840-848 | The read loop fills the buffer exactly if the file has enough bytes, however short the single reads. |
| Wtmp.Reader.CheckSignature | Libc-Libc-1534.81.1/gen/utmpx-darwin.c:805-813 | Good exactly if the first record is read whole and is a signature record. |
| Wtmp.Reader.FirstBlock | Libc-Libc-1534.81.1/gen/utmpx-darwin.c:814-854 | The stream is positioned with nothing taken yet. |
| Wtmp.Reader.SetFile | Libc-Libc-1534.81.1/gen/utmpx-darwin.c:773-862 | Opens exactly if there is a signature record, read whole, and at least one more record. |
| Wtmp.Reader.LoadBlock | Libc-Libc-1534.81.1/gen/utmpx-darwin.c:654-682 | The next block of 32 records, before or after the last one. |
| Wtmp.Reader.GetFile | Libc-Libc-1534.81.1/gen/utmpx-darwin.c:622-685 | Returns the next record in the order of the direction, and NULL exactly when all have been returned; a closed stream is first opened, exactly if there is a signature record, read whole, and at least one more record. |
| Wtmp.Reader.ReadAll | Libc-Libc-1534.81.1/gen/utmpx-darwin.c:622-685 | Exactly if the file can be opened so, reading to the first NULL yields every record once, in file order when forward and in exactly the reverse order when backward, for every number of records. |
| FFlags.MappingAt | Libc-Libc-1534.81.1/gen/strtofflags.c:72-99 | The 21 names; all start with "no" and no printed form is longer than 12 characters. |
| FFlags.FflagsToStr | Libc-Libc-1534.81.1/gen/strtofflags.c:109-133 | The buffer of 273 characters is never overrun and holds the comma-separated names, terminated. |
| FFlags.StrSep | Libc-Libc-1534.81.1/gen/strtofflags.c:154 | The next token and what follows it. |
| FFlags.Find | Libc-Libc-1534.81.1/gen/strtofflags.c:158-180 | The first entry that the token names, in either form. |
| FFlags.StrToFflags | Libc-Libc-1534.81.1/gen/strtofflags.c:142-183 | The result of parsing the tokens in order. |
| FFlags.ParseMeans | Libc-Libc-1534.81.1/gen/strtofflags.c:142-183 | Parsing succeeds exactly if every token is known, and otherwise names the first unknown token; either way it sets and clears exactly the flags that some token before that asks for. |
| FFlags.PrintedIsRead | Libc-Libc-1534.81.1/gen/strtofflags.c:159-177 | The printed form of every entry, the inverted one included, is read as that entry and as setting its flag. |
| FFlags.SplitJoined | Libc-Libc-1534.81.1/gen/strtofflags.c:154 | Splitting at separators undoes joining with commas. |
| FFlags.RoundTrip | Libc-Libc-1534.81.1/gen/strtofflags.c:109-183 | For every flags word, parsing its text succeeds with exactly its named flags to set and none to clear, the empty text included. |
| FFlags.NamedFlags | Libc-Libc-1534.81.1/gen/strtofflags.c:72-99 | The named flags are all flags of the table and no others. |
| FFlags.FormsMean | Libc-Libc-1534.81.1/gen/strtofflags.c:158-180 | For every entry, what each of its two forms alone sets or clears. |
| FFlags.OthersRefused | Libc-Libc-1534.81.1/gen/strtofflags.c:179-180 | A token that is neither form of any entry is refused, and named. |
| FFlags.TokensSplit | Libc-Libc-1534.81.1/gen/strtofflags.c:154 | The tokens are exactly what stands between tabs, spaces and commas. |

## Left out

Blocks runtime:
- Pointer authentication, descriptor layout and the choice of helper kind from the descriptor: a layout is given as such. A block without a generic helper is one whose layout has no captures.
- Custom copy and dispose helpers: their code is not visible; they are events that may throw.
- A second exception while cleanup is running.
- Garbage-collection flags, `_Block_destructInstance`, failing malloc, and blocks handed to Objective-C retain and release: an object only has its retains counted.
- LatchingCount.RunSafety: the value returned by a retain, which no caller uses, is not modelled.
- BlockRuntime.Runtime.MoveByref: keep and destroy helpers of a variable are modelled as owning one block, copied with _Block_copy and released with _Block_release; a variable without helpers holds plain data. Unretained and weak variables hold nothing.
- BlockRuntime.Runtime.BlockCopy: the copy helper's captures are stored into the new block when all have been copied, not one by one; nothing can see the block before. The heap is changed by one thread at a time; the interleaving of threads on one count is in LatchingCount.
- BlockRuntime.Runtime.EndFrame: what the variable itself held is handed back to the frame's code to give up, since the compiler emits that.

DES:
- `crypt()` itself: password framing, the setting string and the ASCII output.
- The LARGEDATA variant of the tables and the pre-ANSI machine variants; the upper half of a 64-bit `long`, which every use masks or ignores.
- Crypt.Des.Cipher: num_iter is an integer of any size; the negation of the smallest 32-bit integer, which overflows in C, is its true negation here.

fts:
- Changing directories, descriptors, `getattrlistbulk` decoding and failing system calls other than an unreadable directory and a failing stat: the model is that of FTS_NOCHDIR on a file system that does not change.
- `fts_children`, FTS_AGAIN, an empty argument list, comparison functions and `fts_sort`, FTS_XDEV, FTS_NOSTAT, FTS_COMFOLLOWDIR and failing malloc.
- Fts.FtsStream.Open: a root's path length is set when it is allocated and not when it is loaded; nothing reads it in between.
- Fts.FtsStream.Palloc: `realloc` succeeds and the adjustment of pointers into a moved buffer is not modelled.
- FtsEnds.QuietRunsEnd: the budget bounds the reads but is not the least bound.
- FtsBound.RunsEnd: nor is this bound, which takes every directory to be as large as the largest.

The rest:
- MulDiv.MulDiv128: doubles are real numbers and rounding is any function with an error of at most one part in 2^53, the same one for every operation; no operation here leaves the range of doubles. Converting the estimate NaN to an integer, for 0 divided by 0, is undefined in C and does not matter to the outcome.
- Wtmp.Reader.SetFile: `open`, `fstat` and `lseek` succeed, EINTR and EAGAIN are not modelled, and the conversion of a 32-bit record to the 64-bit structure is not part of this model. What makes a record a signature is a parameter.
- FFlags.StrToFflags: both result pointers are given; the numerical values of the flags do not matter beyond being different bits.
- ASL, the utmp writers, locking, clocks, signals, and everything else in the two libraries: system calls, or members that would be easier than those here.
