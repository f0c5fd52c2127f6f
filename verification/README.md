# Verified model of an RT-Thread board package

Dafny models of the allocators, the scheduler, the inter-process communication objects and the text and stream
codecs that the board package is built on, with proofs of what they keep over every run. Verify the project with
`dafny verify dfyconfig.toml`.

| files | what they model |
|---|---|
| HeapModel, HeapTheorems, HeapRuns | the memory heap (`memheap.c`) on values: blocks, free list, counters; its invariant and laws over runs |
| Rings, MemHeap | the same heap as header words in a memory, with next, prev, next_free and prev_free links; every operation refines the one on values |
| HeapSystem | `rt_malloc`, `rt_free` and `rt_realloc` over several heaps in one memory |
| HeapAnswers, HeapSystemAnswers | what the callers of one heap and of several see: answers, sizes, order of reuse, high-water mark |
| SmallHeapModel, SmallHeap, SmallHeapLaws | the small-memory heap (`mem.c`), on values and as offset links, and what its callers see |
| JsonText, JsonParse, JsonRoundTrip | cJSON trees, the text both printers give, the parser, and the round trip |
| Bits, JsonBuffer, JsonPrint | the growing print buffer and the allocating printers, both proved to give that text |
| JsonMinify, JsonStrings | the in-place minifier; string literals with their two passes, UTF-16 and UTF-8 |
| JsonPlaces | where the values of a tree stand in its text, and where the buffer printer says they do |
| JsonGrammar, JsonPrinted | the texts of RFC 8259 and what they denote: all of them are parsed, and what is printed is one of them |
| JsonPieces | what minifying takes out of a text, piece by piece |
| JsonNumbers, JsonAccepted | any text the parser accepts: minifying keeps its tree, and its tree prints and parses back |
| WaitLists | kernel lists and the ordered wait list of a kernel object |
| Semaphore, Mutex, Event, Mailbox, MessageModel, MessageQueue | one system of threads per object: each section with interrupts disabled is a step; the classes are the objects, one method for each section |
| MutexLaws, EventLaws, MailboxLaws, MessageLaws, SchedulerLaws | who is answered what, who waits, who is woken and what else stays as it was |
| FirstSet, Scheduler | the lowest-set-bit table and the uniprocessor scheduler with the wait lists of all objects |
| KernelCalls, Kernel, KernelMutex | a semaphore and a mutex inside the scheduler's kernel, proved to behave as their own systems do; the mutex's boosts move ready owners and its release restores them |
| AudioFifo, Base64, Format | the audio node list, the WiFi settings codec, and the kernel's bounded formatter |
| FormatLaws | what each directive prints, read off its text |
| Seqs | facts about sequences that several of the files use |

Conventions. Each object is modelled twice: as a value with functions, on which the theorems are stated, and as a
class whose methods change fields, arrays and links the way the source does and whose postconditions equate the new
state with the function of the old one. `WaitLists.ListNodes` is the linked list of threads; the semaphore links its
waiters through it, and the other kernel objects keep theirs as the sequences it is proved to spell out. The scheduler
holds the wait lists of all objects, because a thread has one list node; `Kernels` and `KernelMutexes` join the
scheduler with a semaphore and with a mutex. Priorities of threads change from outside in the runs of all systems.
A call that blocks ends with the thread
suspended and continues, when it runs again, as a new step; the threads a step resumes are returned to the caller, and what resuming
does is part of the scheduler model. The semaphore that guards a heap and the disabling of interrupts are the
boundaries of steps. The configuration is that of `rtconfig.h`: alignment 4, 32 priorities, one processor.

Where the code and its promises part, the code is modelled and the difference is stated exactly:

- `Mutexes.GivesUpLastExactly`, `Mutexes.LostAtDepth257`: the nesting counter is one byte wide.
- `Mutexes.ReleaseInherits`, `Mutexes.FifoHandover`: a FIFO mutex can be passed on to a thread that is less urgent than another waiter.
- `Mutexes.RepriceUrgent`, `Mutexes.OwnerLeftBehind`: a waiter that is made more urgent from outside does not raise the owner of the mutex, nor change its place in the list.
- `Semaphores.BalanceExactly`, `Semaphores.OverflowLosesCount`: a release can overflow the 16-bit count.
- `Semaphores.OrderKeptExactly`, `Semaphores.PriorityOvertakes`: a waiting thread whose priority changes keeps its place in the list.
- `Schedulers.BlockSwitches`, `Schedulers.BlockedUnderLock`: a thread that blocks with the scheduler locked, or with nobody ready, runs on although it is suspended; `Kernels.ReturnsUngranted`: its take of a semaphore then returns without a grant.
- `Schedulers.BlockedExactly`, `Schedulers.BlockedTwice`: when such a thread blocks again it is linked into a second wait list.
- `SmallHeapModel.MallocFailsExactly`, `SmallHeapModel.WholePoolRefused`: the search does not look below the lowest-free pointer, nor at a last block that fits exactly.
- `SmallHeapModel.ReallocLowest`, `SmallHeapModel.OverlookedAfterResize`: resizing does not lower the lowest-free pointer.
- `SmallHeapLaws.ReallocExactly`, `SmallHeapLaws.SmallerRefused`: a resize to a little less moves the block and can fail.
- `SmallHeapModel.SearchEndsExactly`: in a pool of four or eight bytes the search never ends.
- `JsonPlaces.AnnouncedInside`, `JsonPlaces.NestedObjectMisplaced`: the pointer returned for a nested, formatted, non-empty object is the buffer plus the depth, which is not where its text stands unless it is the first item of arrays all the way up.
- `JsonMinify.CleanExactly`, `JsonMinify.UnclosedRunOn`: the minifier runs past the terminator of a text with an unclosed literal or comment.
- `Formats.OctalExactly`, `FormatLaws.IntegerPrints`: the octal conversion divides by sixteen and prints hexadecimal digits.
- `FormatLaws.IntegerHidden`: a precision of zero hides the digits of every number, not only of zero.

## Model

| member | source | states |
|---|---|---|
| HeapRuns.RunInv | 1. 源代码/rt-thread/src/memheap.c:50-595 | In every state that any sequence of allocs, frees and reallocs reaches, the blocks are an address-ordered tiling of the pool that ends in the used tail block, the free list holds exactly the unused blocks, no two neighbours are free, payloads are aligned and at least the minimum, and both counters are right |
| HeapTheorems.InitInv | 1. 源代码/rt-thread/src/memheap.c:50-121 | Initialising gives a heap in order, at any start address, if and only if the aligned pool holds two headers and a minimal block |
| HeapTheorems.AllocFailsExactly | 1. 源代码/rt-thread/src/memheap.c:138-281 | An allocation fails if and only if the rounded size is not strictly below the free total or no free block holds it, and then nothing changes |
| HeapTheorems.FirstFitExact | 1. 源代码/rt-thread/src/memheap.c:169-180 | The free-list search finds a block exactly when one fits, and what it finds is an unused block of the heap that is large enough |
| HeapTheorems.FirstFitIsFirst | 1. 源代码/rt-thread/src/memheap.c:169-180 | Everything listed before the block found is too small |
| HeapTheorems.RequestIsLeast | 1. 源代码/rt-thread/src/memheap.c:147-150 | The rounded request is the least aligned size that is not below the request and the minimum |
| HeapTheorems.AllocInv | 1. 源代码/rt-thread/src/memheap.c:138-281 | An allocation keeps the heap in order, whether it splits a block or takes a whole one |
| HeapTheorems.FreeInv | 1. 源代码/rt-thread/src/memheap.c:495-595 | Freeing any live pointer keeps the heap in order, whichever neighbours it merges with |
| HeapRuns.ReallocInv | 1. 源代码/rt-thread/src/memheap.c:284-492 | Resizing any live pointer to any size keeps the heap in order |
| HeapRuns.LiveDisjoint | 1. 源代码/rt-thread/src/memheap.c:138-281 | Two live allocations never overlap, and a header lies between them |
| HeapRuns.AllocTakes | 1. 源代码/rt-thread/src/memheap.c:182-270 | A successful allocation adds exactly one live payload, aligned from the start of the pool, at least as large as asked and less than a header and a minimal block larger; every other allocation is as before |
| HeapRuns.FreeGives | 1. 源代码/rt-thread/src/memheap.c:495-595 | Freeing removes exactly the freed payload from the live allocations |
| HeapRuns.FreeUndoesAlloc | 1. 源代码/rt-thread/src/memheap.c:138-595 | Freeing what was just allocated restores the blocks, the free total and the set of free blocks |
| HeapRuns.InPlace | 1. 源代码/rt-thread/src/memheap.c:310-491 | A block resized in place, smaller or into its free successor, keeps its address, is at least as large as asked, and no other allocation changes |
| HeapRuns.Moves | 1. 源代码/rt-thread/src/memheap.c:408-416 | A block that does not stay in place is exchanged for a fresh one that is large enough, and no other allocation changes; when it stays is HeapAnswers.ReallocExactly |
| HeapRuns.ReallocFails | 1. 源代码/rt-thread/src/memheap.c:284-492 | A resize that returns nothing has changed nothing, and only happens when a larger size was asked and no allocation of it succeeds |
| HeapAnswers.ReallocExactly | 1. 源代码/rt-thread/src/memheap.c:310-416 | A resize answers with the same pointer if and only if the rounded request fits the block, or the block right behind is free and both payloads exceed the request by more than the minimum; it returns nothing if and only if neither holds and no allocation of the size succeeds |
| HeapAnswers.StayingSize | 1. 源代码/rt-thread/src/memheap.c:350-491 | A block that stays gets exactly the rounded size, unless what would be cut off is not more than a header and a minimal block |
| HeapAnswers.MovedSize | 1. 源代码/rt-thread/src/memheap.c:408-416 | A block that moves is fresh, the old one is no longer live, and the new size is less than a header and a minimal block above the request |
| HeapAnswers.ReallocEnds | 1. 源代码/rt-thread/src/memheap.c:293-309 | Resizing no pointer allocates and resizing to nothing frees |
| HeapAnswers.AllocFirst | 1. 源代码/rt-thread/src/memheap.c:169-180 | An allocation takes the first block in the free list that is large enough |
| HeapAnswers.FreedFirst | 1. 源代码/rt-thread/src/memheap.c:580-592 | Memory that is freed and does not join a lower free block is handed out before any other that fits |
| HeapAnswers.FreeListStacked | 1. 源代码/rt-thread/src/memheap.c:138-595 | Over every call the free list is a stack from which entries may leave anywhere: those that come stand before all that were there, which keep their order |
| HeapAnswers.RunHighWater | 1. 源代码/rt-thread/src/memheap.c:234-355 | After every run max_used_size is exactly the most that was in use at any time since initialisation, also in the middle of a move |
| HeapRuns.RunConserves | 1. 源代码/rt-thread/src/memheap.c:50-595 | Over every run, free payloads, live payloads and headers add up to the pool, and max_used_size bounds what is in use |
| HeapRuns.RunDrains | 1. 源代码/rt-thread/src/memheap.c:50-595 | A run after which nothing is live has merged everything back into the one initial free block |
| HeapSites.MallocFailsExactly | 1. 源代码/rt-thread/src/memheap.c:610-647 | With several heaps a request fails if and only if none of them can serve it |
| HeapSites.MallocFrom | 1. 源代码/rt-thread/src/memheap.c:610-647 | A block comes from the system heap if it can serve the request, else from one other heap, and the remaining heaps are untouched |
| HeapSystemAnswers.MallocOrder | 1. 源代码/rt-thread/src/memheap.c:610-647 | The heap that serves is the system heap or else the first of the others that can; all that were asked before it refused |
| HeapSystemAnswers.ResizeExactly | 1. 源代码/rt-thread/src/memheap.c:656-695 | rt_realloc answers with the same pointer if and only if the owning heap keeps the block in place, and with none if and only if it does not and no heap can serve the size |
| HeapSystemAnswers.ResizeAtHome | 1. 源代码/rt-thread/src/memheap.c:656-672 | A resize that the owning heap can serve leaves all other heaps alone |
| HeapSystemAnswers.ResizeToNothing | 1. 源代码/rt-thread/src/memheap.c:664-668 | Resizing to nothing takes exactly that block from its heap |
| HeapSites.LiveDisjointEverywhere | 1. 源代码/rt-thread/src/memheap.c:138-281 | Live payloads never overlap, whichever heaps they come from |
| HeapSites.OwnerUnique | 1. 源代码/rt-thread/src/memheap.c:495-521 | The pool pointer in a block's header names the heap that handed the block out, and only that one |
| MemHeaps.MemHeap.constructor | 1. 源代码/rt-thread/src/memheap.c:50-121 | The header words written at initialisation are the doubly linked block ring and free ring of the initial heap; the memory keeps its size, and no byte or link outside the pool changes |
| MemHeaps.MemHeap.Alloc | 1. 源代码/rt-thread/src/memheap.c:138-281 | On the linked headers the allocator does what the abstract heap does, touches nothing outside its pool and changes no payload that is in use |
| MemHeaps.MemHeap.Search | 1. 源代码/rt-thread/src/memheap.c:169-180 | The walk over the linked free list stops at the first block that fits |
| MemHeaps.MemHeap.Free | 1. 源代码/rt-thread/src/memheap.c:495-595 | On the linked headers freeing and merging do what the abstract heap does |
| MemHeaps.MemHeap.Realloc | 1. 源代码/rt-thread/src/memheap.c:284-492 | On the linked headers resizing does what the abstract heap does, and the first min(old, new) payload bytes are kept on shrinking, in-place growth and moving |
| HeapSystems.InitHeaps | 1. 源代码/rt-thread/src/memheap.c:50-121 | Initialising any number of disjoint pools of one memory, in any order of addresses, gives as many heaps in order beside each other, and changes no byte outside the pools |
| HeapSystems.HeapSystem.constructor | 1. 源代码/rt-thread/src/memheap.c:50-121 | So the system of several heaps starts in order, every heap being the initial one of its pool |
| HeapSystems.HeapSystem.Malloc | 1. 源代码/rt-thread/src/memheap.c:610-647 | Over heaps that share one memory, rt_malloc serves from the heaps in the order stated and changes no live byte |
| HeapSystems.HeapSystem.PoolOf | 1. 源代码/rt-thread/src/memheap.c:520-521 | Following a header's pool pointer reaches the heap the block came from |
| HeapSystems.HeapSystem.Free | 1. 源代码/rt-thread/src/memheap.c:650-653 | A freed block goes back to the heap it came from; no payload byte changes |
| HeapSystems.HeapSystem.Realloc | 1. 源代码/rt-thread/src/memheap.c:656-695 | rt_realloc resizes within the owning heap or moves to another one, keeps the first min(old, new) bytes of the payload and every byte of the other allocations |
| Rings.RingRemove | 1. 源代码/rt-thread/src/memheap.c:357-367 | Unlinking one node of a doubly linked ring leaves a ring of the others in the same order |
| Rings.RingInsert | 1. 源代码/rt-thread/src/memheap.c:209-225 | Linking a new node behind another leaves a ring with it in that place |
| JsonRoundTrip.ParsePrinted | 1. 源代码/packages/cJSON-v1.0.2/cJSON.c:329-345 | Parsing the formatted or unformatted text of any printable tree gives the tree back and consumes the whole text, also when a terminator is demanded |
| JsonRoundTrip.ValueRoundTrip | 1. 源代码/packages/cJSON-v1.0.2/cJSON.c:363-376 | The text of a value, followed by anything that does not continue a number, parses to the value and leaves what follows |
| JsonRoundTrip.ItemsRoundTrip | 1. 源代码/packages/cJSON-v1.0.2/cJSON.c:412-437 | The items of a printed array parse back, blanks between them included, up to the closing bracket |
| JsonRoundTrip.MembersRoundTrip | 1. 源代码/packages/cJSON-v1.0.2/cJSON.c:520-553 | The members of a printed object parse back, indentation included, up to the closing brace |
| JsonRoundTrip.StringRoundTrip | 1. 源代码/packages/cJSON-v1.0.2/cJSON.c:198-312 | A printed string literal parses to the string it was printed from |
| JsonRoundTrip.NumberRoundTrip | 1. 源代码/packages/cJSON-v1.0.2/cJSON.c:102-121 | A printed 32-bit integer parses to the same number |
| JsonRoundTrip.PrintedApart | 1. 源代码/packages/cJSON-v1.0.2/cJSON.c:348-349 | Trees with the same text, even one formatted and one not, are the same tree |
| JsonGrammar.ParseAccepts | 1. 源代码/packages/cJSON-v1.0.2/cJSON.c:329-345 | The parser accepts every text of RFC 8259, with any white space, to its end, and the tree it gives is what the text denotes by a definition of its own |
| JsonGrammar.TreeReads | 1. 源代码/packages/cJSON-v1.0.2/cJSON.c:363-376 | So does reading a value in front of anything that may follow one |
| JsonGrammar.NumeralReads | 1. 源代码/packages/cJSON-v1.0.2/cJSON.c:102-121 | Every number of section 6, with fraction and exponent, is read as the real number it denotes |
| JsonGrammar.EscapesMean | 1. 源代码/packages/cJSON-v1.0.2/cJSON.c:207-245 | The escapes and hexadecimal digits are those of section 7 |
| JsonPrinted.PrintedDenotes | 1. 源代码/packages/cJSON-v1.0.2/cJSON.c:378-409 | What either printer writes for a printable tree, formatted or not, is a text of RFC 8259 that denotes the tree |
| JsonMinify.MinifyPrinted | 1. 源代码/packages/cJSON-v1.0.2/cJSON.c:741-756 | Minifying either print of a tree leaves exactly its unformatted print: formatting adds only blanks outside string literals |
| JsonMinify.QuoteKept | 1. 源代码/packages/cJSON-v1.0.2/cJSON.c:752 | The minifier keeps a whole string literal, escapes included |
| JsonMinify.MinifyInPlace | 1. 源代码/packages/cJSON-v1.0.2/cJSON.c:741-756 | Rewriting the array in place leaves the minified text and its terminator, for every text whose literals and block comments are closed, and changes nothing behind the old terminator |
| JsonMinify.CleanExactly | 1. 源代码/packages/cJSON-v1.0.2/cJSON.c:741-756 | The loop stays inside the text if and only if every literal it meets ends with an unescaped quote and every block comment with a closing mark |
| JsonMinify.UnclosedRunOn | 1. 源代码/packages/cJSON-v1.0.2/cJSON.c:751-752 | An unclosed literal and an unclosed comment run on; the star that opens a comment may also close it |
| JsonPieces.MinifyLeaves | 1. 源代码/packages/cJSON-v1.0.2/cJSON.c:741-756 | Cut into blanks, comments, literals and other characters, a text loses exactly its blanks and comments; the rest stays whole and in order |
| JsonPieces.ClosedCut | 1. 源代码/packages/cJSON-v1.0.2/cJSON.c:741-756 | Every text the minifier stays inside can be cut so |
| JsonAccepted.MinifyKeepsParse | 1. 源代码/packages/cJSON-v1.0.2/cJSON.c:741-756 | Minifying any text that is accepted to its end, however written, gives a text that is parsed as the same tree, if its literals are well formed |
| JsonAccepted.ReprintStable | 1. 源代码/packages/cJSON-v1.0.2/cJSON.c:329-345 | What any text is parsed as can be printed and is parsed back as itself, if its numbers are 32-bit integers |
| JsonNumbers.NumberAt | 1. 源代码/packages/cJSON-v1.0.2/cJSON.c:102-121 | Reading a number, with fraction and exponent, stops where it stopped when what follows is exchanged for anything that ends a value |
| JsonMinify.CopyLiteral | 1. 源代码/packages/cJSON-v1.0.2/cJSON.c:752 | The inner loop copies a literal up to its closing quote without overtaking what is unread |
| JsonMinify.SkipComment | 1. 源代码/packages/cJSON-v1.0.2/cJSON.c:751 | The comment loop stops two characters behind the first closing mark |
| Bits.Pow2gtIsLeast | 1. 源代码/packages/cJSON-v1.0.2/cJSON.c:123 | The shift-and-or helper returns the least power of two that is not below its argument |
| JsonBuffers.PrintBuffered | 1. 源代码/packages/cJSON-v1.0.2/cJSON.c:351-359 | For every printable tree and every first size of at least one, the buffer starts with the same text the other printers give, terminated, and that is where the result points to |
| JsonBuffers.PrintBuffer.Ensure | 1. 源代码/packages/cJSON-v1.0.2/cJSON.c:127-142 | Reserving room keeps the text so far, in the same buffer if it suffices and else in one of the rounded size |
| JsonBuffers.PrintBuffer.Update | 1. 源代码/packages/cJSON-v1.0.2/cJSON.c:144-150 | The offset moves past the value just printed, wherever inside it the printer left it |
| JsonBuffers.PrintBuffer.PrintValue | 1. 源代码/packages/cJSON-v1.0.2/cJSON.c:378-397 | Printing a value behind the text so far appends exactly its text and a terminator, inside the room reserved; the place returned is its start, except for a formatted non-empty object |
| JsonBuffers.PrintBuffer.PrintArray | 1. 源代码/packages/cJSON-v1.0.2/cJSON.c:440-474 | As PrintValue for an array and the loop over its items |
| JsonBuffers.PrintBuffer.PrintObject | 1. 源代码/packages/cJSON-v1.0.2/cJSON.c:556-613 | As PrintValue for an object and the loop over its members; formatted, the place returned is the depth, because the index that kept the start counts the tabs |
| JsonPlaces.AnnouncedInside | 1. 源代码/packages/cJSON-v1.0.2/cJSON.c:378-397 | Wherever a value is nested in a formatted print from the top, its text stands at its place; the place returned for it is never behind that, and is right if and only if the value is no non-empty object or is the first item of arrays all the way up |
| JsonPlaces.NestedObjectMisplaced | 1. 源代码/packages/cJSON-v1.0.2/cJSON.c:556-613 | The object inside {"a":{"b":null}} begins at 8 and is announced at 1 |
| JsonBuffers.PrintBuffer.PrintString | 1. 源代码/packages/cJSON-v1.0.2/cJSON.c:258-313 | As PrintValue for a string, with and without characters to escape |
| JsonBuffers.PrintBuffer.PrintNumber | 1. 源代码/packages/cJSON-v1.0.2/cJSON.c:153-169 | As PrintValue for an integer, inside the 21 characters reserved |
| JsonBuffers.EscapedLength | 1. 源代码/packages/cJSON-v1.0.2/cJSON.c:284 | The sizing pass counts exactly the characters the writing pass stores |
| JsonBuffers.DecimalLength | 1. 源代码/packages/cJSON-v1.0.2/cJSON.c:163-169 | Every 32-bit integer fits the 21 characters asked for |
| JsonPrinters.PrintValue | 1. 源代码/packages/cJSON-v1.0.2/cJSON.c:399-409 | The printer that allocates each part returns the same text the buffer printer writes |
| JsonPrinters.ComposeArray | 1. 源代码/packages/cJSON-v1.0.2/cJSON.c:475-515 | Joining the items of an array writes their text inside the length that was added up |
| JsonPrinters.PrintPairs | 1. 源代码/packages/cJSON-v1.0.2/cJSON.c:624-635 | The collecting loop of an object prints every name and value once, in order, and adds up the length that the joining loop relies on |
| JsonPrinters.ComposeObject | 1. 源代码/packages/cJSON-v1.0.2/cJSON.c:646-663 | Joining the members of an object writes their text inside the length that was added up |
| JsonStrings.UnescapeMeaning | 1. 源代码/packages/cJSON-v1.0.2/cJSON.c:198-255 | For every well-formed literal the second pass stores what the literal means and stops at the closing quote: each non-zero escape or surrogate pair becomes the UTF-8 bytes of its code point |
| JsonStrings.MeaningFits | 1. 源代码/packages/cJSON-v1.0.2/cJSON.c:203-205 | What the second pass stores never exceeds the length the first pass counted |
| JsonStrings.Utf8RoundTrip | 1. 源代码/packages/cJSON-v1.0.2/cJSON.c:235-243 | The bytes stored for a code point decode to it by section 3 of RFC 3629 |
| JsonStrings.SurrogatesInverse | 1. 源代码/packages/cJSON-v1.0.2/cJSON.c:227-233 | Combining two halves is the inverse of splitting a code point into its pair by section 2.1 of RFC 2781 |
| JsonStrings.ParseStringInto | 1. 源代码/packages/cJSON-v1.0.2/cJSON.c:198-255 | Both passes over arrays: every store is inside the allocated room and the result is the literal's meaning, terminated |
| JsonStrings.StoreUtf8 | 1. 源代码/packages/cJSON-v1.0.2/cJSON.c:235-243 | Storing from the last byte back gives the encoding in order |
| WaitLists.ListNodes.InsertBefore | 1. 源代码/rt-thread/include/rtservice.h:73-80 | Four link writes put a node in front of another in the ring, and change only the links stated |
| WaitLists.ListNodes.InsertAfter | 1. 源代码/rt-thread/include/rtservice.h:58-65 | Four link writes put a node behind another in the ring, and change only the links stated |
| WaitLists.ListNodes.Remove | 1. 源代码/rt-thread/include/rtservice.h:86-92 | Removing a node closes the ring of the others and leaves the node a ring by itself |
| WaitLists.ListNodes.Suspend | 1. 源代码/rt-thread/src/ipc.c:79-122 | The walk and insertion over links put a thread where its urgency or its arrival says |
| WaitLists.ListNodes.Resume | 1. 源代码/rt-thread/src/ipc.c:133-146 | Resuming unlinks the first waiter and keeps the order of the others |
| WaitLists.ListNodes.Unlink | 1. 源代码/rt-thread/src/thread.c:766-767 | A waiting thread leaves its list wherever it stands, and only the links of that list change |
| WaitLists.OneList | 1. 源代码/rt-thread/src/ipc.c:79-122 | No state of the links has one thread in two wait lists, so joining a second list destroys the first |
| WaitLists.OtherList | 1. 源代码/rt-thread/include/rtservice.h:58-92 | A list that shares no node with those whose links change is still the same list |
| WaitLists.JoinOrdered | 1. 源代码/rt-thread/src/ipc.c:79-122 | A thread that joins last is served after its equals and before everyone less urgent; the list stays in order of urgency and arrival |
| WaitLists.LeaveOrdered | 1. 源代码/rt-thread/src/ipc.c:133-146 | Whoever leaves a wait list, the others keep their order |
| WaitLists.OrderUnique | 1. 源代码/rt-thread/src/ipc.c:79-122 | Urgency and arrival leave no choice: there is only one ordered list of given threads |
| WaitLists.RepriceOrdered | 1. 源代码/rt-thread/src/thread.c:596-607 | When the priority of a waiter changes, the list stays in order if and only if its neighbours still belong before and after it |
| Semaphores.RunInv | 1. 源代码/rt-thread/src/ipc.c:323-470 | In every reachable state, whatever priorities change, a positive count means nobody waits |
| Semaphores.RunOrder | 1. 源代码/rt-thread/src/ipc.c:323-470 | After every run a FIFO list is in order of arrival, and a PRIO list in order of urgency and arrival unless a change of priority passed a neighbour |
| Semaphores.OrderKeptExactly | 1. 源代码/rt-thread/src/ipc.c:323-470 | A step keeps the order of the wait list if and only if it is not a change of priority that passes a neighbour |
| Semaphores.PriorityOvertakes | 1. 源代码/rt-thread/src/thread.c:596-607 | A run after which a less urgent thread is let through before a more urgent one |
| Semaphores.RunBalance | 1. 源代码/rt-thread/src/ipc.c:323-470 | Over every run, the first value and the releases equal the last value and the grants, plus 65536 for each release that overflowed the 16-bit count |
| Semaphores.BalanceExactly | 1. 源代码/rt-thread/src/ipc.c:323-470 | The plain balance holds if and only if no release found the count full and nobody waiting |
| Semaphores.OverflowLosesCount | 1. 源代码/rt-thread/src/ipc.c:459-460 | A run, from a full count, for which the plain balance fails |
| Semaphores.GrantsFirst | 1. 源代码/rt-thread/src/ipc.c:453-458 | A release lets the head through, which is served before every other waiter |
| Semaphores.TakeExactly | 1. 源代码/rt-thread/src/ipc.c:323-408 | A take is granted if and only if the count is positive, and takes one; otherwise it waits if it may, the others keeping their order, or changes nothing |
| Semaphores.ReleaseExactly | 1. 源代码/rt-thread/src/ipc.c:432-470 | A release hands over to the first waiter and leaves the rest in order, or adds one to the 16-bit count; a timeout only takes its thread off |
| Semaphores.Semaphore.Take | 1. 源代码/rt-thread/src/ipc.c:323-408 | A take up to its wait is a step of the system, on the linked list of waiters, and says whether it was granted; only links of that list and of the taker change |
| Semaphores.TakeBeside | 1. 源代码/rt-thread/src/ipc.c:323-408 | A take of one semaphore leaves another one on the same thread nodes as it was, its linked list included |
| Semaphores.Semaphore.Release | 1. 源代码/rt-thread/src/ipc.c:432-470 | A release is a step of the system, unlinks the first waiter and resumes whom it grants; only links of that list change |
| Semaphores.Semaphore.TimeOut | 1. 源代码/rt-thread/src/thread.c:749-772 | A timeout unlinks the thread and leaves the others in their order; only links of that list change |
| Mutexes.RunInv | 1. 源代码/rt-thread/src/ipc.c:653-880 | In every reachable state, whatever priorities change, the value is one exactly when there is no owner, then nobody waits, and the hold count is the nesting depth modulo 256; on an urgency-ordered mutex the owner is at least as urgent as every waiter and the waiters are in order, unless a change of priority from outside passed a neighbour |
| Mutexes.StepInv | 1. 源代码/rt-thread/src/ipc.c:653-880 | Every take, release, timeout and change of priority keeps the mutex in order |
| Mutexes.TakeOwns | 1. 源代码/rt-thread/src/ipc.c:680-708 | A take succeeds if and only if the mutex was free or the caller's, and then the caller owns it one level deeper |
| Mutexes.GivesUpLastExactly | 1. 源代码/rt-thread/src/ipc.c:827-870 | Only the owner's last release gives the mutex up, except exactly when 256, 512, ... further takes are outstanding |
| MutexLaws.ReleaseAnswers | 1. 源代码/rt-thread/src/ipc.c:816-825 | A release succeeds if and only if the caller is the owner; otherwise it is an error that changes nothing |
| MutexLaws.TakeAnswers | 1. 源代码/rt-thread/src/ipc.c:680-718 | A take of a mutex of somebody else is refused with a timeout if it may not wait, which changes nothing, and waits otherwise |
| MutexLaws.WaitingTake | 1. 源代码/rt-thread/src/ipc.c:720-735 | A take that waits raises the owner exactly to the more urgent of both priorities, changes no other priority, and adds the taker to the waiters, who keep their order |
| MutexLaws.LastRelease | 1. 源代码/rt-thread/src/ipc.c:832-870 | The release that gives the mutex up restores the owner's priority, touches no other, and makes the first waiter the owner once, at the priority it has |
| MutexLaws.InheritsLeast | 1. 源代码/rt-thread/src/ipc.c:720-735 | Over a whole tenure without changes from outside the owner's priority is the least of its own and of those of the threads that began to wait |
| Mutexes.LostAtDepth257 | 1. 源代码/rt-thread/src/ipc.c:680-683 | A thread that has taken the mutex 257 times loses it with its first release: a run that shows the exception |
| Mutexes.StepInherits | 1. 源代码/rt-thread/src/ipc.c:720-732 | On an urgency-ordered mutex a step keeps the owner at least as urgent as every waiter and the waiters in order if and only if it is not a change of priority that passes a neighbour among owner and waiters |
| Mutexes.RepriceUrgent | 1. 源代码/rt-thread/src/thread.c:562-611 | A change of priority from outside keeps that if and only if the thread still belongs between its neighbours, the owner being the neighbour of the first waiter |
| Mutexes.OwnerLeftBehind | 1. 源代码/rt-thread/src/thread.c:596-607 | A run of two takes after which making the waiter more urgent leaves the owner less urgent than it |
| Mutexes.ReleaseInherits | 1. 源代码/rt-thread/src/ipc.c:844-857 | Passing the mutex on keeps that if and only if the first waiter is at least as urgent as the others |
| Mutexes.FifoHandover | 1. 源代码/rt-thread/src/ipc.c:844-857 | A run of three takes on a FIFO mutex after which the release leaves the new owner less urgent than a waiter |
| Mutexes.Restores | 1. 源代码/rt-thread/src/ipc.c:832-838 | Whatever was inherited or changed from outside in between, giving the mutex up restores the priority it was acquired with, by a take or by being passed on |
| Mutexes.Mutex.Take | 1. 源代码/rt-thread/src/ipc.c:653-778 | A take up to its wait is a step of the system, the owner's boost included |
| Mutexes.Mutex.Release | 1. 源代码/rt-thread/src/ipc.c:789-880 | A release performs the abstract one: its answer, the priority restoration and the handover |
| Events.RunInv | 1. 源代码/rt-thread/src/ipc.c:1028-1236 | In every reachable state, whatever priorities change, no waiting thread's condition is met by the event set |
| Events.ScanSettles | 1. 源代码/rt-thread/src/ipc.c:1053-1100 | After one pass nobody who still waits is satisfied by what is left, although threads woken earlier in the pass took bits away |
| Events.ScanShrinks | 1. 源代码/rt-thread/src/ipc.c:1053-1100 | The set only shrinks during a pass |
| Events.ScanExclusive | 1. 源代码/rt-thread/src/ipc.c:1086-1092 | What a clearing thread received reaches no thread woken after it and is gone from the set |
| Events.ScanSplits | 1. 源代码/rt-thread/src/ipc.c:1053-1100 | Every waiting thread is either woken or still waiting, in its old place among the others |
| Events.StepInv | 1. 源代码/rt-thread/src/ipc.c:1028-1280 | Every send, receive, timeout and reset leaves nobody waiting for what is already there |
| EventLaws.RecvExactly | 1. 源代码/rt-thread/src/ipc.c:1142-1210 | A receive succeeds at once if and only if every bit asked for is in the set, or, for a wait for any, one of them is; an empty request is an error, and otherwise it is refused or waits as it may |
| EventLaws.RecvTakes | 1. 源代码/rt-thread/src/ipc.c:1182-1191 | What it receives are the bits asked for that are there, and with the clear option exactly those asked for leave the set |
| EventLaws.RecvWaits | 1. 源代码/rt-thread/src/ipc.c:1198-1208 | A receive that waits is recorded with what it asked for; one that fails changes nothing |
| EventLaws.ScanVisits | 1. 源代码/rt-thread/src/ipc.c:1053-1100 | A pass visits the waiters in turn: each is woken if and only if what is there satisfies it, bit by bit, and leaves the rest to the next |
| EventLaws.SendWakesFirst | 1. 源代码/rt-thread/src/ipc.c:1028-1110 | A send wakes the first waiter if and only if the enlarged set satisfies it, and records the bits it received |
| EventLaws.RunLacking | 1. 源代码/rt-thread/src/ipc.c:1028-1236 | In every reachable state a thread that waits for any of its bits shares none with the set, and one that waits for all lacks one |
| Events.Event.Send | 1. 源代码/rt-thread/src/ipc.c:1028-1110 | The walk that removes threads from the list while it goes along does one whole pass and resumes the satisfied threads in order |
| Events.Event.Recv | 1. 源代码/rt-thread/src/ipc.c:1126-1236 | A receive up to its wait performs the abstract receive: its answer, what it receives and the new state |
| Mailboxes.RunInv | 1. 源代码/rt-thread/src/ipc.c:1441-1757 | In every reachable state, whatever priorities change, the ring is in order and no wake-up is lost: while senders wait, the free slots do not outnumber the woken senders yet to run, and while receivers wait, the mails do not outnumber the woken receivers |
| Mailboxes.RingIsQueue | 1. 源代码/rt-thread/src/ipc.c:1535-1541 | Sending appends a mail and receiving takes the first: the ring buffer with its wrapping offsets is a bounded queue |
| Mailboxes.RunFifo | 1. 源代码/rt-thread/src/ipc.c:1441-1713 | Over every run without a reset, what came out and what is inside is exactly what was accepted, in that order |
| Mailboxes.StepPending | 1. 源代码/rt-thread/src/ipc.c:1441-1757 | Every step of every thread keeps both wake-up bounds, timeouts and threads that overtake the woken ones included |
| MailboxLaws.SendExactly | 1. 源代码/rt-thread/src/ipc.c:1441-1560 | A send is accepted if and only if a slot is free, and wakes the first receiver and nobody else; otherwise it waits with its mail, or is refused and changes nothing |
| MailboxLaws.ReceiveExactly | 1. 源代码/rt-thread/src/ipc.c:1589-1713 | A receive gets the oldest mail if there is one and wakes the first sender with the mail it waits with; otherwise it waits, or is refused and changes nothing |
| MailboxLaws.TimeOutTold | 1. 源代码/rt-thread/src/thread.c:749-772 | A thread that timed out is told so and waits on neither side |
| MailboxLaws.ResetExactly | 1. 源代码/rt-thread/src/ipc.c:1733-1754 | After a reset the box is empty and exactly those who waited are told that it failed |
| Mailboxes.Mailbox.Post | 1. 源代码/rt-thread/src/ipc.c:1535-1554 | The section that finds room stores the mail at the in-offset, wraps it and resumes the first waiting receiver |
| Mailboxes.Mailbox.Fetch | 1. 源代码/rt-thread/src/ipc.c:1682-1705 | The section that finds a mail returns the oldest one, wraps the out-offset and resumes the first waiting sender |
| Mailboxes.Mailbox.Reset | 1. 源代码/rt-thread/src/ipc.c:1733-1754 | A reset resumes everybody on both sides and empties the ring |
| MessageModel.RunInv | 1. 源代码/rt-thread/src/ipc.c:1963-2325 | However the sections of the threads interleave, and whatever priorities change, every message is free, queued or held by exactly one thread, the waiting threads are the suspended ones, and no wake-up is lost |
| MessageModel.InitInv | 1. 源代码/rt-thread/src/ipc.c:1780-1827 | The pool as initialised satisfies all of that |
| MessageModel.StepPartition | 1. 源代码/rt-thread/src/ipc.c:1963-2325 | Every section moves messages between the free list, the queue and the threads without losing or doubling one |
| MessageModel.StepPending | 1. 源代码/rt-thread/src/ipc.c:2019-2033 | While receivers wait, the queued messages do not outnumber the receivers woken and yet to run |
| MessageModel.StepContents | 1. 源代码/rt-thread/src/ipc.c:2004-2247 | A send appends its message, an urgent send prepends it, a receive takes the first; nothing else but a reset touches the contents of the queue |
| MessageModel.RunFifo | 1. 源代码/rt-thread/src/ipc.c:1963-2266 | Over every run of ordinary sends and receives, the messages taken are the oldest of those sent, in order |
| MessageModel.HeldStays | 1. 源代码/rt-thread/src/ipc.c:1999-2002 | What a thread fills or copies outside the protected sections no other thread's step changes |
| MessageLaws.SentArrives | 1. 源代码/rt-thread/src/ipc.c:1999-2017 | Whatever others do between filling and linking, the message linked begins with the bytes filled in, at the end of the queue or, urgent, in front |
| MessageLaws.ReceivedIsFirst | 1. 源代码/rt-thread/src/ipc.c:2237-2261 | Whatever others do while a receiver copies, it holds the message that was first in the queue |
| MessageLaws.GrabExactly | 1. 源代码/rt-thread/src/ipc.c:1977-1997 | A send is refused if and only if every message is queued or held by a thread |
| MessageLaws.LinkWakes | 1. 源代码/rt-thread/src/ipc.c:2019-2033 | Linking a message wakes the first waiter and nobody else |
| MessageLaws.ReceiveExactly | 1. 源代码/rt-thread/src/ipc.c:2138-2247 | A receive takes the first message; on an empty queue it waits, the others keeping their order, or is refused and changes nothing |
| MessageLaws.ResetExactly | 1. 源代码/rt-thread/src/ipc.c:2288-2322 | After a reset every queued message is free, and exactly those who waited are told that it failed |
| MessageLaws.PutBackFirst | 1. 源代码/rt-thread/src/ipc.c:2255-2261 | A message given back is the next one handed out |
| MessageQueues.MessageQueue.constructor | 1. 源代码/rt-thread/src/ipc.c:1780-1827 | Threading the pool into the free list gives all messages, the last one first |
| MessageQueues.MessageQueue.Grab | 1. 源代码/rt-thread/src/ipc.c:1980-1997 | The first free message is taken off the linked list, or none if the queue is full |
| MessageQueues.MessageQueue.LinkTail | 1. 源代码/rt-thread/src/ipc.c:2004-2033 | Linking behind the tail appends to the queue; head, tail and count stay consistent and the first waiter is resumed |
| MessageQueues.MessageQueue.LinkHead | 1. 源代码/rt-thread/src/ipc.c:2092-2117 | Linking before the head prepends to the queue; head, tail and count stay consistent and the first waiter is resumed |
| MessageQueues.MessageQueue.TakeHead | 1. 源代码/rt-thread/src/ipc.c:2237-2247 | Taking the head removes the first message; the tail is null exactly when the queue becomes empty |
| MessageQueues.MessageQueue.PutBack | 1. 源代码/rt-thread/src/ipc.c:2255-2261 | The emptied message becomes the first free one |
| MessageQueues.MessageQueue.Reset | 1. 源代码/rt-thread/src/ipc.c:2288-2322 | A reset moves every queued message to the free list and resumes every waiter |
| FirstSet.FfsIsLowest | 1. 源代码/rt-thread/src/kservice.c:1286-1330 | For every 32-bit word the table search returns the lowest set bit, counted from one, and zero exactly for the word without any |
| FirstSet.ByteLowest | 1. 源代码/rt-thread/src/kservice.c:1286-1304 | The table's entry for a byte is its lowest set bit |
| Schedulers.RunInv | 1. 源代码/rt-thread/src/scheduler.c:411-523 | Over every run of kernel calls, bit p of the group is set exactly when ready list p is not empty, every ready thread is in the list of its own level and nowhere else, wait lists hold suspended threads, each in one of them only, and only the current thread runs |
| Schedulers.OnePlace | 1. 源代码/rt-thread/src/scheduler.c:411-523 | Every thread is in one place only: it runs, or is in the ready list of its level, or is in one wait list, or in none |
| Schedulers.BlockedInv | 1. 源代码/rt-thread/src/ipc.c:79-122 | Blocking on any list moves the current thread, running or already suspended and in no list, to that list and keeps everything in order |
| Schedulers.BlockedExactly | 1. 源代码/rt-thread/src/ipc.c:79-122 | For every current thread, running or already suspended, blocking keeps the wait lists in order, and everything else with them, if and only if it is in no wait list before |
| Schedulers.BlockedUnderLock | 1. 源代码/rt-thread/src/scheduler.c:411-523 | A run after which a thread that blocked under the lock is suspended, waits in a list and is still the current one |
| Schedulers.BlockedTwice | 1. 源代码/rt-thread/src/ipc.c:79-122 | After that run, blocking again puts the thread into a second list |
| Schedulers.WokenInv | 1. 源代码/rt-thread/src/ipc.c:133-146 | Waking the first waiter of a list moves it to its ready list and keeps everything in order |
| Schedulers.DeletedInv | 1. 源代码/rt-thread/src/thread.c:430-461 | Deleting a thread takes it out of the ready list or the wait list it is in and keeps everything in order |
| Schedulers.BlockSwitches | 1. 源代码/rt-thread/src/scheduler.c:411-523 | After blocking, the scheduler changes the thread if and only if the lock is released and somebody is ready; the thread is suspended in any case |
| Schedulers.StepInv | 1. 源代码/rt-thread/src/scheduler.c:688-815 | Inserting, removing, scheduling, suspending, resuming, changing a priority, timing out, starting, locking, blocking, waking and deleting all keep that |
| Schedulers.ScheduleRunsMostUrgent | 1. 源代码/rt-thread/src/scheduler.c:411-523 | After a scheduling with the lock released the current thread runs and is at least as urgent as every ready one, if and only if somebody could run |
| Schedulers.ScheduleKeepsThreads | 1. 源代码/rt-thread/src/scheduler.c:411-523 | Scheduling only moves the processor: who is ready or running stays so, and with the lock held nothing changes |
| SchedulerLaws.UnlockSchedules | 1. 源代码/rt-thread/src/scheduler.c:915-940 | After the outermost unlock the lock is released and the most urgent thread runs, if and only if the current one did or somebody is ready; the same threads can run as before |
| SchedulerLaws.LockCounts | 1. 源代码/rt-thread/src/scheduler.c:855-940 | Every other lock and unlock counts and moves nobody |
| SchedulerLaws.TimeOutSchedules | 1. 源代码/rt-thread/src/thread.c:749-772 | After a timeout its thread can run and waits nowhere; with the lock released the most urgent thread runs, with the lock held the current one goes on |
| SchedulerLaws.StartupSchedules | 1. 源代码/rt-thread/src/thread.c:288-320 | A started thread has its level and can run; in a running system with the lock released the most urgent thread runs then |
| SchedulerLaws.RescheduleSchedules | 1. 源代码/rt-thread/src/scheduler.c:411-523 | A scheduling that finds the lock released makes the most urgent thread run, if and only if somebody can; one that finds it held changes nothing |
| SchedulerLaws.Preempted | 1. 源代码/rt-thread/src/scheduler.c:430-459 | A running thread gives way if and only if somebody ready is at least as urgent, and then stands last in the list of its level |
| SchedulerLaws.ResumedExactly | 1. 源代码/rt-thread/src/thread.c:706-741 | Resuming a suspended thread takes it off its wait list and makes it the last of its level, or running if it is the current one; other threads, the order of lists and other states stay |
| SchedulerLaws.SuspendedExactly | 1. 源代码/rt-thread/src/thread.c:657-697 | Suspending a ready or running thread takes it out of the ready lists and changes nothing else; other states stay |
| SchedulerLaws.ReprioritisedExactly | 1. 源代码/rt-thread/src/thread.c:562-611 | A new priority changes nobody else; a ready thread becomes the last of its new level |
| SchedulerLaws.DeletedExactly | 1. 源代码/rt-thread/src/thread.c:430-461 | A deleted thread is closed and in no list; nobody else changes |
| SchedulerLaws.BlockedPuts | 1. 源代码/rt-thread/src/ipc.c:79-122 | Blocking suspends the current thread into one list and changes nobody else |
| SchedulerLaws.WokenFirst | 1. 源代码/rt-thread/src/ipc.c:133-146 | Waking a list makes its first thread able to run and leaves the others waiting in order |
| Schedulers.RoundRobin | 1. 源代码/rt-thread/src/scheduler.c:430-459 | Threads of equal urgency take turns: after k schedulings the k-th runs, and after one round everything is as it was |
| Schedulers.HighestIsFirst | 1. 源代码/rt-thread/src/scheduler.c:162-184 | The level found from the group is the first whose ready list is not empty |
| Schedulers.InsertGroup | 1. 源代码/rt-thread/src/scheduler.c:688-722 | Inserting a thread keeps the group bits right |
| Schedulers.RemoveGroup | 1. 源代码/rt-thread/src/scheduler.c:785-815 | Removing a thread clears its level's bit exactly when the list becomes empty |
| Schedulers.StartsInv | 1. 源代码/rt-thread/src/scheduler.c:246-270 | Starting dispatches the most urgent ready thread and keeps everything in order |
| Schedulers.ReprioritisedInv | 1. 源代码/rt-thread/src/thread.c:562-611 | Changing a priority moves a ready thread to its new list and keeps everything in order |
| Schedulers.SuspendedInv | 1. 源代码/rt-thread/src/thread.c:657-697 | Suspending takes the thread out of the ready lists and keeps everything in order |
| Schedulers.ResumedInv | 1. 源代码/rt-thread/src/thread.c:706-741 | Resuming takes a suspended thread off its wait list, makes it ready, or running when it is the current one, and keeps everything in order |
| Schedulers.Scheduler.Schedule | 1. 源代码/rt-thread/src/scheduler.c:411-523 | The imperative scheduler reaches the state the theorems are about |
| Schedulers.Scheduler.HighestPriorityThread | 1. 源代码/rt-thread/src/scheduler.c:162-184 | The thread found is ready and no ready thread is more urgent |
| Schedulers.Scheduler.ChangePriority | 1. 源代码/rt-thread/src/thread.c:562-611 | As the abstract priority change |
| Schedulers.Scheduler.TimeOut | 1. 源代码/rt-thread/src/thread.c:749-772 | A timed-out thread leaves its wait list and is made ready, and the most urgent thread is scheduled |
| Schedulers.Scheduler.IpcListSuspend | 1. 源代码/rt-thread/src/ipc.c:79-122 | As the abstract blocking: the thread, running or suspended and in no list, joins the list where the flag says |
| Schedulers.Scheduler.IpcListResume | 1. 源代码/rt-thread/src/ipc.c:133-146 | As the abstract waking; the thread resumed was the first in the list |
| Schedulers.Scheduler.DeleteThread | 1. 源代码/rt-thread/src/thread.c:430-461 | As the abstract deletion |
| Schedulers.Scheduler.Startup | 1. 源代码/rt-thread/src/thread.c:288-320 | A new thread gets its initial priority, becomes ready and is scheduled if the system runs |
| Schedulers.Scheduler.ExitCritical | 1. 源代码/rt-thread/src/scheduler.c:915-940 | The object performs the abstract unlock, which schedules when it is the outermost one |
| KernelCalls.CallShows | 1. 源代码/rt-thread/src/thread.c:430-772 | Whatever call the kernel makes but a block or wake on a list itself, that list sees one of three things: nothing, one thread leaves it, or one priority changes |
| Kernels.StepAgrees | 1. 源代码/rt-thread/src/ipc.c:323-470 | Every call in the kernel, whatever object or thread it is about, is one step or none of the semaphore whose list it may touch |
| Kernels.RunRefines | 1. 源代码/rt-thread/src/ipc.c:323-470 | So every run of the kernel is a run of the semaphore system with the scheduler's wait list and priorities |
| Kernels.RunBalance | 1. 源代码/rt-thread/src/ipc.c:323-470 | Over every run of the kernel a positive count means that the wait list is empty, and grants and releases balance but for overflows |
| Kernels.RunInv | 1. 源代码/rt-thread/src/scheduler.c:411-523 | From unstarted threads on, the scheduler's and the semaphore's invariants hold together |
| Kernels.ReturnsUngranted | 1. 源代码/rt-thread/src/ipc.c:388-400 | A take that has to wait goes on at once without a grant if and only if the scheduler is locked or nobody else is ready |
| KernelMutexes.StepAgrees | 1. 源代码/rt-thread/src/ipc.c:653-880 | Every call in the kernel, the boost that moves a ready owner to another ready list or changes an owner that waits elsewhere included, is one step or none of the mutex's system |
| KernelMutexes.RunRefines | 1. 源代码/rt-thread/src/ipc.c:653-880 | So every run of the kernel is a run of the mutex's system with the scheduler's wait list and priorities |
| KernelMutexes.StepUrgent | 1. 源代码/rt-thread/src/ipc.c:653-880 | On an urgency-ordered mutex a step of the kernel keeps the owner at least as urgent as every waiter and the waiters in order if and only if it is not a change of priority from outside that passes a neighbour |
| KernelMutexes.RunInv | 1. 源代码/rt-thread/src/ipc.c:653-880 | From unstarted threads on, the scheduler's and the mutex's invariants hold together over every run, and so does that urgency if no change from outside passes a neighbour |
| KernelMutexes.Restores | 1. 源代码/rt-thread/src/ipc.c:832-838 | Over a whole tenure of a thread in the kernel, giving the mutex up sets the scheduler's priority of the thread back to the one it got the mutex with |
| KernelMutexes.NoInversion | 1. 源代码/rt-thread/src/ipc.c:720-732 | While the owner is ready or running and the lock is released, whom the scheduler picks is at least as urgent as every waiter |
| SmallHeapModel.RunInv | 1. 源代码/rt-thread/src/mem.c:204-609 | Over every run the blocks tile the pool up to the end stub, no two neighbours are free, the used total is right, and the lowest-free pointer is at a free block or the end stub, and at the lowest one unless a resize cut off a block that no free one precedes or follows |
| SmallHeapModel.MallocFailsExactly | 1. 源代码/rt-thread/src/mem.c:272-410 | In every reachable heap a request fails if and only if every free block that would hold it lies below the lowest-free pointer or is the last one and fits exactly |
| SmallHeapModel.MallocFailsWhenLowest | 1. 源代码/rt-thread/src/mem.c:272-410 | While the lowest-free pointer is right that means: nothing fits, or only the last block does, and exactly |
| SmallHeapModel.WholePoolRefused | 1. 源代码/rt-thread/src/mem.c:305-311 | A fresh heap refuses a request for all of its memory |
| SmallHeapModel.ShrinkLowest | 1. 源代码/rt-thread/src/mem.c:471-497 | Shrinking a block keeps the lowest-free pointer right if and only if a lower block is free or the next one is |
| SmallHeapModel.ReallocLowest | 1. 源代码/rt-thread/src/mem.c:421-510 | Of all resizes, moving and freeing ones included, exactly those that cut off such a block make the lowest-free pointer wrong |
| SmallHeapModel.OverlookedAfterResize | 1. 源代码/rt-thread/src/mem.c:471-497 | After a resize the heap can refuse a request that a free block would hold |
| SmallHeapModel.SearchEndsExactly | 1. 源代码/rt-thread/src/mem.c:305-309 | The search in a fresh pool makes one more round forever if and only if the pool is smaller than the least block and the request passes the size test |
| SmallHeapModel.TinyPoolRuns | 1. 源代码/rt-thread/src/mem.c:204-609 | Calls that return leave such a pool as it is and hand out nothing |
| SmallHeapModel.PlugInv | 1. 源代码/rt-thread/src/mem.c:156-194 | Plugging the holes around a freed block leaves no free neighbours, the same used total and a right lowest-free pointer |
| SmallHeapModel.TakeInv | 1. 源代码/rt-thread/src/mem.c:311-387 | Taking a block, split or whole, keeps the heap in order |
| SmallHeapModel.ReleaseInv | 1. 源代码/rt-thread/src/mem.c:546-609 | Giving a block back keeps the heap in order and the lowest-free pointer right |
| SmallHeapModel.ShrinkInv | 1. 源代码/rt-thread/src/mem.c:471-497 | Cutting off the end of a block keeps the heap in order |
| SmallHeapModel.ReallocInv | 1. 源代码/rt-thread/src/mem.c:421-510 | Resizing a pointer that was handed out, to any size, keeps the heap in order |
| SmallHeapModel.MallocKeepsOwned | 1. 源代码/rt-thread/src/mem.c:272-410 | What was handed out stays handed out while more is |
| SmallHeapModel.MallocGives | 1. 源代码/rt-thread/src/mem.c:272-410 | The bytes handed out are aligned, inside the pool, as many as asked for and nobody's so far |
| SmallHeapModel.PayloadsApart | 1. 源代码/rt-thread/src/mem.c:204-609 | Two payloads never overlap, and a header lies between them |
| SmallHeapLaws.ReallocExactly | 1. 源代码/rt-thread/src/mem.c:430-507 | A resize answers with the same pointer if and only if the block has that size or more than a header and the minimum is cut off; it fails if and only if neither holds and no new block can be had, and then nothing changes |
| SmallHeapLaws.SmallerRefused | 1. 源代码/rt-thread/src/mem.c:470-507 | A run after which a resize from 64 to 56 bytes fails |
| SmallHeapLaws.MallocLowest | 1. 源代码/rt-thread/src/mem.c:305-311 | The block taken is the lowest one that is not passed over |
| SmallHeapLaws.MallocHolds | 1. 源代码/rt-thread/src/mem.c:311-387 | An allocation adds one held block, less than a header and a minimal block larger than asked, and changes no other |
| SmallHeapLaws.FreeHolds | 1. 源代码/rt-thread/src/mem.c:546-609 | Freeing gives back exactly the block named |
| SmallHeapLaws.StayingHolds | 1. 源代码/rt-thread/src/mem.c:463-497 | A block that stays gets exactly the size asked for, in words, and no other changes |
| SmallHeapLaws.MovedHolds | 1. 源代码/rt-thread/src/mem.c:498-507 | A block that moves is exchanged for one that is large enough, and no other changes |
| SmallHeapLaws.ReallocEnds | 1. 源代码/rt-thread/src/mem.c:430-447 | Resizing no pointer allocates and resizing to nothing frees |
| SmallHeapLaws.RunDrains | 1. 源代码/rt-thread/src/mem.c:204-609 | A run after which nothing is held leaves the one initial free block |
| SmallHeapLaws.RunHighWater | 1. 源代码/rt-thread/src/mem.c:346-369 | After every run max_mem is exactly the most that was in use at any time, also in the middle of a move |
| SmallHeaps.SmallHeap.constructor | 1. 源代码/rt-thread/src/mem.c:204-257 | The header and the end stub written at initialisation store the initial heap |
| SmallHeaps.SmallHeap.Search | 1. 源代码/rt-thread/src/mem.c:305-311 | The loop over next offsets finds the lowest block at or above the lowest-free pointer that fits, below its bound |
| SmallHeaps.SmallHeap.Malloc | 1. 源代码/rt-thread/src/mem.c:272-410 | On the stored offsets rt_malloc does what the abstract heap does, prev fields mirroring next fields for all but the end stub |
| SmallHeaps.SmallHeap.AdvanceLfree | 1. 源代码/rt-thread/src/mem.c:380-387 | The pointer moves on to the next free block or the end stub |
| SmallHeaps.SmallHeap.PlugHoles | 1. 源代码/rt-thread/src/mem.c:156-194 | On the stored offsets the two merges do what the abstract heap does |
| SmallHeaps.SmallHeap.Free | 1. 源代码/rt-thread/src/mem.c:546-609 | On the stored offsets rt_free does what the abstract heap does |
| SmallHeaps.SmallHeap.Realloc | 1. 源代码/rt-thread/src/mem.c:421-510 | On the stored offsets rt_realloc does what the abstract heap does; every byte that anybody holds stays, and a moved payload starts with as much of the old one as fits |
| AudioFifos.RunStream | 1. 源代码/drivers/audio/drv_sound.c:117-224 | However writes fall between the rounds of the reads, the bytes read are a prefix of the bytes accepted, in order |
| AudioFifos.WriteAppends | 1. 源代码/drivers/audio/drv_sound.c:117-147 | A write is refused exactly when all nodes but one are queued, and otherwise appends its bytes |
| AudioFifos.RoundAdvances | 1. 源代码/drivers/audio/drv_sound.c:167-219 | A round of the read hands out the next bytes of the stream and completes the oldest node exactly when it is used up |
| AudioFifos.NodeList.Write | 1. 源代码/drivers/audio/drv_sound.c:117-147 | The imperative write reaches that state and says whether it was refused |
| AudioFifos.NodeList.Read | 1. 源代码/drivers/audio/drv_sound.c:149-224 | A read returns as many bytes as asked for or queued, the next ones of the stream, completes the used-up nodes in order and once each, and ends even when nodes are empty |
| AudioFifos.NodeList.IsEmpty | 1. 源代码/drivers/audio/drv_sound.c:91-109 | The list is empty exactly when no node is queued |
| Base64.RoundTrip | 1. 源代码/ports/wifi/wifi_config.c:68-145 | With the two tables of the source, decoding the encoding of any non-empty bytes gives them back, all of them and no more, in all three padding cases |
| Base64.SourceTablesInverse | 1. 源代码/ports/wifi/wifi_config.c:42-66 | The decode table undoes the encode table, and no letter is the padding |
| Base64.SourceLetters | 1. 源代码/ports/wifi/wifi_config.c:42-52 | The letters are those of table 1 of RFC 4648 |
| Base64.GroupDigits | 1. 源代码/ports/wifi/wifi_config.c:68-110 | The letters of a group are the digits in base 64 of its bytes read as one number, most significant first, with padding for what no byte reaches |
| Base64.EncodedFits | 1. 源代码/ports/wifi/wifi_config.c:181-187 | The text and its terminator fit the room that is allocated for it, exactly when one byte is left over |
| Base64.EncodeInto | 1. 源代码/ports/wifi/wifi_config.c:68-110 | The loop writes the encoding and a terminator inside that room |
| Base64.DecodeInto | 1. 源代码/ports/wifi/wifi_config.c:115-145 | The loop writes the decoded bytes and returns how many there are, or none for a text that is not whole groups |
| Base64.OutLengthIs | 1. 源代码/ports/wifi/wifi_config.c:122-125 | The length computed from the padding is the number of bytes encoded |
| Formats.Vsnprintf | 1. 源代码/rt-thread/src/kservice.c:777-1040 | For every format, argument list and size, the length returned is that of the unbounded output, and a buffer with room gets the output cut to its size and always a terminator, with nothing written behind |
| Formats.ScratchDenotes | 1. 源代码/rt-thread/src/kservice.c:568-585 | In bases ten and sixteen the digits denote the number |
| Formats.ScratchFits | 1. 源代码/rt-thread/src/kservice.c:631-635 | The digits of a 32-bit number fit the sixteen-character scratch array |
| Formats.OctalExactly | 1. 源代码/rt-thread/src/kservice.c:568-585 | The octal conversion is right if and only if the number is below eight, because the helper divides by sixteen |
| FormatLaws.ParseReads | 1. 源代码/rt-thread/src/kservice.c:820-886 | A directive is taken apart into the flags, width, precision and qualifier it was written with, arguments for stars included |
| FormatLaws.IntegerPrints | 1. 源代码/rt-thread/src/kservice.c:968-1024 | d and i print the signed argument in base ten, u the unsigned one, x and X (and o) the one in base sixteen in small or large letters: the text is sign, zeros and numeral, as wide as the greater of width and length, padded on the side the flags name |
| FormatLaws.IntegerHidden | 1. 源代码/rt-thread/src/kservice.c:757-765 | With a precision of zero no digit is printed, and the field is narrower by the digits left out |
| FormatLaws.PointerPrints | 1. 源代码/rt-thread/src/kservice.c:945-960 | p prints its argument in base sixteen without a sign, in eight places filled with zeros unless a width is given |
| FormatLaws.CharPrints | 1. 源代码/rt-thread/src/kservice.c:890-911 | c prints its character before or behind blanks up to the width |
| FormatLaws.StringPrints | 1. 源代码/rt-thread/src/kservice.c:913-943 | s prints its string, cut to a positive precision, before or behind blanks up to the width |
| FormatLaws.PercentPrints | 1. 源代码/rt-thread/src/kservice.c:962-965 | A percent sign prints itself and takes no argument |
| FormatLaws.UnknownPrints | 1. 源代码/rt-thread/src/kservice.c:984-997 | Any other character is printed behind a percent sign; a percent sign at the end is printed |
| FormatLaws.PlainPrints | 1. 源代码/rt-thread/src/kservice.c:810-818 | What holds no percent sign is printed as it is |
| Formats.PrintNumber | 1. 源代码/rt-thread/src/kservice.c:606-775 | The number, its sign and its padding are written as far as the buffer goes and counted in any case |
| Formats.FillScratch | 1. 源代码/rt-thread/src/kservice.c:676-683 | The division loop fills the scratch array with the digits, last one first |
| Formats.PrintDirective | 1. 源代码/rt-thread/src/kservice.c:888-1024 | One directive prints its text, bounded, and uses up its part of the format and of the arguments |

## Left out

- JsonParse.ParseValue: the parser is a function from the remaining text to a tree and the rest; the node allocation, the child, next and prev links it fills in, and allocation failure are not modelled. String literals are the exception: both passes are modelled over arrays in JsonStrings.
- JsonStrings.UnescapeMeaning: only closed literals with paired surrogates; what is stored for unpaired halves, short escapes and unclosed strings is not stated.
- JsonRoundTrip.ParsePrinted: numbers are the 32-bit integers; fractions and exponents are parsed with real arithmetic and not printed, because floating-point text is not modelled.
- JsonBuffers.PrintBuffered: allocation always succeeds, and sizes stay where rounding up to a power of two is an int.
- JsonMinify.MinifyInPlace: what the loop does behind the terminator of a text with an unclosed literal or comment is not modelled; that it gets there is JsonMinify.CleanExactly.
- JsonAccepted.MinifyKeepsParse: texts that are accepted only up to some point, where minifying can join a number with what follows it.
- JsonPrinters.PrintValue: the texts of the parts are values, not separately allocated strings that are freed again.
- MemHeaps.MemHeap.Alloc: sizes and addresses are unbounded integers; a request so large that rounding it up wraps around a machine word is not modelled. The same holds for the other heap operations.
- SmallHeaps.SmallHeap.constructor: pools of fewer than twelve bytes are only treated on values, because the search does not end in them; magic numbers and memory tracing are left out.
- MemHeaps.MemHeap.constructor: pools too small for two headers and a minimal block, whose free total wraps around, are not modelled.
- Mutexes.RunInv: one mutex at a time; owning several mutexes and the retry after a signal are not modelled.
- Events.Event.Send: the event set is the set of its one bits rather than a word.
- Mailboxes.RunFifo: a run without a reset; a reset drops the mails inside.
- MessageModel.RunFifo: a run without urgent sends and resets; what those do to the queue is MessageModel.StepContents.
- Schedulers.Scheduler.Schedule: context switching sets the current thread; time slices are calls of the scheduler.
- Schedulers.RunInv: a run ends where a thread that is in a wait list blocks again, because nothing is known of lists whose links cross; exactly then the state is out of order, by Schedulers.BlockedExactly.
- Kernels.RunInv: one semaphore, and in KernelMutexes.RunInv one mutex, beside any number of other wait lists; events, mailboxes and message queues are not composed with the scheduler.
- AudioFifos.NodeList.Read: a node's bytes are those of the caller's buffer at the time of the write; the completion callback is the list of completed nodes.
- Base64.DecodeInto: the text is not empty, because the source reads the character before it.
- FormatLaws.ParseReads: directives that end in a conversion; one that the format's end cuts short prints a percent sign, which is stated for a lone one.
- Formats.Vsnprintf: arguments that are missing or of the wrong kind read as zero or empty; C leaves them undefined. The check for a buffer that wraps around the address space is not modelled.
- Semaphore, event and message queue deletion and detaching, object containers, hooks, assertions and debug output.
- Multiprocessor branches, signals, modules, timers as a data structure, memory pools.
- Drivers, the display, networking and the weather application.
