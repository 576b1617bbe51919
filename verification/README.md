# A model of the rSystemOS kernel

This project models, in Dafny, the parts of the kernel that hold state and algorithms, and proves what they keep.

**The compiler** (`Words`, `X86`, `Source`, `Lexer`, `Parser`, `FrontEnd`, `Grammar`, `Printing`, `Codegen`, `Emitter`, `Correctness`,
`Layout`, `Capacity`, `Driver`). The lexer and parser are a class that updates position, token, symbols, arena and error latch in place; the code
generator is a class that fills and patches a byte buffer. Both are proved against specification functions. The emitted bytes are
given a meaning by a decoder and step function for the instructions used (encodings as in the Intel 64 and IA-32 Architectures
Software Developer's Manual, volume 2A, section 2.1.5), and the main result is that a run of the bytes and a run of the source have
the same result, trace, trap or endless output, both ways. The source semantics starts from whatever the frame holds, since the
prologue does not clear it; `int x;` stores 0 each time it runs; division truncates (section 6.5.5 of ISO C99) and traps on a zero
divisor and on INT_MIN / -1. The grammar is stated separately as concrete syntax: a text is accepted if and only if it writes a
program; whatever is accepted fits the code buffer; and minimally bracketed text reads back as the tree it was made from.

**The file system** (`FsLayout`, `FsTree`, `FsVolume`, `FileSystem`, `FsSubtree`, `FsCopy`, `FsPath`). Superblock and directory entries are modelled
as bytes in sectors. The class changes its table in place and writes sectors to a disk; a history variable holds the disk after each
sector write. The invariant: the table is a forest with distinct siblings, runs of live files are disjoint, in the data region and
large enough, and disk and memory agree. Each operation keeps it, and each disk in the history mounts to a consistent volume.

**Threads and storage** (`Scheduler`, `Storage`). The scheduler is a class proved against functions on its value. The storage protocol is
a system of threads whose steps interleave: a step is a section with interrupts off or one access to a shared variable, a timer
tick may come between any two, and threads may also be woken for no reason. The model rests on two things the code assumes:
request records are not reused (the worker reads `req->waiter` after it has published `done`, `src/kernel/storage_thread.c:95-96`), and no request
is submitted while preemption is disabled (`src/gui/wm.c:133-135` can do that when the editor opens a file).

**The heap** (`Heap`), **the edit buffer** (`EditBuf`, `EditView`), **the folder tree** (`TreeView`) and **drawing** (`Video`) are modelled in
place as well. A request to the heap above 2^32 - 4 wraps when it is rounded up; `EnoughUnlessWrapped`, `PositiveIff` and `WrappedRequest` say what
that does and that nothing else does it.

Where comments and code disagree, the model follows the code: the heap has 8 MiB, not the 64 KiB of `src/include/heap.h`; a key typed into a full
buffer reports a change although there is none (`src/include/editbuf.h` says otherwise; `ChangeReported` gives the exact condition); the
file system's constants are those of `src/include/fs.h:25-33`; a path component of more than 99 bytes is cut and read on as the next component.

## Model

| member | source | states |
|---|---|---|
| Words.TruncatedDivision | src/kernel/cc.c:703 | An integer q is the modelled quotient of a by b if and only if the remainder a - q*b is smaller in size than b and is zero or has the sign of a: C's and idiv's division, truncating toward zero, for operands of any sign |
| Words.WordBytes | src/kernel/cc.c:604-609 | The four bytes a word is emitted as, low byte first, read back to that word, for every 32-bit pattern |
| X86.DecodeEncode | src/kernel/cc.c:611-675 | Every instruction the compiler emits, standing anywhere in a code sequence, decodes to itself and ends where its bytes end |
| Source.DivideInRange | src/kernel/cc.c:703 | A quotient that does not trap is a 32-bit value: only a zero divisor and INT_MIN / -1 are excluded |
| Codegen.AssembleAppend | src/kernel/cc.c:593-609 | Assembling two instruction lists one after the other gives their bytes one after the other |
| Codegen.PlacedAppend | src/kernel/cc.c:593-609 | Code placed at p is its first part at p and the rest right behind it |
| Correctness.ExprRuns | src/kernel/cc.c:678-717 | From any state whose frame shows the store, the bytes of an expression leave its source value in eax, stack and frame as they were and nothing printed, or raise a divide error exactly when evaluation traps |
| Correctness.StmtRuns | src/kernel/cc.c:719-783 | The bytes of a statement do what the source statement does with any fuel: end behind it with the frame showing the new store, leave the function with the result, trap, or still run after at least as many steps as fuel, with the same trace |
| Correctness.StmtsRuns | src/kernel/cc.c:724-731 | The same for the statements of a block in order |
| Correctness.WhileRuns | src/kernel/cc.c:759-767 | The same for a loop, whose backward jump returns to the condition |
| Correctness.IfElseRuns | src/kernel/cc.c:745-758 | The same for an if with an else-part, whichever branch is taken |
| Correctness.ProgramRuns | src/kernel/cc.c:820-829 | From the call of the compiled function: prologue, body, and the return of 0 behind it match the source run with the same fuel |
| Correctness.CanBeCalled | src/kernel/cc.c:801-855 | The assumptions of the theorems can be met: any program whose code fits can be loaded and called wherever there is room on the stack |
| Correctness.StoppedShowsSource | src/kernel/cc.c:820-829 | Whenever the machine has stopped, the source run has an outcome, and it is the one the machine shows |
| Correctness.ReturnsIff | src/kernel/cc.c:678-783 | Compiler correctness: the emitted bytes return v to the caller with stack pointer, ebp, ebx, esi, edi and the caller's memory restored and the trace printed, if and only if the source program returns v with that trace |
| Correctness.TrapsIff | src/kernel/cc.c:703 | The bytes raise a divide error after printing a trace if and only if the source traps with that trace |
| Correctness.DivergesIff | src/kernel/cc.c:759-767 | The bytes run for ever if and only if the source does |
| Correctness.DivergingTraces | src/kernel/cc.c:768-774 | A diverging program prints the same endless sequence on the machine and in the source: each finite part of one is reached by the other |
| Correctness.NeverStuck | src/kernel/cc.c:611-675 | No run of compiled code reaches a bad instruction, an unaligned word or a wrong call target |
| Emitter.Emitter.EmitByte | src/kernel/cc.c:593-602 | Appends the byte if it fits; otherwise latches the overflow error; does nothing once an error is latched |
| Emitter.Emitter.EmitU32 | src/kernel/cc.c:604-609 | Appends the little-endian bytes of the word, under the same latch |
| Emitter.Emitter.EmitOp | src/kernel/cc.c:615-623 | For each operator, the bytes appended assemble the instructions of that operator |
| Emitter.Emitter.EmitZeroLocal | src/kernel/cc.c:630 | The bytes appended assemble the store of 0 to the variable's slot |
| Emitter.Emitter.EmitPrologue | src/kernel/cc.c:632-638 | The bytes appended assemble the frame set-up for n variables |
| Emitter.Emitter.EmitEpilogue | src/kernel/cc.c:640-644 | The bytes appended assemble the frame tear-down and return |
| Emitter.Emitter.EmitJzPlaceholder | src/kernel/cc.c:646-653 | Appends the test and a jump with a zero distance and returns where the distance stands |
| Emitter.Emitter.EmitJmpBack | src/kernel/cc.c:662-665 | Appends a jump whose distance leads to the target |
| Emitter.Emitter.Patch | src/kernel/cc.c:667-676 | Rewrites exactly the four bytes of the distance, so that the jump leads to the target; nothing once an error is latched |
| Emitter.Emitter.CodegenExpr | src/kernel/cc.c:678-717 | What is appended in place is the assembled specification code of the expression, or the overflow is latched |
| Emitter.Emitter.CodegenStmt | src/kernel/cc.c:719-783 | What is appended in place, forward distances patched in after the fact, is the assembled specification code of the statement, in which they are computed from sizes; or the overflow is latched |
| Emitter.Emitter.CodegenWhile | src/kernel/cc.c:759-767 | The same for a loop with its two patched distances |
| Emitter.Emitter.CodegenElse | src/kernel/cc.c:749-753 | The same for the jump over the else-part and the else-part |
| Emitter.Emitter.GenerateProgram | src/kernel/cc.c:820-829 | The same for the whole function |
| FrontEnd.FrontEnd.CcError | src/kernel/cc.c:27-39 | Only the first error is kept |
| FrontEnd.FrontEnd.LexNext | src/kernel/cc.c:90-165 | Reads the next token in place and advances position and line as the specification scanner does, inside the text; latches a bad character |
| FrontEnd.FrontEnd.ArenaAlloc | src/kernel/cc.c:175-187 | Takes 36 bytes of the arena if they fit, otherwise latches the error |
| FrontEnd.FrontEnd.SymDeclare | src/kernel/cc.c:217-233 | Gives a new name the next slot, or latches the error for a name declared before or one too many |
| FrontEnd.FrontEnd.SymLookup | src/kernel/cc.c:235-242 | The offset of a declared name, or -1 |
| FrontEnd.FrontEnd.ParsePrimary | src/kernel/cc.c:288-329 | The in-place parser yields the tree, the new token position, symbol table and arena of the specification parser, or latches its error |
| FrontEnd.FrontEnd.ParseUnary | src/kernel/cc.c:331-349 | The same for a sequence of minus signs |
| FrontEnd.FrontEnd.ParseTerm | src/kernel/cc.c:351-361 | The same for products and quotients, associating to the left |
| FrontEnd.FrontEnd.ParseAdditive | src/kernel/cc.c:363-373 | The same for sums and differences, associating to the left |
| FrontEnd.FrontEnd.ParseComparison | src/kernel/cc.c:379-391 | The same for at most one comparison |
| FrontEnd.FrontEnd.ParseStmt | src/kernel/cc.c:397-531 | The same for every kind of statement, including the order in which errors are found |
| FrontEnd.FrontEnd.ParseBlock | src/kernel/cc.c:533-564 | The same for blocks, stopping at a closing brace, the end or the first error |
| FrontEnd.FrontEnd.ParseProgram | src/kernel/cc.c:566-582 | The same for the heading and body of main |
| Lexer.Tokens | src/kernel/cc.c:90-165 | On every text the scanner ends: the tokens are finitely many and only the last is the end or a bad character |
| Parser.IndexOf | src/kernel/cc.c:235-242 | The first place a name stands at, or -1 if it was never declared |
| Grammar.ComparisonReads | src/kernel/cc.c:379-395 | Completeness: any well-written phrase, read where its tokens stand, gives the tree it denotes and stops right behind it |
| Grammar.CommandReads | src/kernel/cc.c:397-531 | The same for statements, with the symbols they declare and the nodes they take; an else belongs to the nearest if |
| Grammar.CommandsRead | src/kernel/cc.c:546-557 | The same for the statements of a block |
| Grammar.ComparisonSound | src/kernel/cc.c:379-395 | Soundness: whatever the expression parser accepts is the writing of some well-written phrase that denotes the tree returned |
| Grammar.CommandSound | src/kernel/cc.c:397-531 | The same for statements |
| Printing.ParseComplete | src/kernel/cc.c:566-582 | A text that writes a well-scoped program within the limits is accepted, with the tree it denotes |
| Printing.ParseSound | src/kernel/cc.c:566-582 | An accepted text writes a program that denotes the tree returned |
| Printing.AcceptsIff | src/kernel/cc.c:566-582 | A text is accepted if and only if it writes a program: grammar, scoping, at most 32 variables and the arena limit, nothing else |
| Printing.ParsedTrees | src/kernel/cc.c:217-233 | Every accepted tree has all its children and only offsets 4 to 4n of its n <= 32 distinct variables, so code generation never meets an invalid node and every 8-bit displacement is exact |
| Printing.ShowStmtResolves | src/kernel/cc.c:397-531 | The minimally bracketed text of a well-scoped tree denotes that tree |
| Printing.ParseUndoesPrint | src/kernel/cc.c:288-582 | Parsing undoes printing: reading the minimally bracketed tokens of a tree gives that tree and its variables back |
| Printing.LexUndoesRender | src/kernel/cc.c:76-165 | Scanning the rendered tokens, with any blanks behind them, or none except where the next token would continue the last, gives the same tokens and then the end |
| Printing.ParseUndoesRender | src/kernel/cc.c:76-582 | The two together, from tree to characters and back, with any blanks in front as well |
| Driver.CompiledTextRuns | src/kernel/cc.c:801-855 | From text to machine: the bytes compiled from a text return v with a trace if and only if the program it writes does, wherever they are loaded |
| Driver.Compiler.Compile | src/kernel/cc.c:801-855 | Leaves the bytes of the compilation function in the buffer and returns their number, or -1 and the first error |
| Driver.CompilesIff | src/kernel/cc.c:801-855 | A text compiles if and only if it writes a program; a failure is always an error of the front end |
| Capacity.StmtSize | src/kernel/cc.c:719-783 | No node of a tree costs more than 13 bytes of code |
| Capacity.ParsedFits | src/kernel/cc.c:593-602 | The code of any text the parser accepts fits the 32 KiB buffer: the arena runs out first |
| Driver.Compiler.LoadProgram | src/kernel/cc.c:874-898 | Copies the code of a saved program into the buffer and returns its length; -1 and nothing changed for any other file |
| Driver.SaveProgram | src/kernel/cc.c:857-872 | Writes header and code and returns their length, or -1 and nothing changed if they do not fit |
| Driver.LoadedIff | src/kernel/cc.c:857-898 | A file loads as given code if and only if it is that code saved: loading undoes saving, and nothing else loads |
| Layout.DisassembleAssemble | src/kernel/cc.c:611-675 | Assembled code reads back as one instruction stream with no byte left over |
| Layout.StmtClosed | src/kernel/cc.c:745-767 | Every jump in the code of a statement leads to an instruction boundary of that code |
| Layout.ProgramLayout | src/kernel/cc.c:646-676 | The finished buffer is one instruction stream, no placeholder left, and every relative jump lands inside it on the start of an instruction, at whatever address it is loaded |
| FsLayout.SuperRoundTrip | src/kernel/fs.c:49-53 | A superblock encoded to a sector and decoded is the same superblock |
| FsLayout.EntryRoundTrip | src/kernel/fs.c:55-60 | A 128-byte directory entry encoded and decoded is the same entry |
| FsLayout.FlushedTable | src/kernel/fs.c:55-60 | Writing one table sector replaces its four entries on disk and no others, and not the superblock |
| FsTree.ChainDistinct | src/kernel/fs.c:291-297 | No entry is its own ancestor |
| FsTree.ChainLength | src/kernel/fs.c:291-297 | A parent chain has at most 128 entries, so the bounded walks always reach the root |
| FsTree.Find | src/kernel/fs.c:122-129 | The lowest slot with that name under that parent, or -1 exactly when there is none |
| FsTree.FreeSlot | src/kernel/fs.c:92-99 | The first free slot, or -1 exactly when all are used |
| FsTree.CreateKeepsForest | src/kernel/fs.c:141-171 | Creating an entry keeps the forest: kinds, parents that are folders, chains that reach the root, distinct siblings |
| FsTree.DeleteKeepsForest | src/kernel/fs.c:181-195 | So does deleting a file or an empty folder |
| FsTree.RenameKeepsForest | src/kernel/fs.c:262-278 | So does renaming |
| FsTree.MoveKeepsForest | src/kernel/fs.c:280-304 | So does moving an entry under a folder that is not below it |
| FsTree.MoveBelowItself | src/kernel/fs.c:287-297 | The check is needed: moving an entry below itself would cut it off from the root |
| FsVolume.OthersIntact | src/kernel/fs.c:204-229 | Writing inside a file's own run, or a fresh one, leaves the contents of every other file as they were |
| FsVolume.FlushSyncs | src/kernel/fs.c:55-60 | Flushing the one changed entry makes the directory on disk equal to the one in memory and touches no file data |
| FileSystem.FileSystem.Format | src/kernel/fs.c:62-73 | Leaves a consistent empty volume in memory and on disk; until its last sector is written the disk is still one that gets formatted |
| FileSystem.FileSystem.Init | src/kernel/fs.c:75-90 | Mounts a usable disk as it is, and the state is consistent exactly if the disk was; formats any other |
| FileSystem.FileSystem.NameEq | src/kernel/fs.c:20-29 | True exactly if the stored name, up to its terminator, is the name given |
| FileSystem.FileSystem.FindEntry | src/kernel/fs.c:122-129 | The scan yields what the specification of the search says |
| FileSystem.FileSystem.Create | src/kernel/fs.c:141-171 | The id or -1 of the specification; the new entry in memory and on disk, all else unchanged, by one sector write |
| FileSystem.FileSystem.Delete | src/kernel/fs.c:181-195 | Frees a file or an empty folder by one sector write, or returns -1 and changes nothing |
| FileSystem.FileSystem.Rename | src/kernel/fs.c:262-278 | Gives the entry the new name by one sector write unless another sibling has it or it is too short or long |
| FileSystem.FileSystem.WalkUp | src/kernel/fs.c:291-297 | The bounded walk finds the entry exactly if it lies on the parent chain |
| FileSystem.FileSystem.Move | src/kernel/fs.c:280-304 | Moves exactly when the destination is a folder or the root, not below the entry, and has no entry of its name; otherwise -1 and nothing changes |
| FileSystem.FileSystem.WriteData | src/kernel/fs.c:220-229 | The sectors of the run hold the bytes and zeros behind them, and no other sector changes at any moment |
| FileSystem.FileSystem.WriteFile | src/kernel/fs.c:197-235 | After a success the file has exactly the bytes given and every other file its own; memory and disk agree; every disk on the way mounts to a consistent volume with all other files intact; and a write that needs a fresh run is seen wholly old or wholly new. It fails, changing nothing, exactly when the id, the length or the space does not do |
| FileSystem.FileSystem.ReadFile | src/kernel/fs.c:237-260 | The first bytes of the file's contents, as many as fit, and the rest of the buffer untouched; with WriteFile, what was written is what is read |
| FsSubtree.SubtreeKept | src/kernel/fs.c:306-347 | What is created under p is not seen from an entry that is not above p: its subtree looks as before, to any depth |
| FsSubtree.CostKept | src/kernel/fs.c:306-347 | Nor does it change what copying that subtree takes: its levels, its entries, and the sectors of its files |
| FsSubtree.FreeFound | src/kernel/fs.c:92-99 | A free slot is found if and only if the count of free slots is above zero |
| FsCopy.List | src/kernel/fs.c:131-139 | The first max entries under a parent in slot order |
| FsCopy.CopyFile | src/kernel/fs.c:322-333 | Copies one file exactly if a new entry can be made and the sectors for its bytes are left; otherwise the same slots are in use as before and no sector is taken: if the disk is full the new entry goes again |
| FsCopy.FolderCopied | src/kernel/fs.c:335-346 | When every entry of a folder has its copy, the copy of the folder looks the same to any depth |
| FsCopy.StillAbove | src/kernel/fs.c:306-347 | If the destination lies below the source, one of the source's entries has it below itself again: the recursion cannot end in success |
| FsCopy.CopyDepth | src/kernel/fs.c:306-347 | Ends for every destination; success or failure, every entry and file that was there is unchanged, on every disk on the way too. On success there is one new entry under the destination, with the name asked for and a subtree isomorphic to the source. It succeeds if and only if the source exists, the destination is a folder or the root outside the source, the name is good and free there, the source has no more levels than are left of seventeen, and the slots and sectors left are enough for all of it, and then exactly those are used up |
| FsCopy.NextEntryOk | src/kernel/fs.c:340-345 | If a folder's copy can succeed, then after any number of its entries have been copied the copy of the next one can too |
| FsCopy.CopyEntries | src/kernel/fs.c:337-346 | The loop over the entries of a folder, called with its new folder made, completes exactly when the whole copy can succeed |
| FsCopy.Copy | src/kernel/fs.c:349-351 | The same from depth 0 |
| FsPath.Path | src/kernel/fs.c:353-388 | Fills the buffer with the path text, cut off to fit, and its terminator; -1 exactly when the id is not live or the buffer is below two bytes |
| FsPath.ResolvePath | src/kernel/fs.c:397-434 | The scanning loop returns what the specification says for every path: dots, double dots, empty components, components cut at 99 bytes, unknown names |
| FsPath.PathRoundTrip | src/kernel/fs.c:353-434 | For every live entry or the root, resolving its path text from any directory returns it if and only if all names up its chain have no backslash and are not one or two dots |
| FsPath.ResolveJoin | src/kernel/fs.c:397-434 | Resolving p, a backslash and a relative q is resolving q from the result of p; if p is not found, neither is the whole |
| Scheduler.Pick | src/kernel/thread.c:86-95 | The ready thread nearest after the current one, and if none is ready the current one exactly when it may go on |
| Scheduler.StepKeepsOneRunning | src/kernel/thread.c:97-196 | Every operation leaves exactly one thread running, the current one, unless an exit leaves none ready, and then the processor halts |
| Scheduler.StepNearer | src/kernel/thread.c:107-196 | While a thread is ready, every switch brings the processor nearer to it and every tick lowers the bound on the ticks left |
| Scheduler.NoStarvation | src/kernel/thread.c:86-118 | In every run with at least 21 delivered ticks or 7 switches, a thread ready at the start gets the processor |
| Scheduler.Threads.constructor | src/kernel/thread.c:30-38 | The boot context is the one running thread |
| Scheduler.Threads.PickNext | src/kernel/thread.c:86-95 | The scan loop yields what the specification says |
| Scheduler.Threads.Switch | src/kernel/thread.c:97-105 | The state after a switch, including what the resumed thread does first |
| Scheduler.Threads.TimerTick | src/kernel/thread.c:107-118 | In place, what a tick does to the value of the scheduler |
| Scheduler.Threads.ThreadYield | src/kernel/thread.c:136-143 | The same for a yield |
| Scheduler.Threads.ThreadBlock | src/kernel/thread.c:145-167 | The same for blocking, pending wakes and the case that nothing else can run included |
| Scheduler.Threads.ThreadWake | src/kernel/thread.c:169-176 | The same for waking |
| Scheduler.Threads.ThreadExit | src/kernel/thread.c:178-196 | The same for an exit; it halts exactly when no other thread is ready |
| Scheduler.Threads.ThreadCreate | src/kernel/thread.c:40-79 | Takes the first unused slot and makes it ready; nothing changes if there is none or no memory |
| Storage.BootInits | src/kernel/kernel.c:48-50 | The kernel's start, one running thread and one made for the worker, is an initial state of the protocol |
| Storage.StepKeepsInv | src/kernel/storage_thread.c:22-98 | Every step of any thread, timer tick or stray wake keeps the invariant of the request protocol |
| Storage.RunKeepsInv | src/kernel/storage_thread.c:22-98 | So does every interleaved run |
| Storage.NeverStuck | src/kernel/storage_thread.c:54-98 | A thread that is not away can always take its next step: the request it refers to exists and the answer it reads was given |
| Storage.ServedOnceInOrder | src/kernel/storage_thread.c:22-98 | In every run requests are served in the order queued, each once; the disk and every returned answer are those of serving them one after the other |
| Storage.NoLostWakeup | src/kernel/storage_thread.c:30-98 | In every run the worker sleeps over a queued request only while a runnable thread is between queueing and waking it, and a requester sleeps over its finished request only while the runnable worker is about to wake it |
| Storage.NoDeadlock | src/kernel/storage_thread.c:54-98 | If no thread can run, the queue is empty and nobody waits |
| Storage.NobodyForgotten | src/kernel/storage_thread.c:54-70 | The request of a sleeping thread is queued, being served, or about to be announced |
| Storage.WokenRuns | src/kernel/thread.c:145-176 | A thread that is ready, the woken worker or a woken requester, has the processor again within 21 ticks of any run of the whole system |
| Storage.IoQueue.Append | src/kernel/storage_thread.c:22-31 | The linked queue is the old one with the request at its end |
| Storage.IoQueue.Take | src/kernel/storage_thread.c:41-52 | The oldest request leaves the linked queue; null exactly when it is empty |
| Heap.TakenKeeps | src/lib/heap.c:50-66 | Handing out a block, split or whole, keeps the chain filling the heap exactly, all sizes multiples of 4, no two neighbours free |
| Heap.ReleasedKeeps | src/lib/heap.c:94-103 | So does releasing one |
| Heap.PositiveIff | src/lib/heap.c:48-66 | Handing out a block leaves none without bytes if and only if the request is at most 2^32 - 4 or the block is too small to be split |
| Heap.ReleasedPositive | src/lib/heap.c:74-103 | Releasing one never does |
| Heap.CoalescedKeeps | src/lib/heap.c:74-84 | One pass leaves no two free neighbours and the total as it was |
| Heap.Apart | src/lib/heap.c:50-66 | Blocks do not overlap |
| Heap.Filled | src/lib/heap.c:29-35 | Blocks lie in the heap region and fill it to its end |
| Heap.TakenLive | src/lib/heap.c:50-66 | kmalloc adds its block to those in use and moves or resizes no other |
| Heap.ReleasedLive | src/lib/heap.c:94-103 | kfree takes its block from those in use and moves or resizes no other |
| Heap.TakeRelease | src/lib/heap.c:37-103 | Releasing the block just handed out restores the identical block list |
| Heap.FailsIff | src/lib/heap.c:50-71 | A request fails if and only if every maximal run of free memory is too small for it |
| Heap.EnoughUnlessWrapped | src/lib/heap.c:48 | The block handed out is at least as large as asked if and only if the request is at most 2^32 - 4 |
| Heap.WrappedRequest | src/lib/heap.c:48 | Above that it fails: a request of 2^32 - 1 on a fresh heap yields a block of no bytes |
| Heap.Heap.Init | src/lib/heap.c:29-35 | One free block fills the heap |
| Heap.Heap.Kmalloc | src/lib/heap.c:37-72 | For every 32-bit request the chain walk in memory hands out the first block that fits the rounded request, split as specified, or returns 0 |
| Heap.Heap.Coalesce | src/lib/heap.c:74-84 | The loop over the headers leaves the coalesced list in memory |
| Heap.Heap.Kfree | src/lib/heap.c:94-103 | Releases the block in memory; nothing for the null pointer |
| Heap.Heap.KallocSize | src/lib/heap.c:86-92 | The size of the block, 0 for the null pointer |
| EditBuf.LineStart | src/gui/editbuf.c:34-40 | The place after the last newline before the position |
| EditBuf.LineEnd | src/gui/editbuf.c:42-48 | The place of the next newline, or the end |
| EditBuf.KeyKeepsSticky | src/gui/editbuf.c:100-169 | Every key keeps the cursor in the text and the remembered column unset or the reason for the cursor's column: the lesser of it and the line's length |
| EditBuf.DownUp | src/gui/editbuf.c:74-98 | A move down that moved is undone by a move up |
| EditBuf.UpDown | src/gui/editbuf.c:74-98 | And the other way round |
| EditBuf.DownsUps | src/gui/editbuf.c:74-98 | n moves down that each moved, then n up, bring the cursor back, however short the lines between |
| EditBuf.UpsDowns | src/gui/editbuf.c:74-98 | And the other way round |
| EditBuf.TypeBackspace | src/gui/editbuf.c:137-167 | Backspace restores text and cursor after typing a character into a buffer with room |
| EditBuf.ChangeReported | src/gui/editbuf.c:100-169 | The return value says that the text changed exactly when it did, if and only if it is not a typing key in a full buffer |
| EditBuf.Buffer.Load | src/gui/editbuf.c:20-32 | As much of the text as fits, cursor at the start |
| EditBuf.Buffer.InsertByte | src/gui/editbuf.c:50-65 | The shifting loop inserts the byte at the cursor, or nothing when full |
| EditBuf.Buffer.EraseAt | src/gui/editbuf.c:67-72 | The shifting loop takes one byte out |
| EditBuf.Buffer.KeyPressed | src/gui/editbuf.c:100-169 | Text, cursor, column, dirty flag and result are those of the specification of the key |
| EditView.LinesSplit | src/gui/editbuf.c:199-219 | The lines of a text hold no newline and, joined by newlines, give the text back |
| EditView.InView | src/gui/editbuf.c:184-192 | For a grid with rows the new first line is not negative, has the cursor's line in view, and is the old one if that already had |
| EditView.Grid.Clear | src/gui/textbox.c:6-14 | Spaces everywhere, a terminator behind each row |
| EditView.Render | src/gui/editbuf.c:171-223 | Cell (r, c) is character c of document line top_line + r or a space, every row stays terminated, and the cursor is shown at its line and column, inside the grid if that has rows and columns, for every text, cursor, previous top line and size of the grid |
| EditView.ShowText | src/gui/editbuf.c:206-219 | The one pass over the text shows its lines from the top line on |
| TreeView.TreeRows | src/gui/treeview.c:33-63 | The full list is the root and exactly the folders all of whose ancestors are open, each once and at its true depth |
| TreeView.WalkMembers | src/gui/treeview.c:33-52 | The rows below a list of entries are the folders reached from it through open folders |
| TreeView.WalkOnce | src/gui/treeview.c:33-52 | No folder has two rows |
| TreeView.TreeView.HasChildFolder | src/gui/treeview.c:21-31 | True exactly if some folder has this parent |
| TreeView.TreeView.WalkRows | src/gui/treeview.c:33-52 | The recursive walk ends and appends the preorder, cut off at 128 rows |
| TreeView.TreeView.Rebuild | src/gui/treeview.c:54-63 | The rows are the first 128 of the preorder |
| TreeView.TreeView.ToggleExpand | src/gui/treeview.c:118-128 | Flips the flag of the folder the row showed, however old the rows are, and no other flag, never the root's, and shows the directory as it is now |
| Video.PlotPixel | src/drivers/video.c:64-90 | Drawing a pixel gives it the colour on all planes and changes no other pixel |
| Video.RectPixel | src/drivers/video.c:153-177 | A filled rectangle has the colour at every screen pixel inside it and changes no other |
| Video.RowInByte | src/drivers/video.c:124-131 | The pixels of one byte, drawn one by one or through one mask, give the same bytes |
| Video.RowClip | src/drivers/video.c:155-158 | The columns off the screen change nothing |
| Video.RectRows | src/drivers/video.c:156-159 | Nor do the rows |
| Video.Vga.DrawPixel | src/drivers/video.c:64-90 | Through latches, set/reset and bit mask, the frame is the one with that pixel drawn; nothing off the screen |
| Video.Vga.GetPixel | src/drivers/video.c:95-114 | The colour read back plane by plane is that of the pixel, 0 off the screen |
| Video.Vga.FillRow | src/drivers/video.c:119-151 | A row filled whole bytes at a time is the row drawn pixel by pixel |
| Video.Vga.FillRect | src/drivers/video.c:153-177 | For all 32-bit x, y, w and h whose sums x + w and y + h are 32-bit values too, or with w or h not positive, the frame is, byte for byte on all planes, the one after drawing every pixel of the unclipped rectangle |
| Video.ClipStays | src/drivers/video.c:155-158 | With sums that wrap, what is left of a span after clipping lies on the screen if and only if its far edge does not overflow |

## Left out

- Correctness.ReturnsIff: the stack has room for the frame and the deepest expression, the caller lies outside the code, and code memory is apart from stack memory; the print function is one atomic step that keeps what the calling convention says it keeps.
- Lexer.Tokens: a number literal wraps to 32 bits, where C leaves the overflow of `val * 10` undefined.
- Driver.Compiler.Compile: the globals of `src/kernel/cc.c` are split over the front end and the emitter; the error text is not cut to 63 bytes, and the CPUID that serialises the processor has no counterpart.
- FrontEnd.FrontEnd.ArenaAlloc: the arena is a byte count; nodes are values, not pointers into it.
- FileSystem.FileSystem.WriteFile: one caller at a time, no I/O errors (`src/kernel/fs.c` ignores the results), and a sector is written whole or not at all.
- FsCopy.CopyDepth: the stack that sixteen levels of recursion take.
- Storage.RunKeepsInv: a request's transfer is one step, and the worker is the only user of the disk.
- Scheduler.NoStarvation: ticks are those delivered; how long interrupts stay off is not modelled.
- Heap.Heap.Kmalloc: block contents are not modelled, only headers.
- Heap.Heap.Kfree: a pointer that is not the start of a block in use; the code does not check for one.
- EditView.Render: the position of rows and columns on the screen.
- Video.Vga.FillRect: what is drawn when `x + w` or `y + h` overflows, which C leaves undefined; the adapter is in write mode 0 with no rotation or logical function.
- Timestamps and attribute bits of directory entries: any value may be stored; nothing in `src/kernel/fs.c` decides by them.
- The stack a new thread starts on, and which registers a switch saves: a context switch is one atomic step.
- `textbox_putc` with its scrolling, the other widgets, the window manager and the applications: drawing and event routing.
- Port protocols (`ide.c`, `pic.c`, `serial.c`, `rtc.c`, `mouse.c`, `keyboard.c`), boot code, descriptor tables and interrupt stubs: hardware plumbing.
- The event ring, string and number helpers, line editing and the calculator: small routines that would only add easy members.
