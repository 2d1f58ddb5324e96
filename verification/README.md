# A verified model of the unwinder, the NTFS image builder and their neighbours

This project models the algorithmic core of an operating system that runs Windows binaries, and
proves what that core is meant to guarantee:

- **x64 unwinding and exceptions** (`Memory`, `UnwindCodes`, `VirtualUnwind`, `ChainedInfo`, `UnwindRecords`,
  `Prologue`, `FunctionTable`, `CallStack`, `ThreadRuns`, `ExceptionDispatch`, `TwoPasses`). `RtlVirtualUnwind` updates a
  context in place and is proved equal to a fold of the decoded unwind codes; a prologue is a list of
  operations executed forward, and unwinding is proved to undo it ("x64 exception handling", parts "Unwind
  operation code" and "Unwind procedure"). `UnwindRecords` says what unwinding does to records given by their
  bytes. `ThreadRuns` is a state machine of calls, interrupts, function bodies and returns: every run leaves a stack
  that the walk visits exactly. On top come the two passes of exception handling.
- **The NTFS image** (`StructPack`, `NtfsAttributes`, `NtfsIndex`, `MftRecord`, `NtfsMft`, `NtfsImage`,
  `NtfsLayout`, `NtfsBuilds`). Readers are written independently of the builder, from the layout on disk, and serve
  as its specification: attributes, runs, index entries, records with fixups, and whole files by path from the image.
  `NtfsLayout` gives the offset of every field, down to those of the finished disk.
- **Kernel services**: calendar conversion (`Calendar`), the printf core (`Formatter`, `FormatPieces`,
  `FormatInterpreter`), the loaded-module list (`ModuleList`).
- **In-memory streams** on a bump arena (`StreamFiles`, `MemoryStream`) and **GUID text** (`GuidText`).
- **The process heap** (`Heap`), the shell's **path resolver** (`PathResolver`) and the **credential vault**
  (`CredentialVault`).

Code that updates state in place is modelled by classes and array methods whose contracts tie the new state
to a specification function or relation; the main results are lemmas about those specifications, most of them
over whole runs. Automatic induction is switched off for every lemma, so that each inductive proof is written out.
`Words` holds machine words and little-endian bytes. `dafny verify dfyconfig.toml` checks everything.

Seven defects of the code are kept in the model, each with the exact condition for it and, but for the last, an input:

- the digit loop of the printf core takes no digit once the buffer is full: it goes on until its position wraps
  after 2^64 turns, and then writes from the start of the buffer, or for ever if there is none
  (`FormatInterpreter.DigitLoopEnds`, `FormatInterpreter.ReturnsIffFinishes`; `%d` with room for the terminator
  alone: `FormatInterpreter.CaughtDigits`);
- `%c` met at a full buffer leaves its argument to the next directive (`FormatInterpreter.OwnArgumentsIff`; `%c%s`:
  `FormatInterpreter.SkippedArgument`);
- the doubling loop of the streams does not end for more than 2^63 bytes (`MemoryStream.DoublingEnds`; a resize to
  2^63 + 1: `MemoryStream.UnendingDoubling`);
- the arena's sum wraps for requests near 2^64, which then succeed and give bytes back (`MemoryStream.FairIff`;
  `MemoryStream.UnfairRequest`);
- so do the heap's sums (`Heap.NeedCovers`; `Heap.WrappedRequest`);
- the path resolver overruns its buffers by one when a text reaches 256 characters (`PathResolver.NameFits`; `cd`
  with a name of 255 letters in the root: `PathResolver.LongestNameOverruns`);
- a credential whose name has 64 characters or more is kept under a cut name, is never found again, and can
  leave two slots with one key (`CredWrite` and `CredUIPrompt` of `CredentialVault.CredentialStore`).

Two more are limits of the formats: a data run reads back exactly if the leading byte of its first cluster is
below 0x80 (`NtfsAttributes.RunRoundTrip`; first cluster 128: `NtfsAttributes.SignedRun`), and the mirror of the
file table overwrites records 16 to 19 (`NtfsImage.RecordsPlaced`). The index of the inner directory calls the root
the parent of its file, where the file's own record names the directory (`NtfsImage.KeyNamesRoot`,
`NtfsImage.EntriesNameRecords`).

## Model

| member | source | states |
|---|---|---|
| UnwindCodes.DecodeEncode | dll/ntdll/ntdll.c:694-715 | decoding the codes a prologue is encoded in gives back its operations, for every operation and either size of operand |
| UnwindCodes.DecodeConcat | dll/ntdll/ntdll.c:691-715 | the operations of two code arrays placed one after the other are the operations of the first followed by those of the second |
| UnwindCodes.SlotMeanings | dll/ntdll/ntdll.c:691-708 | what every code slot means, by the bits it is made of, and how many slots it takes |
| VirtualUnwind.RtlVirtualUnwind | dll/ntdll/ntdll.c:673-728 | the in-place interpreter leaves exactly the context, establisher frame, handler and handler data of the specification: all operations of the chain undone in order under the first record's frame base, then the return popped unless a machine frame was met |
| VirtualUnwind.UndoAllConcat | dll/ntdll/ntdll.c:694-716 | undoing one list of operations and then another is undoing both as one list |
| VirtualUnwind.ChainIgnoresBound | dll/ntdll/ntdll.c:692-724 | for an acyclic chain the records met do not depend on the bound used to show that it ends |
| ChainedInfo.ChainActsAsOneRecord | dll/ntdll/ntdll.c:687-724 | a chain of records has the effect on the context of one record that holds the codes of child, parent, grandparent in this order under the child's frame register |
| ChainedInfo.UnwindReturnsFirstHandler | dll/ntdll/ntdll.c:717-722 | the handler and data returned are those of the first record of the chain that offers the wanted kind, and none if no record does |
| UnwindRecords.UnwindFollowsBytes | dll/ntdll/ntdll.c:673-728 | for any chain of records lying in memory byte by byte (flags, counts, slots, a padding slot after an odd number of them, then a handler or the next function entry) the unwinder goes from each to the next, undoes all their slots under the first one's register and offset, and returns the first handler whose flag is asked for, with the address behind it |
| UnwindRecords.StackMeanings | dll/ntdll/ntdll.c:695-699 | undoing a push, an allocation or a frame pointer sets the registers to these values, computed from the bytes on the stack |
| UnwindRecords.SaveMeanings | dll/ntdll/ntdll.c:700-703 | undoing a save reads eight bytes at 8 times its operand, or its whole 32-bit operand, from the frame base; XMM saves change nothing |
| UnwindRecords.FrameMeanings | dll/ntdll/ntdll.c:704-706 | a machine frame gives Rip and Rsp, behind an error code if its info is not 0; no other operation touches Rip |
| UnwindRecords.FinishMeanings | dll/ntdll/ntdll.c:725-725 | Rip is popped from the stack exactly if no machine frame was met |
| Prologue.UnwindUndoesPrologue | dll/ntdll/ntdll.c:684-728 | for every well-formed prologue (pushes, the three allocations, frame pointer, MOV saves, near and far) entered by a call or an interrupt, and every body that leaves the saved slots alone, unwinding yields the caller's Rip, Rsp and every saved register, and leaves the others as the body left them |
| Prologue.UnwindUndoesPushes | dll/ntdll/ntdll.c:684-728 | for a prologue of pushes, allocations and perhaps a frame pointer the same holds without any condition on where it stores, as long as it stays in the address space |
| Prologue.UnwindUndoesEncodedPrologue | dll/ntdll/ntdll.c:684-728 | the same from the bytes in memory: a record whose codes are the encoded prologue in reverse, each with any prologue offset |
| Prologue.SuspendedUnwinds | dll/ntdll/ntdll.c:684-728 | from any context in which the saved slots hold and the frame base can be found, even with Rsp lowered under a frame pointer, the unwinder recovers the caller and the establisher frame |
| Prologue.PrologueSaves | dll/ntdll/ntdll.c:702-709 | after a well-formed prologue each save slot holds the register it stands for |
| FunctionTable.LinearScan | pdata.py:22-26 | the scan returns the first entry whose range covers the address, or none |
| FunctionTable.BinarySearch | dll/ntdll/ntdll.c:658-667 | on a table of sorted, disjoint, non-empty ranges the binary search returns what the first-match scan returns, or none where it returns none |
| FunctionTable.RtlLookupFunctionEntry | dll/ntdll/ntdll.c:650-667 | looks the address up in the module that contains it and reports the module's base; an entry found covers the address less that base; none found in a sorted table means that none covers it; nothing for an address in no module or a module without a table |
| CallStack.StepFindsCaller | dll/ntdll/ntdll.c:740-768 | one step of the walk, by lookup and unwind or by popping a leaf, leads from an activation to the one that called it or that it interrupted, ends exactly at the outermost one, and sees the activation's frame base |
| CallStack.WalkSteps | dll/ntdll/ntdll.c:738-767 | where the walk goes from any context: past a return address or through an unwind, and where it ends |
| CallStack.WalkVisitsActivations | dll/ntdll/ntdll.c:735-768 | the walk visits exactly the activations on the stack, called or entered by an interrupt, innermost first, up to the cap, with the Rip, Rsp and nonvolatile registers of each |
| CallStack.WalkRises | dll/ntdll/ntdll.c:735-768 | Rsp strictly increases over the visited contexts, so that the walk would end without the cap |
| CallStack.RspRises | dll/ntdll/ntdll.c:735-768 | Rsp strictly increases from every activation to each older one |
| ThreadRuns.StepStaysValid | dll/ntdll/ntdll.c:735-768 | a call or an interrupt with the prologue that follows, any stretch of a body that spares the saved slots, and a return each keep the whole stack walkable |
| ThreadRuns.RunStaysValid | dll/ntdll/ntdll.c:735-768 | so does every sequence of them |
| ThreadRuns.WalkIsTheCallStack | dll/ntdll/ntdll.c:735-768 | after any run of calls, interrupts, bodies and returns from an empty stack the walk visits exactly the functions entered and not returned |
| ExceptionDispatch.SearchRunsOverTheWalk | dll/ntdll/ntdll.c:735-768 | the search loop, which unwinds as it goes, asks the same handlers with the same outcome as a pass over the finished walk |
| ExceptionDispatch.Exceptions.RtlDispatchException | dll/ntdll/ntdll.c:735-768 | the in-place loop makes the handler calls, with all their arguments, and has the outcome of the specified search over the walk; stated from the answers alone: each visited function with a search handler is asked once, in order, with the context the answer before it left, every answer but the last is to go on, and the search resumes exactly if the last answer is to continue and the exception is not noncontinuable, unwinds exactly if it is a catch, and else returns |
| ExceptionDispatch.Exceptions.RtlUnwindEx | dll/ntdll/ntdll.c:775-813 | the in-place loop leaves the flags, the handler calls and the context to transfer to that the specified unwind gives, with Rip and Rax replaced; stated frame by frame: each visited function up to and including the target that has an unwind handler is called once, in order, with its own arguments, the target flag set on the target's call alone, and no other function is called |
| ExceptionDispatch.Exceptions.SearchFrame | dll/ntdll/ntdll.c:746-765 | one frame of the search: the handler is asked only if there is one, with the establisher frame and handler data of its record, and the context moves to the caller |
| TwoPasses.EstablishersRise | dll/ntdll/ntdll.c:745-768 | establisher frames strictly increase from activation to older activation |
| TwoPasses.UnwindReachesTarget | dll/ntdll/ntdll.c:784-808 | when the target is the establisher frame of the t-th activation the unwind handlers of the activations up to and including it are called once each, in order, the target flag first set on that call, and the unwind ends in its own context |
| TwoPasses.SearchAsksInOrder | dll/ntdll/ntdll.c:737-768 | the search asks the handlers of the visited functions once each, in order, up to the one that ends it |
| TwoPasses.TwoPassAgreement | dll/ntdll/ntdll.c:735-813 | if the search ends in a handler that catches for its own frame, the unwind to that frame visits that frame as its target, runs every unwind handler below and at it once and no other, and lands in the catching activation with only Rip and Rax changed |
| StructPack.FieldsOfPacked | apps/make-ntfs-image.py:112-123 | every field of a packed record reads back, wherever the record stands |
| NtfsAttributes.ResidentRoundTrip | apps/make-ntfs-image.py:106-131 | a resident attribute parses back to its type, flags, id and content, and to its name exactly if the name is whole UTF-16 units |
| NtfsAttributes.MakeFieldBytes | apps/make-ntfs-image.py:140-144 | the loop gives little-endian bytes that spell the value, at least one, and no other bytes that spell it are fewer |
| NtfsAttributes.SignedFieldBytes | apps/make-ntfs-image.py:140-144 | read as a signed number those bytes give the value back if and only if the leading byte is below 0x80 |
| NtfsAttributes.RunRoundTrip | apps/make-ntfs-image.py:145-147 | a data run reads back if and only if the leading byte of its first cluster is below 0x80 |
| NtfsAttributes.NonResidentRoundTrip | apps/make-ntfs-image.py:134-169 | so does the whole non-resident attribute with its type, id, run and size |
| NtfsLayout.ResidentLayout | apps/make-ntfs-image.py:106-131 | the fields of a resident attribute by their offsets, with name and content where they say |
| NtfsLayout.NonResidentLayout | apps/make-ntfs-image.py:134-169 | the fields of a non-resident attribute by their offsets, and its one run at 0x40: two sizes in a byte, cluster count, first cluster, terminator |
| NtfsIndex.FileNameRoundTrip | apps/make-ntfs-image.py:78-94 | a file name reads back with parent, name, flags and both sizes |
| NtfsLayout.FileNameLayout | apps/make-ntfs-image.py:78-94 | the fields of a file name by their offsets, one UTF-16 unit a character from 66 on |
| NtfsIndex.IndexRootRoundTrip | apps/make-ntfs-image.py:381-414 | reading a directory index up to the entry flagged last gives exactly its entries, in order |
| NtfsIndex.BuildRootIndex | apps/make-ntfs-image.py:381-414 | the accumulating loop builds the bytes that the reader is proved to read |
| NtfsLayout.EntryLayout | apps/make-ntfs-image.py:384-397 | the fields of an index entry by their offsets; its key is a file name whose parent is the root |
| NtfsLayout.IndexRootLayout | apps/make-ntfs-image.py:398-414 | the fields of the index by their offsets, the entries from 32 on, the last of 16 bytes with flag 2 |
| MftRecord.FixupsUndo | apps/make-ntfs-image.py:228-239 | the fixups check, and undoing them restores both sector ends and everything outside the fixup array |
| MftRecord.RecordRoundTrip | apps/make-ntfs-image.py:193-240 | for every attribute list that fits, checking and undoing the fixups and walking the attribute lengths to the end marker recovers the header values and exactly the attributes |
| MftRecord.BuildMftRecord | apps/make-ntfs-image.py:193-240 | patching the record in place field by field, attribute by attribute and fixup by fixup gives those bytes, and fails exactly if something does not fit |
| NtfsLayout.RecordLayout | apps/make-ntfs-image.py:193-240 | the fields of a finished record by their offsets, from the four letters FILE to its number |
| NtfsLayout.FixupsLayout | apps/make-ntfs-image.py:217-239 | both sectors of a record end in the number 1 kept at 0x30; with the bytes kept behind it put back, the attributes follow one another from 0x40 on, then come the end marker and zeros |
| NtfsMft.FileRecordReads | apps/make-ntfs-image.py:253-278 | a file's record reads back as in use, with its own name, parent, sizes and permissions, and with its resident content, its directory entries or its data run |
| NtfsLayout.AttributesLayout | apps/make-ntfs-image.py:253-278 | a file has the attributes 0x10, 0x30 and then 0x80, or 0x90 under the name $I30, in this order |
| NtfsLayout.StdInfoLayout | apps/make-ntfs-image.py:97-103 | the fields of the standard information by their offsets |
| NtfsMft.BuildMft | apps/make-ntfs-image.py:247-378 | the table is the records in the order of their numbers, unused numbers filled with records that are not in use |
| NtfsMft.TableSlots | apps/make-ntfs-image.py:371-378 | the k-th kilobyte of the table is the k-th record |
| NtfsImage.BuildImage | apps/make-ntfs-image.py:464-523 | the sequence of slice assignments gives the specified image |
| NtfsImage.RecordsPlaced | apps/make-ntfs-image.py:507-513 | every record is in the image as built, except that slots 16 to 19 hold copies of records 0 to 3 |
| NtfsLayout.TableLayout | apps/make-ntfs-image.py:371-378 | on the finished disk the k-th record stands at 0x104000 + 0x400 k, with its number, and says whether it is unused, a file or a directory; the mirror's copies have the numbers 16 to 19 |
| NtfsImage.EntriesNameRecords | apps/make-ntfs-image.py:280-369 | in the finished image every entry of the two directories leads to a record in use that carries the entry's name, flags and size and that directory as its parent |
| NtfsImage.SystemRecordsNamed | apps/make-ntfs-image.py:271-305 | records 0 to 11 carry the names NTFS gives them, in the root |
| NtfsImage.KeyNamesRoot | apps/make-ntfs-image.py:386-388 | the key of every directory entry names the root as parent, also in the inner directory |
| NtfsImage.VolumeMounts | apps/make-ntfs-image.py:417-461 | from the partition table and the boot sector a reader finds the partition, the cluster size and the file table |
| NtfsLayout.PartitionTable | apps/make-ntfs-image.py:443-461 | the fields of the first sector of the finished disk by their offsets |
| NtfsLayout.BootSector | apps/make-ntfs-image.py:417-440 | the fields of the boot sector of the finished disk by their offsets |
| NtfsImage.BackupPlaced | apps/make-ntfs-image.py:499-505 | the last sector of the finished disk is a copy of the boot sector, if no file reaches into it |
| NtfsLayout.FilesLayout | apps/make-ntfs-image.py:515-523 | the embedded files lie at clusters 32 and 512 of the finished disk |
| NtfsImage.FilesReadBack | apps/make-ntfs-image.py:487-523 | following partition table, boot sector, records, index entries and data run from the finished image returns the exact bytes of every file, if the embedded files are disjoint and inside the partition |
| NtfsBuilds.ImageBuilds | apps/make-ntfs-image.py:464-523 | under that same condition every value fits its field, so the image is built |
| Calendar.RtlTimeToTimeFields | src/ntos/ntoskrnl.c:762-782 | for every 64-bit time the loops give a valid Gregorian date and clock whose closed-form millisecond count is the time truncated to a millisecond (times before 1601 count as 0), and the matching weekday; the year is at most 30828, so that all fields fit 16 bits |
| Calendar.NumbersOrderDates | src/ntos/ntoskrnl.c:771-778 | closed-form day numbers order valid dates as the calendar does, so that a day has one date |
| Calendar.FieldsFollowTime | src/ntos/ntoskrnl.c:764-781 | fields are lexicographically monotone in time and determined by it |
| Calendar.WeekdayAdvances | src/ntos/ntoskrnl.c:770-770 | a day later the weekday has advanced by 1 modulo 7, the date by one day and the clock not at all |
| Calendar.DateAdvances | src/ntos/ntoskrnl.c:771-778 | a day later the date is the next one in the Gregorian calendar |
| Calendar.Landmarks | src/ntos/ntoskrnl.c:762-782 | the fields of four known instants: the first, the Unix epoch, and one beside each kind of century |
| Formatter.FieldReadsBack | src/ntos/ntoskrnl.c:564-572 | an integer field reads back as its number under strtoll's rules, and its length is the larger of its width and its digits with sign |
| Formatter.DigitCount | src/ntos/ntoskrnl.c:565-566 | a number below 10^k takes at most k digits in any base from 10 to 16 |
| Formatter.TwentyDigits | src/ntos/ntoskrnl.c:565-566 | a 64-bit number has at most 20 digits, fewer than the 24 slots, in any base from 10 to 16 |
| FormatInterpreter.ReverseDigits | src/ntos/ntoskrnl.c:564-566 | the loop leaves the digits in reverse order, never in more than 20 slots |
| FormatInterpreter.IntegerReadsBack | src/ntos/ntoskrnl.c:551-560 | what an integer conversion writes reads back as the one number of the range its length names, signed for d and i, that is congruent to the argument; it is decimal for d, i and u, else hexadecimal, with capital letters for X alone |
| FormatInterpreter.PutField | src/ntos/ntoskrnl.c:564-572 | padding, sign and digits come out as the specified field, cut to the buffer |
| FormatInterpreter.DigitLoopEnds | src/ntos/ntoskrnl.c:532-571 | in the machine of the interpreter's steps, with a 64-bit position, the digit loop is left before the position wraps if and only if every digit fits before the terminator, and is ever left if and only if there is a buffer |
| FormatInterpreter.ReturnsIffFinishes | src/ntos/ntoskrnl.c:529-575 | for every format and argument list: with no digit loop caught by a full buffer the interpreter returns at the length of what it puts out; with one caught it makes at least 2^64 - 1 steps; it ever returns if and only if there is a buffer or no digit loop is caught |
| FormatInterpreter.CaughtDigits | src/ntos/ntoskrnl.c:531-573 | `%d` into a buffer of one unit is caught, whatever the argument |
| FormatInterpreter.OwnArgumentsIff | src/ntos/ntoskrnl.c:531-562 | every directive gets its own argument if and only if no `%c` met at a full buffer is followed by a directive that takes an argument |
| FormatInterpreter.SkippedArgument | src/ntos/ntoskrnl.c:531-562 | with room for nothing, `%c%s` passes the character's argument to `%s`: what is put out is as long as that text, not as the one meant |
| FormatInterpreter.InStepProduces | src/ntos/ntoskrnl.c:531-575 | if every directive gets its own argument, what is put out has the length of the expansion and is the same as far as the buffer shows it |
| FormatInterpreter.FittingFinishes | src/ntos/ntoskrnl.c:529-575 | a format whose expansion fits the buffer catches no digit loop and skips no argument, and its expansion is what is put out |
| FormatInterpreter.VfmtCore | src/ntos/ntoskrnl.c:529-589 | for every format and argument list whose digit loops end, the buffer holds what the directives put out with the arguments they get, cut to leave one unit for the terminator, and nothing past it has changed; the result is the whole length as a 32-bit integer; if every directive gets its own argument this is the specified expansion; a format spelled from pieces (characters, and conversions with flags, width, size and letter) leaves what its pieces are meant to print, if that fits or every directive gets its own argument; a format without a percent sign that fits is left as it is |
| FormatInterpreter.DirectiveReads | src/ntos/ntoskrnl.c:537-546 | a conversion wherever it stands in a format is read as it is written: flags in any order, width in decimal, w, h, l or ll, letter |
| FormatInterpreter.PieceItem | src/ntos/ntoskrnl.c:529-572 | what the interpreter puts out for a piece is what the piece is meant to print: a number in its field, the low unit of a character, a text of the buffer's own or the other width, (null), a percent sign |
| FormatInterpreter.PiecesExpand | src/ntos/ntoskrnl.c:529-575 | a format expands to what its pieces mean, one after the other, each with its own argument |
| FormatInterpreter.FormattedText | src/ntos/ntoskrnl.c:575-575 | an expansion that fits is followed by its terminator, a longer one is cut to end in the last unit |
| ModuleList.BuildModulePath | src/ntos/ntoskrnl.c:336-345 | the path is the system prefix and as much of the name as 255 characters allow, with a terminator, and its offset is the prefix's length |
| ModuleList.BuildModuleList | src/ntos/ntoskrnl.c:351-380 | sizing and filling return the same size; a missing or short buffer is untouched; otherwise exactly that many bytes are written, and none after them |
| ModuleList.WalkVisitsModules | src/ntos/ntoskrnl.c:360-378 | following NextOffset from the first entry meets every module once, in order, with its base, its size (the default for 0), its load order modulo 65536, a load count of 1 and its name cut to the path limit |
| ModuleList.ListLayout | src/ntos/ntoskrnl.c:361-378 | the fields of the k-th entry by their offsets, its path from 0x30 on: the system prefix, then as much of the name as fits, then a terminator |
| ModuleList.QueryModules | src/ntos/ntoskrnl.c:391-406 | a short buffer is refused untouched with the size to bring; with that size the buffer holds the list, and walks to every module |
| StreamFiles.WritesJoin | dll/win32/combase/combase.c:227-232 | two writes in a row, either of them perhaps empty, are one write of both pieces |
| StreamFiles.ReadFindsWrite | dll/win32/combase/combase.c:219-253 | over any run, a read at the position of an earlier write starts with what was written, if no call in between wrote to the stream, copied into it or resized it |
| StreamFiles.RunLeavesOthers | dll/win32/combase/combase.c:207-275 | over any run of calls a file that no call is about stays as it was |
| StreamFiles.CloneIsIndependent | dll/win32/combase/combase.c:269-275 | a clone starts with its source's bytes and position, and from then on calls about one leave the other alone |
| StreamFiles.ReadDelivers | dll/win32/combase/combase.c:219-226 | a read delivers what the file holds from its position on, as many bytes as asked or fewer at its end, moves past them and says if it came out short |
| StreamFiles.SeekMoves | dll/win32/combase/combase.c:233-238 | a seek counts from the position for origin 1, from the end for origin 2 and else from the start; a negative target is refused |
| StreamFiles.CopyOffers | dll/win32/combase/combase.c:244-253 | a copy offers what a read would, moves its source past it whatever the target takes, and puts what is taken at the target's position |
| MemoryStream.ComHeap.Run | dll/win32/combase/combase.c:207-290 | any run of Read, Write, Seek, SetSize, CopyTo, Clone, creation and allocation calls is a run of independent byte files with positions; streams handed out stay, and keep buffers and objects apart; each call succeeds exactly if the arena has room for what it needs; after the run every stream has no buffer, or one of 256 times a power of two, with all the bytes ever taken for its buffers below twice that; the books account for every byte the arena moved |
| MemoryStream.AccountsAddUp | dll/win32/combase/combase.c:125-275 | a stream's account after a run is the sum of the bytes by which the calls that grow its buffer moved the arena, and nothing else |
| MemoryStream.ComHeap.ArenaAlloc | dll/win32/combase/combase.c:124-129 | requests are rounded up to 16 in 64 bits; a fair one fails exactly if it rounds to 0 or the arena has no room, takes nothing then, and never disturbs a stream |
| MemoryStream.FairIff | dll/win32/combase/combase.c:125-127 | a granted request moves the arena past its bytes if and only if its sum with the offset stays within 2^64 - 16 or it rounds to 0 |
| MemoryStream.ComHeap.CoTaskMemAlloc | dll/win32/combase/combase.c:131-131 | whatever the request, succeeds and moves the arena exactly as the 64-bit sum says; the bytes of a fair one meet no stream's object or buffer |
| MemoryStream.ComHeap.StreamEnsure | dll/win32/combase/combase.c:207-215 | no file changes whether it succeeds or fails; it fails exactly when a larger buffer is needed and the arena has no room for the next power of two; what it takes from the arena is counted |
| MemoryStream.ComHeap.Read | dll/win32/combase/combase.c:219-226 | delivers the bytes from the position on, as many as there are, to the caller's bytes, which may be task memory from the same arena, and reports a short read |
| MemoryStream.ComHeap.Write | dll/win32/combase/combase.c:227-232 | on success the data stands at the old position, the position is past it and every other byte is kept; failure, under the stated condition only, changes no file |
| MemoryStream.ComHeap.Seek | dll/win32/combase/combase.c:233-238 | moves to the base plus the offset, past the end if asked, and refuses a negative position without moving |
| MemoryStream.ComHeap.SetSize | dll/win32/combase/combase.c:239-243 | keeps the common bytes and the position, or fails under the stated condition and changes no file |
| MemoryStream.ComHeap.CopyTo | dll/win32/combase/combase.c:244-253 | the target gets what the source offers exactly if it can hold it, and is charged for what that takes; the source moves on all the same, and the call reports success; a stream copied to itself keeps its bytes and moves twice |
| MemoryStream.ComHeap.Clone | dll/win32/combase/combase.c:269-275 | gives a new stream with equal file, charged with its buffer, exactly if the arena has room for the object and, if there are bytes, for the buffer; else changes no file |
| MemoryStream.GrowCap | dll/win32/combase/combase.c:209-210 | doubling reaches the least power-of-two multiple that is enough, at least twice the old capacity, without wrapping |
| MemoryStream.DoublingEnds | dll/win32/combase/combase.c:210-210 | in 64 bits the doubling loop ends if and only if the need is at most 2^63 |
| MemoryStream.OtherFilesKept | dll/win32/combase/combase.c:211-230 | bytes stored within one stream's buffer, or past everything taken, are in no other stream's file |
| GuidText.PrintedParses | dll/win32/combase/combase.c:575-608 | parsing the printed form of any GUID, whatever follows it, gives that GUID |
| GuidText.ParsedPrints | dll/win32/combase/combase.c:575-608 | printing what an accepted string spells gives its 36 characters in upper case inside braces |
| GuidText.PrintedCharacters | dll/win32/combase/combase.c:575-590 | the printed form character by character: three numbers, then eight bytes, in capital hexadecimal figures between braces and dashes |
| GuidText.StringFromGuid | dll/win32/combase/combase.c:575-590 | writes those 38 characters and a terminator and returns 39, or returns 0 and writes nothing for a missing argument or a buffer below 39 |
| GuidText.GuidFromStr | dll/win32/combase/combase.c:591-608 | accepts exactly 8-4-4-4-12 hexadecimal digits in either case after an optional brace, looking no further; no string and every error leave the null GUID |
| Heap.NeedCovers | dll/ntdll/ntdll.c:366-368 | the 64-bit sums cover the block, its header and its chunk, and the test for room is right, if and only if the request is at most 2^64 - 2^20 - 8 and its end in the current chunk stays below 2^64 |
| Heap.ProcessHeap.Run | dll/ntdll/ntdll.c:365-393 | over every run of allocations, reallocations, frees and stores within payloads all blocks stay where they were handed out, with their headers, pairwise disjoint and inside chunks; each new block is placed next in its chunk; exactly the allocations succeed that fit the current chunk or for which the kernel grants a new one; the payloads follow the specification |
| Heap.ProcessHeap.Bump | dll/ntdll/ntdll.c:365-377 | a new block is placed next in its chunk and leaves every older block and payload as it is; it fails exactly when a chunk is needed and refused, and then changes nothing |
| Heap.ProcessHeap.RtlAllocateHeap | dll/ntdll/ntdll.c:378-382 | one more block of the requested size, all zero if asked, the others untouched; fails exactly when a chunk is needed and refused |
| Heap.ProcessHeap.RtlReAllocateHeap | dll/ntdll/ntdll.c:384-393 | the new block starts with the first min(old, new) bytes of the old one and goes on with zeros if asked; the old block is untouched; no old block means a plain allocation; fails exactly when a chunk is needed and refused |
| Heap.BlockKeptOverRun | dll/ntdll/ntdll.c:365-393 | over a whole run a byte of a block changes only by a store to that very byte |
| Heap.StoredInside | dll/ntdll/ntdll.c:365-393 | a store within one payload leaves every header and every other payload |
| Heap.BlockAdded | dll/ntdll/ntdll.c:374-376 | a block at the bump pointer is apart from every block handed out before, in this chunk or another |
| Heap.BlockGoes | dll/ntdll/ntdll.c:365-377 | a block takes its size and 8 bytes rounded up to 16, from the current chunk if it has room, else from a new one of 2 MiB or of that rounded up to 1 MiB; else the request fails |
| PathResolver.ResolveSubpath | apps/cmd.c:161-197 | editing the buffers in place gives the text of the fold of the argument's components over the current directory, whenever the argument and every text on the way fit the 256-character buffers |
| PathResolver.NameFits | apps/cmd.c:161-197 | a name fits the buffers exactly if the text of the directory it leads to has at most 255 characters |
| PathResolver.LongestNameOverruns | apps/cmd.c:161-197 | from the root a name of 255 letters, the longest word a command takes, leads to a text of 256 |
| PathResolver.GoingUpFits | apps/cmd.c:161-197 | `..` fits from every directory whose own text does |
| PathResolver.ShortArgumentsFit | apps/cmd.c:161-197 | so does every argument that is short enough when joined to the directory, whatever it goes up |
| PathResolver.ResolvedCanonical | apps/cmd.c:161-197 | the result is absolute with no empty, dot or dot-dot component and no slash inside one |
| PathResolver.ResolvedIdempotent | apps/cmd.c:161-197 | resolving a result again, from anywhere, changes nothing |
| PathResolver.ResolvedJoined | apps/cmd.c:174-195 | for relative drive-less arguments, the first not empty, resolving the two joined by a backslash is resolving the second from where the first leads |
| PathResolver.DotsResolve | apps/cmd.c:174-189 | `.` leaves the text alone; `..` cuts it at its last slash, and stays in the root |
| PathResolver.NameResolves | apps/cmd.c:190-195 | a name is put behind the text, after a slash |
| PathResolver.SlashesAndDrives | apps/cmd.c:161-179 | either slash, repeated slashes and a drive prefix make no difference; a leading slash starts from the root |
| PathResolver.TextResolves | apps/cmd.c:161-197 | the text of a directory resolves to that directory, so texts determine directories |
| PathResolver.GoUp | apps/cmd.c:180-189 | the backward scan cuts exactly the last component and never the root |
| PathResolver.Word | apps/cmd.c:131-137 | takes the first word: behind spaces and tabs, up to the next one or the end, at most 255 characters of it |
| PathResolver.Shell.ChangeDirectory | apps/cmd.c:361-392 | the directory becomes the resolved one exactly if it opens and either lists or is the root, and stays otherwise |
| PathResolver.Shell.RunCommands | apps/cmd.c:361-392 | over any run of cd commands the buffer holds the text of the specified, canonical directory |
| PathResolver.RunStaysCanonical | apps/cmd.c:361-392 | that directory is canonical, and it is the first one or one the kernel agreed to open |
| CredentialVault.CredentialStore.Same | dll/win32/credui/credui.c:139-149 | two names compare equal exactly if they have one length and differ in no character but for the case of ASCII letters, that is, if their folded forms are equal |
| CredentialVault.SameKey | dll/win32/credui/credui.c:139-149 | two names share a key exactly then |
| CredentialVault.KeptFields | dll/win32/credui/credui.c:359-369 | what is kept of a credential: kind 1 and persistence 3 for 0, names cut to 63 characters, a blob of at most 256 bytes, zeros for none |
| CredentialVault.PromptFields | dll/win32/credui/credui.c:185-215 | an empty buffer is filled with as much of the default as it holds; kind by the generic flag, persistence 3, password cut to 255 bytes |
| CredentialVault.CredentialStore.VaultFind | dll/win32/credui/credui.c:152-157 | finds a used slot with an equal name, and fails only if there is none |
| CredentialVault.CredentialStore.CredWrite | dll/win32/credui/credui.c:354-371 | for names below 64 characters the map gets the entry as kept, and a new key fails only when all 16 slots are used; a longer name takes an unused slot under its cut form, is never found again, and two slots share a key exactly when the cut form was already there |
| CredentialVault.CredentialStore.CredRead | dll/win32/credui/credui.c:331-352 | returns the map's entry under the folded name, or none |
| CredentialVault.CredentialStore.CredDelete | dll/win32/credui/credui.c:373-380 | removes the key and nothing else, and reports whether it was there |
| CredentialVault.CredentialStore.CredUIConfirm | dll/win32/credui/credui.c:257-264 | a refusal removes the key, a confirmation changes nothing |
| CredentialVault.CredentialStore.CredEnumerate | dll/win32/credui/credui.c:387-415 | lists every entry of the map exactly once; fails for an empty vault |
| CredentialVault.CredentialStore.CredUIPrompt | dll/win32/credui/credui.c:173-220 | keeps what was typed or fills in defaults cut to the buffers, and with the persist flag stores the result as a write would, long names included, without reporting a full vault |
| CredentialVault.CredentialStore.Run | dll/win32/credui/credui.c:152-415 | every run of calls that store no name of 64 characters or more is a run of the map, and leaves no key in two slots |
| CredentialVault.ReadFindsLastWrite | dll/win32/credui/credui.c:331-371 | over a run a read finds what was last written under its name in any letter case |
| CredentialVault.ReadMissesDeleted | dll/win32/credui/credui.c:257-380 | after a delete or a refused confirmation a read finds nothing until the name is written again |
| CredentialVault.FullVault | dll/win32/credui/credui.c:158-161 | the map has 16 keys exactly when every slot is used |

## Left out

- Language handlers are oracles: they answer from the call and their place in the log, and leave memory and the exception record alone. A handler that unwinds does not return to the search.
- `RtlCaptureContext` and `RtlRestoreContext` are an exact copy of the register file and a jump; the context `RtlUnwindEx` captures is a parameter.
- `RtlVirtualUnwind` is modelled for one kind of handler at a time, as both callers ask for it; `pc` is ignored as in the code, so results are for a pc past the prologue; XMM registers are not restored, as in the code.
- Thread runs: interrupts come on the thread's own stack and between two steps of a body, not inside a prologue or an epilogue.
- Chains of unwind records are taken to be acyclic; on a cyclic one the code does not return.
- The image's file table follows a table of file descriptions rather than one statement per file; names are within the Basic Multilingual Plane, where Python's character count is the count of UTF-16 units.
- Printf: a width of 2^31 or more and the negation of the least 64-bit number are undefined in C; the model takes the exact width and the magnitude 2^63.
- FormatInterpreter.VfmtCore: states nothing for a format in which some digit loop meets a full buffer, because there the code does not return before its position wraps; positions are not wrapped in its contract, which is about outputs below 2^64 - 1 units.
- FormatInterpreter.PieceItem: a piece has at most one `w`, before its size, and one of the sizes `h`, `l` and `ll`; other spellings, such as `%hlw`, are covered by the specified expansion alone.
- The module list takes the loader's table as a list that does not change between the two calls and whose size fits 32 bits; the other query classes are not modelled.
- Streams: reference counts, `Stat`, the lock calls and null out-pointers are left out; a write or resize ends at most at 2^63, beyond which the doubling loop does not end, a read does not aim at a stream's own bytes, and runs stop before an allocation that is not fair; bytes exposed by a growth or a gap may be anything.
- GUID parsing reads one unit past the terminator when the first digit of a pair is missing; the model reads 0 there.
- The heap's kernel grants any region below 2^47 that meets none it granted before, or nothing; clients write only payloads; runs stop before a request whose sums wrap, which would overlap other blocks (`Heap.WrappedRequest`).
- Paths: `resolve_subpath` keeps two guards after the backward scan that can never be taken and are not modelled; what the code does after overrunning a buffer is undefined in C and excluded by `PathResolver.Fits`.
- The vault's returned records point into the slots, so that a later call shows through them; the model returns their contents. Constant fields of those records, wide-character calls, user-name parsing and the null-buffer checks of the prompt are not modelled.
- Loader, scheduler, memory manager, file-system driver, device stubs, the universal COM object and the graphical programs are not part of this model.
