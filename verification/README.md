# The writer pipeline of the Android runtime, in Dafny

The ahead-of-time compiler of the Android runtime writes three files that refer to each other: the
oat file with the compiled code, the ELF file around it, and the boot image. Most of that code works in
two passes. The first pass promises offsets, and a later pass has to honour them, often knowing nothing
but the promised offsets. The rest are index structures, byte encodings and bytes moved in place. This
project models that pipeline and proves what its parts promise to each other.

- **Strings of the image** (`StringPacking`). All strings are packed into one character array, longest
  first, where a string shares the characters of a longer one it is a prefix of. The ordered set that
  finds such a string compares characters of the very array that is being overwritten.
- **Image layout** (`ImageSlots`, `BinLayout`, `ImageHeap`, `ImageLayout`, `ImageLimits`). A walk over a heap
  with cycles gives every object a slot in a bin before the sizes of the other bins are known. A second pass
  turns slots into offsets. Slots, offsets and hash codes all live in the lock word.
- **Oat file** (`Chunks`, `OatMaps`, `OatCode`, `OatWriter`, `OatReader`, `OatFile`). The init pass lays out tables,
  dex files, classes, deduplicated maps, trampolines and code. The write pass finds out only from offsets what
  is a first occurrence and what is a duplicate, and it writes through the buffered stream. The reader of the
  runtime finds everything again: from the table of dex files to the class records, and from there to the
  code, the header and the tables of every compiled method.
- **Debug lines** (`Leb128`, `SrcMaps`, `JavaLines`, `DwarfLine`, `LineProgram`, `DebugLines`). Java debug
  streams are joined with pc tables, sorted, turned into deltas and written as a line-number program for
  the state machine of section 6.2 of DWARF version 4.
- **ELF file** (`ElfFormat`, `ElfLayout`, `ElfBuilder`, `ElfHashFunction`, `ElfHash`, `ElfStripper`).
  Section layout, names, headers, the System V hash table, and the stripper that compacts the file in
  place. The oat writer fills `.rodata` and `.text` of the very file the builder lays out, and the stripper
  is shown to keep, of a built file, exactly the sections meant to stay.
- **GC maps** (`Bits`, `LittleEndian`, `GcMap`). An open-addressed table serialised with keys of variable
  width, and its reader.
- **Relocation** (`Relocation`, `ImagePatch`). Patching the text for one base and moving it by a delta
  later, against patching it for the moved base; and moving a whole image.
- **Streams and the barrier** (`Bytes`, `Sequences`, `Streams`, `BufferedStream`, `Barrier`). The buffered
  stream refines the plain one. The thread barrier is a state machine over interleaved steps.

`dafny verify dfyconfig.toml` checks the whole project.

## What the code does not promise

Some expected properties do not hold of the code as it is written. The code is modelled as it is, a
lemma or method shows a failing input, and the exact condition is proved.

- `LineTableGenerator::PutDelta` multiplies the address delta by the line range in 32 bits. When that
  wraps around to a number below 256, a single wrong byte is written (`LineProgram.WrappingEntry`). The
  bytes of an entry mean that entry if and only if this does not happen (`LineProgram.DeltaExact`). A
  difference of lines that `SetLine` cannot store in an `int` leaves the reader at a wrong line. For a whole
  program, `LineProgram.ProgramExact` says which of the two happens when; unless some opcode wraps around to
  one that appends no row, the reader gets the expected rows if and only if neither happens
  (`LineProgram.ProgramRightIffPlain`).
- `GetLineInfoForJava` takes the set-file operation to have no operand, so the operand is read as
  operations (`JavaLines.SetFileMisread`). This goes unnoticed for exactly three operands
  (`JavaLines.SetFileUnnoticed`).
- The GC map reader shifts a promoted byte into the sign bit. With 64-bit pointers, offsets from 2^31 on
  are never found, all others are (`GcMap.NeverFound`, `GcMap.ReaderKeyExact`).
- `BufferedOutputStream::WriteFully` ignores the result of flushing before a large write. One pending byte
  and a write of 8193 bytes lose that byte while success is reported (`BufferedStream.LostByte`). Some sink
  makes this happen if and only if the write is larger than the buffer and something is pending
  (`BufferedStream.LossPossible`); given the answers of the sink, `BufferedStream.SilentLoss` says exactly
  when.
- `GetBinSizeSum` adds in `int`. Four bins that total 2^31 bytes are summed up wrongly
  (`ImageLimits.FullBins`). `BinLayout.SumExact` gives exactly the totals for which the sum is right.
- Calls without code and calls into another oat file are recorded as absolute although their words do
  not follow the base, so moving the file makes them wrong (`Relocation.CallWithoutCode`,
  `Relocation.CallIntoOtherOat`). Patching and moving commute if and only if there are no such words
  (`Relocation.PatchThenMove`, `Relocation.PatchBothWays`).
- Methods with equal code and tables share one header even if their frames differ, since the comparator
  does not look at frames. In `OatWriter.ForeignFrame` the second of two such methods finds the frame of the
  first in the written file. A method finds its own header if and only if its frame is that of the first
  method it shares code with (`OatWriter.MethodReadable`).
- Strings that share a place share one saved hash code: that of the last of them, in the order in which they
  got their slots, that had one (`ImageLayout.HashesAreKept`). In `ImageLimits.LoseHash` two hashed strings
  share, and one of them does not find its own. Every object finds its own hash code if and only if hashed
  strings that share had equal ones (`ImageLayout.OwnHashes`).
- The walk over the static fields of a class object takes count and offset from the class of that object,
  and the values from the object itself. So it can pass over a static field of the object's own class
  (`ImageLimits.PassedOverStatic`). All own static fields are followed, whatever they hold, if and only if
  their offsets are among those the walk looks at (`ImageLimits.StaticsReached`, `ImageLimits.PassOver`).
- A barrier that is set to a new count before a woken thread has left sends that thread back to sleep
  (`Barrier.ReuseTooEarly`). After any continuation the thread returns at its next step if and only if the
  count is then zero (`Barrier.ReturnsIfCountIsZero`).
- The layout comment in `compiler/oat_writer.h` lists the vmap tables before the mapping tables. The code
  writes GC maps, mapping tables, vmap tables, and the model follows the code.

## Model

| member | source | states |
|---|---|---|
| StringPacking.LowerBound | compiler/image_writer.cc:496-509 | The binary search over ranges of the array returns the lower bound of the key among the texts, although the key itself is text at the end of the array. |
| StringPacking.LowerBoundFindsExtension | compiler/image_writer.cc:556-571 | In an ascending set an extension of the key exists if and only if the lower bound is one. |
| StringPacking.AppendKeeps | compiler/image_writer.cc:552-555 | Characters appended behind the kept ranges change no text of the set, so its order stays valid. |
| StringPacking.InsertKeepsPrefixFree | compiler/image_writer.cc:581-583 | Keeping a shorter string that prefixes none of the set leaves the set prefix-free. |
| StringPacking.KeepStep | compiler/image_writer.cc:580-585 | Keeping the next string preserves the packing invariant: places read back, set ordered and prefix-free, array made of the kept strings. |
| StringPacking.ShareStep | compiler/image_writer.cc:572-579 | Dropping a string that prefixes the lower bound preserves the packing invariant. |
| StringPacking.FindPrefix | compiler/image_writer.cc:556-571 | The search finds the lower bound and reports a prefix exactly when the new string prefixes it; the length check cannot fail. |
| StringPacking.PlaceString | compiler/image_writer.cc:550-587 | One iteration keeps the invariant, and the saved characters are counted exactly for strings that strictly prefix another. |
| StringPacking.SharesStrictly | compiler/image_writer.cc:572-579 | The test for a strictly longer lower bound holds exactly when the string strictly prefixes some string. |
| StringPacking.PlacedIsMaximal | compiler/image_writer.cc:548-587 | A prefix-free choice that covers all strings consists of exactly the strings that strictly prefix no other. |
| StringPacking.PackedIsShared | compiler/image_writer.cc:548-587 | The invariant at the end: every string reads back at its offset, equal strings have one offset, and the array is the maximal strings, each stored once. |
| StringPacking.PackedSizeIndependentOfSort | compiler/image_writer.cc:539-541 | The size of the packed array does not depend on how the sort orders strings of equal length. |
| StringPacking.ProcessStrings | compiler/image_writer.cc:511-600 | For any strings and any sort by descending length the result is such a packing, for the strings in their original order, and the prefix savings are exact. |
| ImageSlots.PackIsSum | compiler/image_writer.cc:1274-1277 | Or-ing the shifted bin into an index of 29 bits is addition. |
| ImageSlots.SlotRoundTrip | compiler/image_writer.cc:1264-1285 | Bin and index survive the packing if and only if the index has at most 29 bits; aligned indices give aligned slots. |
| ImageSlots.ForwardRoundTrip | runtime/lock_word.h:91-126 | A forwarding lock word is recognised as one, and gives the address back if and only if it is a multiple of four. |
| ImageSlots.ForwardObject | runtime/lock_word-inl.h:41-44 | Addresses of objects are multiples of eight and are always given back. |
| ImageSlots.HashRoundTrip | runtime/lock_word.h:96-99 | A lock word holds a hash code if and only if it lies in the quarter of the words that begins at 2^31, and the hash code is what is left of it. |
| BinLayout.GetBinSizeSum | compiler/image_writer.cc:1259-1262 | The accumulation with an `int` start value is the sum reduced to `int` and converted back. |
| BinLayout.SumExact | compiler/image_writer.cc:1259-1262 | That is the true sum if and only if the total is below 2^31 or in the last 2^31 values of `size_t`. |
| BinLayout.SumIsBase | compiler/image_writer.cc:221-226 | The sum of the sizes of the earlier bins is where the bin begins once all items are known. |
| BinLayout.PlacesDisjoint | compiler/image_writer.cc:372-387 | Items given slots in any interleaving of bins never overlap once bins are laid end to end. |
| BinLayout.PlaceInside | compiler/image_writer.cc:372-387 | Every item is aligned and lies below the total. |
| BinLayout.Covered | compiler/image_writer.cc:372-387 | Every byte below the total belongs to an item: the packing is tight. |
| BinLayout.BaseIsTotal | compiler/image_writer.cc:384-386 | The bins together are exactly as large as all items, which is how far the image end has grown. |
| BinLayout.BinsInOrder | compiler/image_writer.cc:221-226 | An item of an earlier bin ends before any item of a later bin begins, in whatever order the two got their slots. |
| ImageHeap.SelectBin | compiler/image_writer.cc:326-370 | The choice of the bin, with its loop over static fields, is the one by kind, initialization and finality of all statics. |
| ImageLayout.SlotGood | compiler/image_writer.cc:372-387 | Bin and index of every slot given out are read back, in a heap whose bins have at most 2^29 bytes. |
| ImageLayout.AssignStep | compiler/image_writer.cc:372-387 | Giving an unassigned object its own slot keeps: assigned objects are exactly those whose owner has a slot, and their words hold it. |
| ImageLayout.ShareStep | compiler/image_writer.cc:739-747 | Pointing a string at the slot of its interned string keeps the same. |
| ImageLayout.ReadsBack | compiler/image_writer.cc:406-418 | The slot read from the word of an assigned object is the slot of the object that stands for it. |
| ImageLayout.BinsGiveGoodPlaces | compiler/image_writer.cc:221-231 | Offsets computed from slots are aligned, inside the image, pairwise separate, cover it, and follow the order of the bins. |
| ImageLayout.UnbinnedIsPlaced | compiler/image_writer.cc:881-891 | After the second pass every object has the offset of the object that stands for it. |
| ImageLayout.PlacedIsLaidOut | compiler/image_writer.cc:893-920 | So the final lock words are a layout: all objects in the image, no two overlapping, no gaps, bins in order. |
| ImageLayout.LaidOutIsSeated | compiler/image_writer.cc:282-287 | In a layout, every object that stands for itself is aligned and inside the image with all bytes of its own size, for a method of the size of methods on the target, and fewer than eight bytes behind it another object begins or the image ends. |
| ImageLayout.LaidOutMeans | compiler/image_writer.h:72-88 | So it holds of all of them; with their own sizes no two overlap, a string that stands for another is where that one is, and the groups follow each other: strings, managed methods, other objects, classes with final statics, initialized and verified classes, native methods, methods of uninitialized classes. |
| ImageLayout.HashesAreKept | compiler/image_writer.cc:198-219 | When every slot has been turned into an offset the map of saved hashes is empty, every object that had a hash finds one at its offset, no offset has two entries, and an entry is the hash of the last object at its offset that had one. |
| ImageLayout.LastHashedMoves | compiler/image_writer.cc:207-215 | The last hashed object at a slot is the last hashed object at the offset the slot is turned into. |
| ImageLayout.SlotsSpread | compiler/image_writer.cc:221-231 | Different slots are turned into different offsets. |
| ImageLayout.SameOffset | compiler/image_writer.cc:739-747 | In the finished layout two objects have one offset if and only if they stand for the same object. |
| ImageLayout.OwnHashes | compiler/image_writer.cc:264-272 | Every object finds its own hash code at its offset if and only if any two hashed strings that share had equal hash codes. |
| ImageLayout.EverythingClosed | compiler/image_writer.cc:831-867 | The objects of a valid heap are closed under everything the walk follows, so the walk never leaves the heap. |
| ImageLayout.SumIsExact | compiler/image_writer.cc:221-226 | In a heap that fits, the `int` sum over bin sizes is the base of the bin. |
| ImageLayout.ImageWriter.constructor | compiler/image_writer.cc:893-900 | A new writer has no slots, no saved hashes and an image of size zero. |
| ImageLayout.ImageWriter.SetImageBinSlot | compiler/image_writer.cc:248-278 | Only this word changes, to a forwarding word with the slot; a hash code, and only that, is saved under the slot, over any saved before. |
| ImageLayout.ImageWriter.TakeSlot | compiler/image_writer.cc:372-387 | The slot is the bin with its former size; bin and image grow by the size of the object, that of methods for a method, rounded up to a multiple of eight. |
| ImageLayout.ImageWriter.AssignImageBinSlot | compiler/image_writer.cc:280-387 | The object becomes the last owner; all invariants are kept and no other word changes. |
| ImageLayout.ImageWriter.CalculateObjectBinSlots | compiler/image_writer.cc:730-753 | The object ends assigned, as the last one to get a slot; nobody else does but its interned string, and the only new owner, if any, is the object itself or that string. |
| ImageLayout.ImageWriter.ShareSlot | compiler/image_writer.cc:745-747 | A string that is not interned gets the word of its interned string. |
| ImageLayout.ImageWriter.WalkInstanceFields | compiler/image_writer.cc:810-829 | Everything the fields of the class and all its superclasses refer to ends assigned, and the recursion terminates. |
| ImageLayout.ImageWriter.WalkRow | compiler/image_writer.cc:819-828 | Everything a row of reference fields refers to ends assigned; null fields are skipped. |
| ImageLayout.ImageWriter.WalkReference | compiler/image_writer.cc:822-825 | A reference that is not null ends assigned, and assigned objects keep their words. |
| ImageLayout.ImageWriter.WalkFieldsInOrder | compiler/image_writer.cc:831-867 | Terminates on every heap, cyclic or not. An unvisited object is the first new owner, before everything reached from it; everything the walk follows from it ends assigned, and nothing outside any closed set of objects that contains it does. |
| ImageLayout.ImageWriter.WalkReferents | compiler/image_writer.cc:842-865 | Instance fields, elements of an array and, for a class object, the static row described by the class of that object all end assigned, and nothing outside a closed set that contains them does. |
| ImageLayout.ImageWriter.WalkHeap | compiler/image_writer.cc:912-913 | After the first pass every object of the heap has a slot. |
| ImageLayout.ImageWriter.SetImageOffset | compiler/image_writer.cc:198-219 | Only this word changes, to the offset; a hash saved under the slot moves to the offset and leaves the map. |
| ImageLayout.ImageWriter.AssignImageOffset | compiler/image_writer.cc:221-231 | The offset is the begin of the objects plus the base of the bin plus the index. |
| ImageLayout.ImageWriter.UnbinObjectsIntoOffset | compiler/image_writer.cc:881-891 | One more object has its offset, and the accounts of saved hashes still balance. |
| ImageLayout.ImageWriter.UnbinHeap | compiler/image_writer.cc:914-916 | After the second pass the heap is laid out, no hash is left in the map, and each offset has at most one saved hash, that of the last hashed object there. |
| ImageLayout.ImageWriter.CalculateNewObjectOffsets | compiler/image_writer.cc:893-920 | For every heap that fits: every object aligned with all its own bytes in `[objectsBegin, imageEnd)`, distinct objects disjoint, fewer than eight bytes between them, groups in the order of the bins, sharing strings at one offset, one saved hash per offset that had any, and every object finds its own hash if and only if sharing strings had equal ones. |
| ImageLimits.StaticsReached | compiler/image_writer.cc:842-854 | In every heap: when the offsets of the own static fields are among those walked, everything they refer to is assigned after the walk of the class object. |
| ImageLimits.PassOver | compiler/image_writer.cc:842-854 | When one is not, then over any classes there is a heap, with the object of the class and references to it, in which the walk of the class object leaves it unassigned: the condition is exact. |
| ImageLimits.PassedOverStatic | compiler/image_writer.cc:844-848 | A class with one static field whose class has none, both derived from a class that has the class reference: the walk leaves what the static refers to unassigned. |
| ImageLimits.TwoStringsValid | compiler/image_writer.cc:739-747 | A heap with an interned and a sharing string, hashed differently, meets everything the layout asks for. |
| ImageLimits.LoseHash | compiler/image_writer.cc:264-272 | Laying it out leaves one of the two strings without its own hash code. |
| ImageLimits.FullBins | compiler/image_writer.cc:1259-1262 | Bins of 2^29 bytes each, 2^31 in all, are summed up to a wrong number. |
| Bytes.WordRoundTrip | compiler/elf_writer_quick.cc:1240-1246 | A word is read back from its four bytes. |
| Bytes.LeastFirst | compiler/elf_writer_quick.cc:1240-1246 | The least significant byte of a word comes first. |
| Bytes.RoundUpLeast | compiler/elf_writer_quick.cc:38-40 | Rounding up gives the least multiple that is not below the number. |
| Leb128.UnsignedRoundTrip | runtime/leb128.h:115-125 | Every number is decoded from its unsigned LEB128 bytes, whatever follows. |
| Leb128.SignedRoundTrip | runtime/leb128.h:127-138 | The same for signed numbers. |
| Leb128.PushBackUnsigned | runtime/leb128.h:151-160 | The loop appends the unsigned LEB128 encoding. |
| Leb128.PushBackSigned | runtime/leb128.h:169-179 | The loop appends the signed LEB128 encoding. |
| Leb128.WordDecodes | runtime/leb128.h:28-51 | The nested decoder of at most five bytes reads back every 32-bit number. |
| Leb128.IntDecodes | runtime/leb128.h:64-96 | The nested decoder of at most five bytes reads back every signed 32-bit number. |
| SrcMaps.PackedOrder | compiler/compiled_method.h:106-121 | Comparing the 64-bit packings compares the dex pc first and the native pc second, and packings are equal only for equal elements. |
| SrcMaps.SrcMap.Arrange | compiler/compiled_method.h:156-163 | The table becomes strictly increasing and keeps its elements. |
| SrcMaps.ArrangedUnique | compiler/compiled_method.h:156-163 | The arranged table is determined by its elements, so the order of the sort has no influence. |
| SrcMaps.Unique | compiler/compiled_method.h:159 | Removing neighbours that repeat turns a sorted vector into a strictly increasing one with the same elements. |
| SrcMaps.SrcMap.FindByTo | compiler/compiled_method.h:152-154 | The lower bound separates elements with smaller dex pcs from the others. |
| SrcMaps.KeptIsBelow | compiler/compiled_method.h:173-180 | Of a table sorted by native pc exactly the elements at or past the limit are dropped, save the first. |
| SrcMaps.SrcMap.DropHighest | compiler/compiled_method.h:173-180 | The loop from the back leaves exactly the kept elements. |
| SrcMaps.SrcMap.ToDeltas | compiler/compiled_method.h:182-188 | The in-place loop leaves the difference of every element and its original predecessor. |
| SrcMaps.SrcMap.DeltaFormat | compiler/compiled_method.h:165-190 | The table becomes the deltas of its kept elements in pc order, provided each line difference fits 32 bits. |
| SrcMaps.PlainLinesFit | compiler/compiled_method.h:182-188 | Non-negative lines always differ by a 32-bit number. |
| SrcMaps.DeltasAccumulate | compiler/compiled_method.h:182-188 | Adding up the first deltas leads back to the original element. |
| JavaLines.NextOf | compiler/elf_writer_quick.cc:1300-1349 | Every encoded operation but a set-file operation is read as the dex format means it. |
| JavaLines.SpecialMoves | compiler/elf_writer_quick.cc:1337-1340 | For every advance a and line step d from -4 to 10, the opcode 10 + (d + 4) + 15a moves the dex pc by a and the line by d, in what the operations define and in what is read from the bytes. |
| JavaLines.SpecialIs | compiler/elf_writer_quick.cc:1337-1340 | Every opcode from 10 on is such an opcode. |
| JavaLines.ScanIsExact | compiler/elf_writer_quick.cc:1300-1349 | The scan of encoded operations finds exactly the positions they define. |
| JavaLines.StreamIsExact | compiler/elf_writer_quick.cc:1291-1349 | The same for whole streams with starting line and parameter names. |
| JavaLines.SetFileMisread | compiler/elf_writer_quick.cc:1332-1335 | The operand of a set-file operation is read as operations. |
| JavaLines.SetFileUnnoticed | compiler/elf_writer_quick.cc:1332-1335 | This changes nothing in any stream if and only if the operand is 7, 8 or 9. |
| JavaLines.RunIsEntries | compiler/elf_writer_quick.cc:1342-1346 | The run from the lower bound on is all elements of that dex pc. |
| JavaLines.AppendLines | compiler/elf_writer_quick.cc:1342-1346 | The lookup loop appends one line for every native pc mapped to the position. |
| JavaLines.ReadOp | compiler/elf_writer_quick.cc:1300-1349 | One iteration leaves the lines found plus those still to come unchanged, and consumes bytes. |
| JavaLines.GetLineInfoForJava | compiler/elf_writer_quick.cc:1285-1350 | The lines appended are the join of the positions of the stream with the pc table; none without a stream. |
| JavaLines.LineMapIsJoin | compiler/elf_writer_quick.cc:1285-1350 | For encoded streams without misread set-file operations this is the join with the positions the operations define. |
| JavaLines.JoinHas | compiler/elf_writer_quick.cc:1342-1346 | The join has a line if and only if some position and some table element for its dex pc give that line, a line from 2^31 on as its negative counterpart. |
| JavaLines.JoinCounts | compiler/elf_writer_quick.cc:1342-1346 | The join has a line as often as there are pairs of a position and a table element that give it. |
| DwarfLine.AppendsMore | compiler/elf_writer_quick.cc:1197-1282 | Bytes whose effect is known compose: rows concatenate and registers carry over. |
| DwarfLine.AppendsAll | compiler/elf_writer_quick.cc:1197-1282 | Running a finished program yields exactly the rows its pieces append. |
| LineProgram.EncodeDelta | compiler/elf_writer_quick.cc:1206-1233 | One special opcode if it fits, else standard opcodes without empty advances, then a copy. |
| LineProgram.DeltaAppends | compiler/elf_writer_quick.cc:1206-1233 | Unless the opcode wraps, the bytes append exactly the row of the next entry from any registers. |
| LineProgram.DeltaExact | compiler/elf_writer_quick.cc:1210-1217 | The bytes mean the entry if and only if the opcode does not wrap around. |
| LineProgram.WrappingEntry | compiler/elf_writer_quick.cc:1210-1217 | A delta of 306783378 bytes within a line is written as opcode 14 and read as a wrong row. |
| LineProgram.SmallDeltasDoNotWrap | compiler/elf_writer_quick.cc:1210-1217 | Deltas below 2^32/14 never wrap. |
| LineProgram.LineTableGenerator.constructor | compiler/elf_writer_quick.cc:1199-1204 | The generator starts like the reader. |
| LineProgram.LineTableGenerator.PutDelta | compiler/elf_writer_quick.cc:1206-1233 | The bytes of the entry are appended and the registers and rows meant go on. Read exactly so far, they still are unless the opcode wraps; a wrapped opcode that appends a row makes the program wrong for good, and so does any entry after a line that was off. |
| LineProgram.LineTableGenerator.SetAddr | compiler/elf_writer_quick.cc:1235-1246 | The address meant becomes the given one, without a row, and the fate of the program stays. |
| LineProgram.LineTableGenerator.SetLine | compiler/elf_writer_quick.cc:1248-1255 | The line meant becomes the given one, without a row. The reader follows if and only if the difference fits an `int`, in which it is stored; otherwise its line is off. |
| LineProgram.LineTableGenerator.SetFile | compiler/elf_writer_quick.cc:1257-1263 | The file meant becomes the given one, without a row, and the fate of the program stays. |
| LineProgram.LineTableGenerator.EndSequence | compiler/elf_writer_quick.cc:1265-1271 | If the fate is exact, running all bytes yields all rows and the end-of-sequence row; if it is wrong, it yields no table that begins with the rows meant. |
| LineProgram.CollectFiles | compiler/elf_writer_quick.cc:1510-1526 | Every file name used has an entry, no entry is repeated; names are compared by address, as the map of the source does. |
| LineProgram.PutEntries | compiler/elf_writer_quick.cc:1560-1562 | The deltas of a method add its entries as the rows meant, moved by the text offset, and the fate is that of the entries in order. |
| LineProgram.PutMethod | compiler/elf_writer_quick.cc:1553-1564 | A method adds exactly its kept lines in pc order to the rows meant; an empty map adds nothing. |
| LineProgram.GenerateLineProgram | compiler/elf_writer_quick.cc:1531-1569 | If the fate of the methods is exact, the program run on the state machine yields, method by method, exactly the kept lines in pc order, then an end row at the highest pc. If it is wrong, it yields no table that begins with these lines. |
| LineProgram.HighestIsHighest | compiler/elf_writer_quick.cc:1543-1567 | The highest pc is at least that of every method, and that of one of them if there are methods. |
| LineProgram.DeltaSpoils | compiler/elf_writer_quick.cc:1206-1233 | An entry read from a wrong line, or written as a wrapped opcode that appends a row, leaves a wrong row in the table, whatever follows. |
| LineProgram.ProgramExact | compiler/elf_writer_quick.cc:1206-1255 | The fate is exact if and only if no opcode of any method wraps around and every step back to line 1 fits an `int`; it is open only if some opcode wraps around to one that appends no row. |
| LineProgram.ProgramRightIffPlain | compiler/elf_writer_quick.cc:1531-1569 | So, without such opcodes, the reader gets the expected rows if and only if these conditions hold, which can be checked beforehand. |
| DebugLines.FindLines | compiler/elf_writer_quick.cc:1553-1554 | The lines of a method are those of its debug stream at the mapped native pcs. |
| DebugLines.FillInLineTable | compiler/elf_writer_quick.cc:1531-1569 | From debug streams and pc tables to bytes: with an exact fate the rows of the program are the joined lines of every method, with a wrong one they are not. |
| Streams.Overwrite | compiler/buffered_output_stream.cc:37-39 | A write changes exactly the bytes it covers; a gap before it reads as zeros. |
| Streams.OverwriteTwice | compiler/buffered_output_stream.cc:31-40 | Two writes in a row are one write of both pieces. |
| BufferedStream.BufferedOutputStream.constructor | compiler/buffered_output_stream.cc:23-24 | A new buffered stream stands for its sink. |
| BufferedStream.BufferedOutputStream.WriteFully | compiler/buffered_output_stream.cc:26-41 | On sink plus pending bytes every write, large or small, acts like an unbuffered write. |
| BufferedStream.BufferedOutputStream.Flush | compiler/buffered_output_stream.cc:43-50 | The abstract contents are unchanged and equal the sink, and the buffer is empty. |
| BufferedStream.BufferedOutputStream.Seek | compiler/buffered_output_stream.cc:52-57 | Returns the new position, or -1 and stays for a position before the begin; either way the buffer is empty and the sink is what the unbuffered run leaves. |
| BufferedStream.BufferedOutputStream.Run | compiler/buffered_output_stream.cc:26-57 | Any sequence of writes and seeks is the unbuffered sequence; after a final seek the sinks are identical. |
| BufferedStream.SilentLoss | compiler/buffered_output_stream.cc:26-36 | With failing writes, a reported success lost bytes if and only if a large write followed a failed flush of pending bytes. |
| BufferedStream.LossPossible | compiler/buffered_output_stream.cc:26-41 | Some answers of the sink make a write lose bytes and report success if and only if it is larger than the buffer and bytes are pending. |
| BufferedStream.LostByte | compiler/buffered_output_stream.cc:31-36 | One pending byte, a refused flush and 8193 bytes taken: the byte is gone and success is reported. |
| Chunks.ChunksDisjoint | compiler/oat_writer.cc:742-757 | Chunks laid out in order are aligned and disjoint. |
| Chunks.LayOut | compiler/oat_writer.cc:742-757 | Offsets, end, and the bytes spent on alignment account for everything. |
| Chunks.WriteChunks | compiler/oat_writer.cc:957-973 | Seeking to each stored offset and writing puts every chunk in place, touches nothing else, and the bytes counted per chunk are all of them. |
| Chunks.WriteAligned | compiler/oat_writer.cc:1023-1037 | A loop that knows no offsets, but rounds up its own position, seeks by the padding and adds up padding and sizes, puts every chunk where the layout has it. |
| OatMaps.PlacesDisjoint | compiler/oat_writer.cc:476-502 | Distinct tables never overlap. |
| OatMaps.FirstByOffset | compiler/oat_writer.cc:636-665 | The promised offset is never past the position, and equals it exactly at the first occurrence of the table. |
| OatMaps.SameTableSameOffset | compiler/oat_writer.cc:488-497 | Methods with one table are promised one offset. |
| OatMaps.InitMap | compiler/oat_writer.cc:476-502 | One visit gives the promised offset and keeps the dedupe map exact. |
| OatMaps.InitMaps | compiler/oat_writer.cc:476-502 | All visits get their promised offsets. |
| OatMaps.WriteMap | compiler/oat_writer.cc:636-665 | One visit writes the table at a first occurrence and nothing otherwise. |
| OatMaps.WriteMaps | compiler/oat_writer.cc:636-665 | The pass writes each table once and ends where the init pass ended. |
| OatMaps.WrittenAtOffset | compiler/oat_writer.cc:636-665 | Every table that is not empty stands at the offset promised to the method. |
| OatCode.KeyOrder | compiler/oat_writer.h:312-329 | The comparator is a strict order whose equivalence is equality of all four pointers. |
| OatCode.StoredRecovered | compiler/oat_writer.cc:141-156 | An offset stored as 0 minus offset is read back while the code offset is 0. |
| OatCode.OffsetRecovered | compiler/oat_writer.cc:141-205 | Shifted by the code offset it is read back if and only if it is 0 or not the start of the code. |
| OatCode.CodePlaceEven | compiler/oat_writer.cc:356-362 | Code starts at an even offset. |
| OatCode.FirstByCodeOffset | compiler/oat_writer.cc:586-607 | The promised code offset is at or past the aligned position exactly at the first occurrence, where it is behind alignment and header. |
| OatCode.OddAlignmentMisleads | compiler/oat_writer.cc:586-607 | With an odd alignment the test takes a duplicate for a first occurrence, so even alignments are needed. |
| OatCode.InitCodeVisit | compiler/oat_writer.cc:337-409 | One visit gives the promised code offset; the position is aligned even for a duplicate. |
| OatCode.InitCode | compiler/oat_writer.cc:337-461 | All visits get their code offsets. |
| OatCode.WriteCodeVisit | compiler/oat_writer.cc:555-614 | One visit writes padding, and header and code at a first occurrence; counters account for every byte. |
| OatCode.WriteCode | compiler/oat_writer.cc:555-614 | The pass puts header and code of every deduplicated method in place and ends where the init pass ended. |
| OatWriter.TableWordAt | compiler/oat_writer.cc:1253-1258 | A word of a written table is found at its index. |
| OatWriter.CodeOffsetFound | compiler/oat_writer.cc:1134-1212 | The code offset of every compiled method is found at its slot of the written class, whichever methods are compiled. |
| OatWriter.InitTables | compiler/oat_writer.cc:730-779 | Dex file table, dex files and classes are laid out in order; alignment bytes are counted. |
| OatWriter.InitOatMaps | compiler/oat_writer.cc:781-797 | GC maps, mapping tables and vmap tables are laid out one kind after the other. |
| OatWriter.InitOatCode | compiler/oat_writer.cc:846-863 | Code offsets and method headers of all methods are the promised ones. |
| OatWriter.Init | compiler/oat_writer.cc:98-127 | The init pass computes the layout of the whole file. |
| OatWriter.MarksOrdered | compiler/oat_writer.cc:98-127 | The parts of the file follow each other. |
| OatWriter.TableOffsetRecovered | compiler/oat_writer.cc:375-402 | A table offset before the code is read back from the final header, with or without quick code. |
| OatWriter.HeaderRecovers | compiler/oat_writer.cc:375-402 | All three table offsets of every method are read back from its header. |
| OatWriter.TablesBeforeCode | compiler/oat_writer.cc:781-863 | All tables lie before the code, as the recovery needs. |
| OatWriter.TableRecords | compiler/oat_writer.cc:1073-1132 | The records of the dex file table have the sizes the init pass counted on; what is read from them is `OatFile.ReadDexFile`. |
| OatWriter.ClassRecords | compiler/oat_writer.cc:1134-1260 | The records of the classes have the sizes the init pass counted on. |
| OatWriter.WriteTables | compiler/oat_writer.cc:950-981 | Tables, dex files and classes are in place, and the counters account for every byte. |
| OatWriter.ReadOffsets | compiler/oat_writer.cc:644-645 | The offsets the write pass reads from headers and code offsets are the promised ones. |
| OatWriter.WriteOatMaps | compiler/oat_writer.cc:983-1008 | All maps are in place, and the counters account for every byte. |
| OatWriter.WriteTrampolines | compiler/oat_writer.cc:1010-1052 | Trampolines end up where the init pass laid them out, although the write pass recomputes their alignment; padding and sizes added up one by one fill the part. |
| OatWriter.WriteOatCode | compiler/oat_writer.cc:1010-1071 | Trampolines, headers and code are in place, and the counters account for every byte. |
| OatWriter.Write | compiler/oat_writer.cc:865-948 | Everything stands where the init pass promised, exactly the promised number of bytes is written, the counters sum to it, nothing outside changes, and the closing seek leaves nothing in the buffer. |
| OatWriter.FileStays | compiler/oat_writer.cc:865-948 | A written oat file survives whatever is written before or behind it. |
| OatWriter.ExecOnPage | compiler/oat_writer.cc:800-807 | The executable part begins on a page boundary of the oat file. |
| OatWriter.CodeIsAligned | compiler/oat_writer.cc:337-409 | The executable part begins at a page, trampolines and method headers at multiples of the alignment of the instruction set, and a method without quick code has the code offset zero. |
| OatWriter.SharedCode | compiler/oat_writer.h:312-329 | Methods equal under the comparator have one code offset and the same table offsets; their headers agree if and only if their frames do. |
| OatWriter.CodeReadable | compiler/oat_writer.cc:355-373 | Around a code offset lie the code and, before it, the header of a method with the same key. |
| OatWriter.MethodReadable | compiler/oat_writer.cc:865-948 | In the written file every quick method finds its code at its code offset, and before it the header of the first method with the same key, which is its own if and only if the two frames are equal. |
| OatWriter.ForeignFrame | compiler/oat_writer.h:312-329 | Of two methods with one key and different frames the second finds, in any written file, the frame of the first. |
| OatWriter.HeaderReaches | compiler/oat_writer.cc:141-205 | The header found there leads to the method's own GC map, mapping table and vmap table, also for a duplicate. |
| OatReader.HeaderReadsBack | runtime/oat_file-inl.h:24-31 | A method header is read back from the bytes before the code. |
| OatReader.HeaderFinds | runtime/mirror/art_method-inl.h:258-267 | Seen from the code, the three offsets in the header lead back to the tables of the method, and an offset is zero for an empty table. |
| OatReader.FrameReads | compiler/oat_writer.cc:337-409 | The frame in front of the code of a method is that of the first visited method with the same code and tables. |
| OatReader.BitReads | runtime/base/bit_vector.h:216-218 | The bit of a method in the written bitmap is set if and only if it is compiled. |
| OatReader.StatusReads | runtime/oat_file.cc:465-477 | The status of a class is read from its record. |
| OatReader.NumSetBits | runtime/base/bit_vector.cc:279-291 | The set bits before a method count the compiled methods before it. |
| OatReader.GetOatMethodOffsets | runtime/oat_file.cc:550-570 | From type and bitmap of a written class record the reader finds the slot of a method if and only if it is compiled, for classes with all, some and no methods compiled. |
| OatReader.SlotReadsBack | compiler/oat_writer.cc:1134-1212 | The word in that slot is the code offset of the method. |
| OatReader.EveryMethodReads | compiler/oat_writer.cc:865-948 | In the written file, the slot of every compiled method leads to its code, and the header in front of the code gives the length of the code and leads to the three tables of the method. |
| OatReader.GetOatMethod | runtime/oat_file.cc:572-586 | Reading a method of any class of the oat file, also inside the ELF file: it is found if and only if it is compiled, with its own code, code size and tables. |
| OatReader.ClassFound | runtime/oat_file.cc:465-508 | In an oat file every class record reads as its class: its status, no slot for methods that are not compiled, a zero for those without quick code, and code and tables for the others. |
| OatFile.EntryFields | compiler/oat_writer.cc:1101-1132 | The five fields of a record of the dex file table, each read at its place. |
| OatFile.ReadDexFile | runtime/oat_file.cc:256-331 | One record of the table is accepted if and only if the dex file has a name and begins with the magic number; then location, checksum and dex file offset are those written, and the class offsets are found behind them. |
| OatFile.ClassAt | compiler/oat_writer.cc:730-779 | The classes are visited one dex file after the other. |
| OatFile.ClassFoundAt | runtime/oat_file.cc:461-508 | The class offset with number k of a dex file leads to the record of its class k, with all its methods. |
| OatFile.Setup | runtime/oat_file.cc:232-340 | Opening a written oat file, also inside the ELF file, succeeds if and only if every dex file has a name and begins with the magic number. Then every dex file is found with its name, its checksum and, at a multiple of four, its bytes, and every class offset leads to the record of its class. |
| ElfHashFunction.FoldIsStandard | compiler/elf_writer_quick.cc:758-761 | One step with unconditional xor is the step of the System V ABI, and the top four bits end up clear. |
| ElfHashFunction.HashIsStandard | compiler/elf_writer_quick.cc:753-764 | The hash of every name is the standard one. |
| ElfHashFunction.ComputeHash | compiler/elf_writer_quick.cc:753-764 | The loop computes that hash. |
| ElfHash.LinksIncrease | compiler/elf_writer_quick.cc:829-843 | Chain links strictly increase and stay in the bucket. |
| ElfHash.OpenBucket | compiler/elf_writer_quick.cc:829-830 | The first symbol of a bucket keeps the index correct. |
| ElfHash.ExtendChain | compiler/elf_writer_quick.cc:831-843 | A symbol behind the last one of its bucket keeps the index correct. |
| ElfHash.ChainEnd | compiler/elf_writer_quick.cc:832-837 | Following the chain terminates at the last symbol of the bucket. |
| ElfHash.Enter | compiler/elf_writer_quick.cc:824-844 | One more symbol is linked in, and every cell is still used once. |
| ElfHash.ExactlyOnce | compiler/elf_writer_quick.cc:796-797 | Over buckets and chain every symbol index occurs exactly once and 0 exactly once more than there are buckets. |
| ElfHash.GenerateHashContents | compiler/elf_writer_quick.cc:799-847 | For any symbols, with repeated names too, bucket count, chain length, buckets and chain form such an index. |
| ElfHash.JumpsAlongBucket | compiler/elf_writer_quick.cc:785-794 | A first-match scan over all symbols may skip to the next symbol of the bucket. |
| ElfHash.FollowChain | runtime/elf_file.cc:794-812 | Following the chain returns the first match. |
| ElfHash.GetSym | runtime/elf_file.cc:786-813 | For every name the lookup terminates with the symbol a first-match linear scan finds, or 0. |
| ElfFormat.ShdrPlaced | compiler/elf_writer_quick.cc:629-635 | A section header is read back where its bytes are. |
| ElfFormat.ShdrStays | compiler/elf_stripper.cc:101-104 | Changes elsewhere in the file leave a section header as it is. |
| ElfLayout.PiecesDisjoint | compiler/elf_writer_quick.cc:143-151 | Pieces in file order are pairwise disjoint. |
| ElfLayout.ExecInside | compiler/elf_writer_quick.cc:1064-1066 | The size of `.text`, a 32-bit difference, does not wrap: the executable part begins inside the oat file. |
| ElfLayout.WritesDisjoint | compiler/elf_writer_quick.cc:104-133 | Although the write for `.rodata` goes on to the end of `.text`, the stretches written for the pieces are disjoint. |
| ElfLayout.OatStays | compiler/elf_writer_quick.cc:99-133 | The oat file in two sections survives writes beside it. |
| ElfLayout.PieceStays | compiler/elf_writer_quick.cc:143-151 | A piece, oat data included, survives writes beside it. |
| ElfLayout.PlacedMore | compiler/elf_writer_quick.cc:143-151 | Writing one more piece leaves those already there in place. |
| ElfLayout.WriteData | compiler/elf_writer_quick.cc:99-133 | Bytes in memory are written at the position. The oat data is written by the oat writer through a buffered stream whose bytes all reach the file, and runs exactly to the end of `.text`. The text section writes nothing. |
| ElfLayout.WritePiece | compiler/elf_writer_quick.cc:50-58 | One piece ends up in place besides those already there; the `.text` piece writes nothing. |
| ElfLayout.WriteOutFile | compiler/elf_writer_quick.cc:143-151 | In whatever order the pieces are listed, in the end all are in place, the whole oat file over `.rodata` and `.text` among them. |
| ElfBuilder.AssignNames | compiler/elf_writer_quick.cc:741-750 | Every name is put at the end of the table, closed by a zero. |
| ElfBuilder.NameReadsBack | compiler/elf_writer_quick.cc:741-750 | The string at a section's name offset is its name. |
| ElfBuilder.LayoutOk | compiler/elf_writer_quick.cc:389-432 | All offsets are aligned, neighbours do not overlap and none reaches the section headers. |
| ElfBuilder.RodataThenText | compiler/elf_writer_quick.cc:413-425 | `.text` begins exactly where `.rodata` ends. |
| ElfBuilder.OatDataOnPages | compiler/elf_writer_quick.cc:1064-1071 | The size of `.rodata`, which is where the executable part of the oat file begins, is a number of whole pages. |
| ElfBuilder.OatAmongPieces | compiler/elf_writer_quick.cc:1064-1071 | The two oat sections are neighbours among all pieces, the second right behind the first. |
| ElfBuilder.BuildHeaders | compiler/elf_writer_quick.cc:340-432 | The null header, then one header for every section with its name, offset, size and link, at its section index. |
| ElfBuilder.EhdrReadsBack | compiler/elf_writer_quick.cc:600-605 | The three fields of the file header that locate the section headers are read back. |
| ElfBuilder.PiecesAscend | compiler/elf_writer_quick.cc:498-553 | File header, program headers, sections and section headers are disjoint, for any number and size of extra sections. |
| ElfBuilder.OrderComplete | compiler/elf_writer_quick.cc:607-641 | The order in which pieces are pushed has every piece and nothing else, with or without debug symbols. |
| ElfBuilder.LayOutSections | compiler/elf_writer_quick.cc:347-553 | Names and offsets of all sections, the name table last, headers behind. |
| ElfBuilder.PiecesAreFile | compiler/elf_writer_quick.cc:607-641 | When all pieces are in place a reader finds the sections and headers through the file header. |
| ElfBuilder.WriteFile | compiler/elf_writer_quick.cc:607-652 | The pieces as pushed produce that file. |
| ElfBuilder.Build | compiler/elf_writer_quick.cc:452-652 | The file has every section at its aligned offset and headers that describe them; `.text` begins where the executable part of the oat file does, and the oat file stands there as the oat writer promises. |
| ElfBuilder.BuiltIsWellFormed | compiler/elf_stripper.cc:70-100 | The written file meets everything the stripper needs, and its parsed headers are the ones built. |
| ElfBuilder.NameFound | compiler/elf_stripper.cc:75-80 | The stripper finds a name in the written name table through two section headers. |
| ElfBuilder.SectionNamed | compiler/elf_stripper.cc:75-80 | In a built file the stripper reads, for every section, the name it was given, unless that contains a zero. |
| ElfBuilder.KeepsByName | compiler/elf_stripper.cc:81-94 | The stripper keeps the null section and exactly the sections that were not named `.debug*`, `.strtab` or `.symtab`. |
| ElfBuilder.StripsByName | compiler/elf_stripper.cc:75-100 | So what remains of a built file are the headers of exactly these sections, in order. |
| ElfBuilder.StripBuilt | compiler/elf_stripper.cc:70-135 | Stripping a built file gives the stripped file of exactly these sections. |
| ElfStripper.SectionsInOrder | compiler/elf_stripper.cc:98-101 | Sections whose neighbours are in order are pairwise in order and disjoint. |
| ElfStripper.KeptInOrder | compiler/elf_stripper.cc:77-94 | Leaving out sections keeps the order. |
| ElfStripper.MovesDown | compiler/elf_stripper.cc:101-120 | Every kept section moves down or stays, to an aligned place. |
| ElfStripper.StillParses | compiler/elf_stripper.cc:101-105 | Section headers read during the compaction are still the original ones. |
| ElfStripper.Select | compiler/elf_stripper.cc:75-96 | Exactly the sections other than `.debug*`, `.strtab` and `.symtab` are kept, in order. |
| ElfStripper.SelectionReady | compiler/elf_stripper.cc:77-100 | What is selected from a well-formed file can be compacted. |
| ElfStripper.MoveBytes | compiler/elf_stripper.cc:114-117 | Overlapping bytes arrive as they were, and nothing else changes. |
| ElfStripper.MoveStep | compiler/elf_stripper.cc:106-119 | Moving one more section leaves those already moved in place and those behind untouched. |
| ElfStripper.MoveSection | compiler/elf_stripper.cc:106-119 | A section is aligned and moved unless it is in place already. |
| ElfStripper.CompactOne | compiler/elf_stripper.cc:101-120 | One turn of the loop keeps the compaction invariant, headers included. |
| ElfStripper.Compact | compiler/elf_stripper.cc:98-120 | The kept sections lie one behind the other with their original bytes, and their headers have the new offsets. |
| ElfStripper.EndsEarly | compiler/elf_stripper.cc:122-125 | The compaction never reaches the old section headers. |
| ElfStripper.WriteHeaders | compiler/elf_stripper.cc:122-128 | The new header table and the two fields of the file header are written, nothing before it changes otherwise. |
| ElfStripper.Strip | compiler/elf_stripper.cc:70-135 | The result is the file with only the kept sections: their bytes, headers with new offsets behind them, and everything before the sections as it was. |
| ElfStripper.StrippedAtLast | compiler/elf_stripper.cc:122-129 | Compaction, headers and truncation together give that file. |
| ElfStripper.StrippedInOrder | compiler/elf_stripper.cc:101-125 | In the stripped file sections are aligned, disjoint, not moved up, and lie before the headers. |
| GcMap.KeyWidthFits | compiler/gc_map_builder.h:32-34 | The width is the least number of bytes that holds every offset up to the maximum. |
| GcMap.HeaderRoundTrip | compiler/gc_map_builder.h:38-45 | The reader gets all three numbers back if and only if they pass the builder's checks. |
| GcMap.InsertKeeps | compiler/gc_map_builder.h:48-57 | Filling the first free slot after the home keeps every entry reachable from its home. |
| GcMap.EncodesMore | compiler/gc_map_builder.h:73-83 | Writing one entry leaves the bytes of all others alone. |
| GcMap.GcMapBuilder.constructor | compiler/gc_map_builder.h:29-46 | An empty table of the right size whose header the reader understands. |
| GcMap.GcMapBuilder.SetCodeOffset | compiler/gc_map_builder.h:73-78 | The loop writes the bytes of the key and nothing else. |
| GcMap.GcMapBuilder.SetReferences | compiler/gc_map_builder.h:80-83 | The bitmap is written behind the key and nothing else changes. |
| GcMap.GcMapBuilder.FreeSlot | compiler/gc_map_builder.h:49-52 | With room left the probing terminates at a free slot, past used slots only. |
| GcMap.GcMapBuilder.AddEntry | compiler/gc_map_builder.h:48-57 | A new offset takes a free slot, all other entries stay, and bytes and slots agree. |
| GcMap.CreateNativeGcMap | compiler/dex/quick/codegen_util.cc:762-786 | For any distinct safepoints every addition succeeds and the finished table lists them all. |
| GcMap.ReaderKeyExact | runtime/gc_map.h:46-53 | The reader decodes the offset if and only if it is below 2^31 or pointers have 32 bits. |
| GcMap.GetNativePcOffset | runtime/gc_map.h:46-53 | The loop decodes the key of an entry. |
| GcMap.FindBitMap | runtime/gc_map.h:66-76 | For an offset that was added the search terminates at its own bitmap, for every hash function. |
| GcMap.StopsAtTarget | runtime/gc_map.h:66-76 | No entry on the way from the home has the same key. |
| GcMap.NeverFound | runtime/gc_map.h:46-53 | With 64-bit pointers no entry matches an offset from 2^31 on. |
| Barrier.StepKeepsAwake | runtime/barrier.cc:79-84 | Every step keeps: when the count is zero nobody is asleep. |
| Barrier.NobodySleeps | runtime/barrier.cc:30-58 | This holds after every run, of any calls in any interleaving, with spurious wake-ups. |
| Barrier.RoundInvariant | runtime/barrier.cc:30-58 | In a round of `k` arrivals and one increment by `k`, in any interleaving, count and sleepers match the arrivals so far. |
| Barrier.ReturnsAfterAll | runtime/barrier.cc:44-58 | A call that has returned did so after all `k` arrivals and the increment. |
| Barrier.NobodyLeftBehind | runtime/barrier.cc:44-58 | After all have come nobody is asleep, and a woken thread returns at its next step. |
| Barrier.WokenStaysWoken | runtime/barrier.cc:55-57 | A woken thread stays woken through any further run in which it does not take a step itself. |
| Barrier.ResumesReturn | runtime/barrier.cc:44-58 | With the count at zero, over any run of threads resuming, a thread has returned at the end if and only if it had before or took a step. |
| Barrier.EveryoneReturns | runtime/barrier.cc:44-58 | After a complete round of `k` arrivals and the increment, in any interleaving and any continuation of resuming threads, exactly those that took a step have returned and nobody is held back. |
| Barrier.CountIs | runtime/barrier.cc:26-58 | After every run the count is the last one set, less the passes and waits and plus the increments since. |
| Barrier.ReturnsIfCountIsZero | runtime/barrier.h:47-51 | After any continuation, reuse included, a woken thread returns at its next step if the count is then zero and falls asleep again otherwise. |
| Barrier.LatchInvariant | runtime/barrier.cc:30-58 | The same accounting for a latch initialised with a count. |
| Barrier.LatchOpensAtLast | runtime/barrier.cc:30-58 | A waiter at a latch returns only after all arrivals, and then nobody is asleep. |
| Barrier.ReuseTooEarly | runtime/barrier.h:47-51 | Setting a new count before a woken thread has left sends it back to sleep. |
| Relocation.RelativeIgnoresBase | compiler/elf_patcher.cc:230-247 | The base cancels out of every relative call, through a trampoline or not. |
| Relocation.ValueMoves | compiler/elf_patcher.cc:229-271 | A word follows the base if and only if it is an image address or an absolute call with code in this oat file. |
| Relocation.ValueMeans | compiler/elf_patcher.cc:229-271 | The word of a call with code is the code offset past the base of its target; of a relative call, the distance from behind the caller to the callee or to the moved trampoline; of an image reference, the offset past the base of the image; all modulo 2^32. |
| Relocation.ElfPatcher.constructor | compiler/elf_patcher.cc:125-130 | A new patcher has recorded nothing. |
| Relocation.ElfPatcher.AddPatch | compiler/elf_patcher.cc:125-130 | A location is recorded once, and only when patches are written. |
| Relocation.ElfPatcher.SetPatchLocation | compiler/elf_patcher.cc:143-188 | The word is written, no other byte changes, and it is recorded unless it is relative. |
| Relocation.PatchStep | compiler/elf_patcher.cc:206-271 | One more patch keeps: every patched word has the value of its last patch, and other bytes are untouched. |
| Relocation.PatchedMeans | compiler/elf_patcher.cc:206-271 | So every patched word says this of its last patch, and every byte of no patch is as before. |
| Relocation.ElfPatcher.PatchElf | compiler/elf_patcher.cc:190-271 | Every patched word of the text says what its last patch demands of it for the base, as `Relocation.ValueMeans` puts it; other bytes are as before, and exactly the locations of patches that are not relative are recorded. |
| Relocation.PatchTextSection | patchoat/patchoat.cc:762-778 | Every recorded word has the delta added once, modulo 2^32, and other bytes are untouched. |
| Relocation.ShiftStep | patchoat/patchoat.cc:771-776 | One more word keeps this. |
| Relocation.RecordedAreValid | compiler/elf_patcher.cc:182-187 | What the patcher records is disjoint and in range, as patchoat needs. |
| Relocation.WordsCompared | patchoat/patchoat.cc:771-776 | A word after both passes equals the word for the moved base if and only if the delta is 0 or it is recorded exactly if it follows the base. |
| Relocation.PatchThenMove | compiler/elf_patcher.cc:206-271 | Patching for a base and adding the delta gives the bytes of patching for the moved base if and only if the delta is 0 modulo 2^32 or that holds for all patched words. |
| Relocation.CompilerPatchesAreSound | compiler/elf_patcher.cc:206-271 | It holds for patches whose absolute calls have code in this oat file and whose words are not patched both absolutely and relatively. |
| Relocation.StayingCallIsMoved | compiler/elf_patcher.cc:212-252 | Wherever the last patch of a word is a call without code or into another oat file, the moved text is wrong. |
| Relocation.PatchBothWays | patchoat/patchoat.cc:762-778 | Patcher and patchoat one after the other, against the patcher for the moved base: the bytes agree if and only if the condition holds. |
| Relocation.CallWithoutCode | compiler/elf_patcher.cc:248-252 | Patching and moving a text with a call without code, which is written as 0 and recorded, gives other bytes than patching it for the moved base, for every move that is not a multiple of 2^32. |
| Relocation.CallIntoOtherOat | compiler/elf_patcher.cc:212-216 | So it does for a call into another oat file, which does not move. |
| ImagePatch.RelocatedOnce | patchoat/patchoat.cc:493-499 | The relocated bytes hold the address plus the delta, and null for null. |
| ImagePatch.MoveStep | patchoat/patchoat.cc:465-479 | One more slot keeps: visited slots hold the moved original, other bytes are the original. |
| ImagePatch.PatchSlot | patchoat/patchoat.cc:465-479 | A reference is always written, an entry point unless null; both end right. |
| ImagePatch.NullStays | patchoat/patchoat.cc:537-560 | A null entry point that is skipped already has its right value. |
| ImagePatch.VisitObject | patchoat/patchoat.cc:512-561 | Every reference and every method entry point of the object ends as the original plus the delta, or null. |
| ImagePatch.MovedMeans | patchoat/patchoat.cc:465-561 | When all slots are moved, the four bytes at every reference and the pointer at every entry point of every visited object are the original plus the delta, or null, and every byte of none of them is the original. |
| ImagePatch.PatchImage | patchoat/patchoat.cc:436-456 | After the roots and the walk over the bitmap, every reference and every entry point of every visited object holds the original plus the delta exactly once, or null, and nothing else has changed. |
| ImagePatch.VisitsDoNotAddUp | patchoat/patchoat.cc:443-453 | Two walks over the same slots in any order and with any repetitions give the same image. |
| ImagePatch.WalksAgree | patchoat/patchoat.cc:443-453 | So two walks that visit the same objects, in any order and however often, give the same image. |
| ImagePatch.AddressMoved | patchoat/patchoat.cc:465-561 | The address in every visited slot of the copy is the original plus the delta exactly once, or null. |

## Left out

- LineProgram.LineTableGenerator.PutDelta: what the reader makes of a program is not described once an opcode wrapped around to one that appends no row, because that opcode may take the following bytes for operands.
- LineProgram.LineTableGenerator.SetLine: nor is it after a second difference that does not fit, before any entry, because the two may cancel out.
- LineProgram.GenerateLineProgram: leaves these programs open for the same reason. Differences of neighbouring kept lines are required to fit 32 bits, since others overflow a signed number in the source; those of non-negative lines always do.
- DebugLines.FillInLineTable: has the same requirement; looks up the lines of all methods before it writes any, where the source alternates between the two; names, abbreviations and CFI of `FillInCFIInformation` are not part of this model.
- OatReader.NumSetBits: counts bit by bit where the source counts word by word.
- OatReader.GetOatMethod: checks of pointers against the end of the file are left out here.
- OatFile.Setup: sizes and counts in the oat header are given; the number of classes in the header of a dex file is required to be that of its classes, which is where the writer takes it from. Magic number and version of the oat file, canonical locations and the table by location are left out.
- StringPacking.ProcessStrings: the sort is any order by descending length, given as a parameter; heap visits and the allocation of the array are not part of this model.
- ImageLayout.ImageWriter.CalculateNewObjectOffsets: requires bins of at most 2^29 bytes, a total below 2^31, and objects that are unlocked or hashed, where the source aborts or its checks fail otherwise; `size_t` has 64 bits.
- OatWriter.Write: covers one instruction set per oat file and successful writes; visiting order is a flat list of methods; header bytes and the key-value store are given. Checksums and timing are not part of this model.
- ElfStripper.Strip: requires sections in file order that occupy bytes of the file; `e_shstrndx` and `sh_link` are not rewritten by the source and nothing is claimed about them.
- ElfBuilder.Build: requires files below 4 GB; contents of program headers, symbol tables and dynamic tags are given as bytes.
- GcMap.FindBitMap: the hash function is arbitrary, so nothing is said about the lengths of probes.
- Relocation.ElfPatcher.PatchElf: finding targets through the class linker is replaced by the addresses found; checksums, debug checks and the fixups of ELF headers, program headers and symbols are left out.
- ImagePatch.PatchImage: which slots hold references is given per object; read barriers and the image header are left out.
- ImageHeap.SelectBin: counts of objects per bin are left out.
- Timed `Barrier::Increment`, because it depends on the clock.
- `CopyAndFixupObjects`, image roots and the image header, which would add uniform per-field fixups.
- Disassemblers, `check_jni`, `dex2oat`, `oatdump`, the portable back end and the runtime proper.
